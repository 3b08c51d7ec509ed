/**
 The life of an attribution over every history of arrivals, prunes and backfills (`MessageStore` in
 storage/repositories.py, `ChannelBackfill` in channel_backfill.py). A backfill reads its candidates,
 then scans packets while other work goes on, and writes by message id; SQLite hands ids out again
 once the newest rows are deleted, so messages are named here by the order of their arrival.
 */
module AttributionHistory {
  import opened Bytes
  import opened Backfill
  import opened Attribution
  import GroupText
  import PacketLog

  /** A backfill between reading its candidates and writing its updates; a lock keeps it to one. */
  datatype Flight = Flight(targets: seq<Target>, includeInferred: bool)

  /** `name` tells, for each id in use, how many messages had arrived before this one. */
  datatype State = State(rows: seq<Message>, name: map<nat, nat>, arrived: nat, flight: Option<Flight>)

  datatype Step =
    | Add(d: Draft, holder: Option<int>)            // `add`, with whatever channel holds the slot now
    | Prune(cutoff: int)
    | Read(includeInferred: bool)
    | Write(w: World)                               // by whatever channels and packets were read meanwhile
    | GiveUp                                        // the scan fails

  const EMPTY := State([], map[], 0, None)

  predicate Enabled(s: State, step: Step) {
    match step
    case Read(_) => s.flight.None?
    case Write(_) => s.flight.Some?
    case GiveUp => s.flight.Some?
    case _ => true
  }

  /** What a backfill that reads `w` writes. */
  function UpdatesOf(w: World, targets: seq<Target>): seq<Update> {
    Updates(w.channels, IndexFor(w, targets), targets)
  }

  function Next(s: State, step: Step): State
    requires Enabled(s, step)
  {
    match step
    case Add(d, holder) =>
      s.(rows := Added(s.rows, d, holder), name := s.name[NextId(s.rows) := s.arrived], arrived := s.arrived + 1)
    case Prune(cutoff) => s.(rows := Kept(s.rows, cutoff))
    case Read(includeInferred) => s.(flight := Some(Flight(Pending(s.rows, includeInferred), includeInferred)))
    case Write(w) => s.(rows := Reassigned(s.rows, UpdatesOf(w, s.flight.value.targets)), flight := None)
    case GiveUp => s.(flight := None)
  }

  /** While a backfill is under way, a prune leaves no id free that one of its candidates has. */
  predicate Safe(s: State, step: Step) {
    step.Prune? && s.flight.Some? ==> Below(s.flight.value.targets, NextId(Kept(s.rows, step.cutoff)))
  }

  predicate Below(targets: seq<Target>, id: nat) {
    forall t :: t in targets ==> t.id < id
  }

  ghost predicate Run(s: State, steps: seq<Step>, t: State)
    decreases |steps|
  {
    if steps == [] then s == t
    else Enabled(s, steps[0]) && Run(Next(s, steps[0]), steps[1..], t)
  }

  ghost predicate SafeRun(s: State, steps: seq<Step>, t: State)
    decreases |steps|
  {
    if steps == [] then s == t
    else Enabled(s, steps[0]) && Safe(s, steps[0]) && SafeRun(Next(s, steps[0]), steps[1..], t)
  }

  // ---------------------------------------------------------------- the invariant

  ghost predicate Named(s: State) {
    && (forall r :: r in s.rows ==> r.id in s.name && s.name[r.id] < s.arrived)
    && (forall r, q :: r in s.rows && q in s.rows && s.name[r.id] == s.name[q.id] ==> r == q)
  }

  /** What the backfill under way still knows about the messages it read. */
  ghost predicate Fresh(rows: seq<Message>, f: Flight) {
    && Distinct(f.targets)
    && Below(f.targets, NextId(rows))
    && forall t, r :: t in f.targets && r in rows && r.id == t.id ==>
         TargetOf(r) == t && Candidate(r, f.includeInferred)
  }

  ghost predicate Inv(s: State) {
    && Valid(s.rows)
    && Named(s)
    && (s.flight.Some? ==> Fresh(s.rows, s.flight.value))
  }

  /** NULL before inferred before decrypted. */
  function Rank(source: Option<Source>): nat {
    if source.None? then 0 else if source == Some(Inferred) then 1 else 2
  }

  /** What may become of a row: its attribution only moves up, and 'slot' and 'decrypted' are final. */
  predicate Promotes(a: Message, b: Message) {
    && b == a.(channel := b.channel, source := b.source)
    && (b == a || (Rank(a.source) < 2 && Rank(a.source) <= Rank(b.source) && b.source.Some? && b.source != Some(Slot)))
  }

  ghost predicate SameMessage(s: State, r: Message, t: State, q: Message) {
    r.id in s.name && q.id in t.name && s.name[r.id] == t.name[q.id]
  }

  /** `q`, a row of `t`, is what became of some row of `s`. */
  ghost predicate ComesFrom(s: State, t: State, q: Message) {
    exists r :: r in s.rows && SameMessage(s, r, t, q) && Promotes(r, q)
  }

  /** Every message of `t` that had arrived by `s` was there in `s`, where its attribution was the same or lower. */
  ghost predicate Evolves(s: State, t: State) {
    && s.arrived <= t.arrived
    && forall q :: q in t.rows && q.id in t.name && t.name[q.id] < s.arrived ==> ComesFrom(s, t, q)
  }

  // ---------------------------------------------------------------- what the steps are

  /** A read takes up just the candidates, and a backfill ends when it writes or fails. */
  lemma FlightsMean(s: State, step: Step)
    requires Valid(s.rows) && Enabled(s, step)
    ensures step.Read? ==>
              && s.flight == None && Next(s, step).rows == s.rows
              && Next(s, step).flight.Some? && Next(s, step).flight.value.includeInferred == step.includeInferred
              && forall t :: t in Next(s, step).flight.value.targets <==>
                   exists r :: r in s.rows && Backfillable(r, step.includeInferred, t)
    ensures step.Write? || step.GiveUp? ==> s.flight.Some? && Next(s, step).flight == None
    ensures step.GiveUp? ==> Next(s, step).rows == s.rows
    ensures step.Add? || step.Prune? ==> Next(s, step).flight == s.flight
  {
    if step.Read? {
      PendingByColumns(s.rows, step.includeInferred);
    }
  }

  /** What arrives, and what a prune leaves. */
  lemma RowsMean(s: State, step: Step)
    requires Valid(s.rows) && Enabled(s, step)
    ensures step.Add? ==>
              && var rows := Next(s, step).rows;
                 |rows| == |s.rows| + 1 && rows[..|s.rows|] == s.rows
                 && Records(rows[|s.rows|], NextId(s.rows), step.d) && Credits(rows[|s.rows|], step.d, step.holder)
    ensures step.Add? ==> Next(s, step).arrived == s.arrived + 1
    ensures step.Prune? ==> forall r :: r in Next(s, step).rows <==> r in s.rows && r.ts >= step.cutoff
    ensures EMPTY.rows == [] && EMPTY.flight == None && EMPTY.arrived == 0
  {
    if step.Prune? {
      KeptMeaning(s.rows, step.cutoff);
    }
  }

  // ---------------------------------------------------------------- one step

  /** Rows that stay as they are, or are new. */
  lemma UntouchedEvolves(s: State, t: State)
    requires s.arrived <= t.arrived
    requires forall q :: q in t.rows && q.id in t.name && t.name[q.id] < s.arrived ==>
               q in s.rows && q.id in s.name && s.name[q.id] == t.name[q.id]
    ensures Evolves(s, t)
  {
    forall q | q in t.rows && q.id in t.name && t.name[q.id] < s.arrived
      ensures ComesFrom(s, t, q)
    {
      assert SameMessage(s, q, t, q) && Promotes(q, q);
    }
  }

  lemma IdsBelowNext(rows: seq<Message>)
    requires Ascending(rows)
    ensures forall r :: r in rows ==> r.id < NextId(rows)
  {
  }

  lemma AddKeepsNames(s: State, d: Draft, holder: Option<int>)
    requires Ascending(s.rows) && Named(s)
    ensures Named(Next(s, Add(d, holder))) && Evolves(s, Next(s, Add(d, holder)))
  {
    hide NextId, Arrival, Ascending, Evolves;
    var id, t := NextId(s.rows), Next(s, Add(d, holder));
    IdsBelowNext(s.rows);
    var arrival := Arrival(id, d, holder);
    ArrivalHasId(id, d, holder);
    forall q | q in t.rows
      ensures q.id in t.name && t.name[q.id] < t.arrived
      ensures q == arrival || (q in s.rows && t.name[q.id] == s.name[q.id])
      ensures t.name[q.id] == s.arrived <==> q == arrival
    {
      assert q in s.rows || q == arrival;
    }
    UntouchedEvolves(s, t);
  }

  lemma ArrivalHasId(id: nat, d: Draft, holder: Option<int>)
    ensures Arrival(id, d, holder).id == id
  {
  }

  lemma AddKeepsFresh(rows: seq<Message>, f: Flight, d: Draft, holder: Option<int>)
    requires Ascending(rows) && Fresh(rows, f)
    ensures Fresh(Added(rows, d, holder), f)
  {
    hide Candidate, TargetOf, Distinct, Ascending;
    assert Added(rows, d, holder)[|rows|].id == NextId(rows);
  }

  lemma AddKeepsInv(s: State, d: Draft, holder: Option<int>)
    requires Inv(s)
    ensures Inv(Next(s, Add(d, holder))) && Evolves(s, Next(s, Add(d, holder)))
  {
    hide Fresh, Named, Evolves;
    AddKeepsValid(s.rows, d, holder);
    AddKeepsNames(s, d, holder);
    if s.flight.Some? {
      AddKeepsFresh(s.rows, s.flight.value, d, holder);
    }
  }

  lemma PruneKeepsInv(s: State, cutoff: int)
    requires Inv(s) && Safe(s, Prune(cutoff))
    ensures Inv(Next(s, Prune(cutoff))) && Evolves(s, Next(s, Prune(cutoff)))
  {
    hide Valid, Kept, Candidate, Distinct, Evolves;
    KeptMeaning(s.rows, cutoff);
    UntouchedEvolves(s, Next(s, Prune(cutoff)));
  }

  lemma ReadKeepsInv(s: State, includeInferred: bool)
    requires Inv(s) && s.flight.None?
    ensures Inv(Next(s, Read(includeInferred))) && Evolves(s, Next(s, Read(includeInferred)))
  {
    hide Pending, Candidate;
    PendingMeaning(s.rows, includeInferred);
    IdsBelowNext(s.rows);
    hide NextId, Evolves, TargetOf;
    TargetsShareIds(s.rows, includeInferred);
    UntouchedEvolves(s, Next(s, Read(includeInferred)));
  }

  lemma TargetsShareIds(rows: seq<Message>, includeInferred: bool)
    requires Ascending(rows)
    ensures forall t, r :: t in Pending(rows, includeInferred) && r in rows && r.id == t.id ==>
              TargetOf(r) == t && Candidate(r, includeInferred)
    ensures forall t :: t in Pending(rows, includeInferred) ==> exists r :: r in rows && r.id == t.id
  {
    hide Pending, Candidate;
    PendingMeaning(rows, includeInferred);
    forall t | t in Pending(rows, includeInferred)
      ensures exists r :: r in rows && r.id == t.id
      ensures forall r :: r in rows && r.id == t.id ==> TargetOf(r) == t && Candidate(r, includeInferred)
    {
      var q :| q in rows && Candidate(q, includeInferred) && TargetOf(q) == t;
      SameIdSameMessage(rows, q);
    }
  }

  /** What the write does to one row: it settles a candidate and passes over everything else. */
  lemma WritePromotes(r: Message, f: Flight, w: World)
    requires Distinct(f.targets)
    requires forall t :: t in f.targets && r.id == t.id ==> Candidate(r, f.includeInferred)
    ensures Promotes(r, AssignAll(r, UpdatesOf(w, f.targets)))
  {
    hide Updates, AssignAll, VerdictOf;
    var k := Position(f.targets, r.id);
    UpdatesSettle(w.channels, IndexFor(w, f.targets), f.targets, r, k);
    if k < |f.targets| && f.targets[k].id == r.id {
      assert f.targets[k] in f.targets;
    }
  }

  lemma PromotedRowsEvolve(s: State, t: State)
    requires Ascending(s.rows) && Named(s) && t == s.(rows := t.rows, flight := t.flight) && |t.rows| == |s.rows|
    requires forall i :: 0 <= i < |t.rows| ==> t.rows[i].id == s.rows[i].id && Promotes(s.rows[i], t.rows[i])
    ensures Named(t) && Evolves(s, t)
  {
    hide Promotes;
    forall i | 0 <= i < |t.rows|
      ensures ComesFrom(s, t, t.rows[i])
    {
      assert SameMessage(s, s.rows[i], t, t.rows[i]);
    }
    SameIdsKeepNames(s, t);
  }

  lemma WriteKeepsInv(s: State, w: World)
    requires Inv(s) && s.flight.Some?
    ensures Inv(Next(s, Write(w))) && Evolves(s, Next(s, Write(w)))
  {
    hide Updates, AssignAll, Promotes, Named, Evolves;
    var f, t := s.flight.value, Next(s, Write(w));
    ReassignedKeepsValid(s.rows, UpdatesOf(w, f.targets));
    forall i | 0 <= i < |t.rows|
      ensures t.rows[i].id == s.rows[i].id && Promotes(s.rows[i], t.rows[i])
    {
      assert s.rows[i] in s.rows;
      AssignAllKeeps(s.rows[i], UpdatesOf(w, f.targets));
      WritePromotes(s.rows[i], f, w);
    }
    PromotedRowsEvolve(s, t);
  }

  lemma StepKeepsInv(s: State, step: Step)
    requires Inv(s) && Enabled(s, step) && Safe(s, step)
    ensures Inv(Next(s, step)) && Evolves(s, Next(s, step))
  {
    hide Valid, Named, Fresh, Evolves;
    match step {
      case Add(d, holder) => AddKeepsInv(s, d, holder);
      case Prune(cutoff) => PruneKeepsInv(s, cutoff);
      case Read(includeInferred) => ReadKeepsInv(s, includeInferred);
      case Write(w) => WriteKeepsInv(s, w);
      case GiveUp => EvolvesInto(s, Next(s, step));
    }
  }

  lemma EvolvesInto(s: State, t: State)
    requires Inv(s) && t == s.(flight := t.flight) && t.flight.None?
    ensures Inv(t) && Evolves(s, t)
  {
    forall q | q in t.rows
      ensures ComesFrom(s, t, q)
    {
      assert SameMessage(s, q, t, q) && Promotes(q, q);
    }
  }

  // ---------------------------------------------------------------- whole histories

  lemma PromotesChains(a: Message, b: Message, c: Message)
    requires Promotes(a, b) && Promotes(b, c)
    ensures Promotes(a, c)
  {
  }

  lemma EvolvesChains(s: State, u: State, t: State)
    requires Evolves(s, u) && Evolves(u, t) && Named(u)
    ensures Evolves(s, t)
  {
    hide Promotes;
    forall q | q in t.rows && q.id in t.name && t.name[q.id] < s.arrived
      ensures ComesFrom(s, t, q)
    {
      assert ComesFrom(u, t, q);
      var p :| p in u.rows && SameMessage(u, p, t, q) && Promotes(p, q);
      assert ComesFrom(s, u, p);
      var r :| r in s.rows && SameMessage(s, r, u, p) && Promotes(r, p);
      PromotesChains(r, p, q);
      assert SameMessage(s, r, t, q);
    }
  }

  /**
   The lifecycle, over every history with safe prunes and between any two of its states: attributions
   only move from NULL to inferred to decrypted, and those by slot or by packet are final.
   */
  lemma {:induction false} AttributionsOnlyMoveUp(s: State, steps: seq<Step>, t: State)
    requires Inv(s) && SafeRun(s, steps, t)
    ensures Inv(t) && Evolves(s, t)
    decreases |steps|
  {
    hide Inv, Next, Safe, Enabled, Evolves;
    if steps == [] {
      Unchanged(s);
    } else {
      var u := Next(s, steps[0]);
      StepKeepsInv(s, steps[0]);
      AttributionsOnlyMoveUp(u, steps[1..], t);
      assert Named(u) by { InvNames(u); }
      EvolvesChains(s, u, t);
    }
  }

  /** What may have become of a message, column by column. */
  ghost predicate Followed(r: Message, q: Message) {
    && q.id == r.id && q.ts == r.ts && q.onChannel == r.onChannel && q.channelIdx == r.channelIdx
    && q.senderTimestamp == r.senderTimestamp && q.text == r.text
    && (r.source == Some(Slot) || r.source == Some(DecryptedPacket) ==> q.source == r.source && q.channel == r.channel)
    && (r.source == Some(Inferred) ==> q.source == Some(Inferred) || q.source == Some(DecryptedPacket))
    && (r.source == None ==> q.source != Some(Slot) && (q.source == None ==> q.channel == r.channel))
  }

  lemma LifecycleInColumns(s: State, steps: seq<Step>, t: State, q: Message)
    requires Inv(s) && SafeRun(s, steps, t)
    requires q in t.rows && q.id in t.name && t.name[q.id] < s.arrived
    ensures exists r :: r in s.rows && SameMessage(s, r, t, q) && Followed(r, q)
  {
    hide Inv, SafeRun;
    AttributionsOnlyMoveUp(s, steps, t);
    var r :| r in s.rows && SameMessage(s, r, t, q) && Promotes(r, q);
    PromotesIsFollowed(r, q);
  }

  lemma PromotesIsFollowed(r: Message, q: Message)
    requires Promotes(r, q)
    ensures Followed(r, q)
  {
    if q.source.Some? {
      match q.source.value {
        case Slot =>
        case Inferred =>
        case DecryptedPacket =>
      }
    }
  }

  lemma InvNames(s: State)
    requires Inv(s)
    ensures Named(s)
  {
  }

  lemma Unchanged(s: State)
    requires Inv(s)
    ensures Evolves(s, s)
  {
    forall q | q in s.rows
      ensures ComesFrom(s, s, q)
    {
      assert SameMessage(s, q, s, q) && Promotes(q, q);
    }
  }

  lemma StepKeepsValid(s: State, step: Step)
    requires Valid(s.rows) && Enabled(s, step)
    ensures Valid(Next(s, step).rows)
  {
    hide Valid, Kept, Updates;
    match step {
      case Add(d, holder) => AddKeepsValid(s.rows, d, holder);
      case Prune(cutoff) => KeptMeaning(s.rows, cutoff);
      case Write(w) => ReassignedKeepsValid(s.rows, UpdatesOf(w, s.flight.value.targets));
      case _ =>
    }
  }

  lemma {:induction false} RunKeepsValid(s: State, steps: seq<Step>, t: State)
    requires Valid(s.rows) && Run(s, steps, t)
    ensures Valid(t.rows)
    decreases |steps|
  {
    hide Valid, Next;
    if steps != [] {
      StepKeepsValid(s, steps[0]);
      RunKeepsValid(Next(s, steps[0]), steps[1..], t);
    }
  }

  /** In every history at all, safe or not, channel and source are NULL together. */
  lemma EveryHistoryPairs(steps: seq<Step>, t: State)
    requires Run(EMPTY, steps, t)
    ensures forall r :: r in t.rows ==> (r.channel.None? <==> r.source.None?)
  {
    RunKeepsValid(EMPTY, steps, t);
  }

  lemma StepKeepsNames(s: State, step: Step)
    requires Valid(s.rows) && Named(s) && Enabled(s, step)
    ensures Named(Next(s, step))
  {
    hide Valid, Kept, UpdatesOf, AssignAll;
    assert Ascending(s.rows) by { ValidAscends(s.rows); }
    match step {
      case Add(d, holder) =>
        hide Named;
        AddKeepsNames(s, d, holder);
      case Prune(cutoff) => KeptMeaning(s.rows, cutoff);
      case Write(w) =>
        forall i | 0 <= i < |s.rows|
          ensures Next(s, step).rows[i].id == s.rows[i].id
        {
          AssignAllKeeps(s.rows[i], UpdatesOf(w, s.flight.value.targets));
        }
        SameIdsKeepNames(s, Next(s, step));
      case _ =>
    }
  }

  lemma SameIdsKeepNames(s: State, t: State)
    requires Ascending(s.rows) && Named(s) && t == s.(rows := t.rows, flight := t.flight) && |t.rows| == |s.rows|
    requires forall i :: 0 <= i < |t.rows| ==> t.rows[i].id == s.rows[i].id
    ensures Named(t)
  {
    forall i, j | 0 <= i < |t.rows| && 0 <= j < |t.rows| && t.name[t.rows[i].id] == t.name[t.rows[j].id]
      ensures t.rows[i] == t.rows[j]
    {
      assert s.rows[i] in s.rows && s.rows[j] in s.rows;
      assert s.rows[i] == s.rows[j] && i == j;
    }
  }

  lemma {:induction false} RunKeepsNames(s: State, steps: seq<Step>, t: State)
    requires Valid(s.rows) && Named(s) && Run(s, steps, t)
    ensures Valid(t.rows) && Named(t)
    decreases |steps|
  {
    hide Valid, Named, Next;
    if steps != [] {
      StepKeepsValid(s, steps[0]);
      StepKeepsNames(s, steps[0]);
      RunKeepsNames(Next(s, steps[0]), steps[1..], t);
    }
  }

  /**
   The lifecycle resumes as soon as no backfill is under way: whatever happened before, unsafe prunes
   included, from such a state on attributions only move up while prunes are safe.
   */
  lemma LifecycleResumes(before: seq<Step>, s: State, after: seq<Step>, t: State)
    requires Run(EMPTY, before, s) && s.flight.None? && SafeRun(s, after, t)
    ensures Inv(s) && Inv(t) && Evolves(s, t)
  {
    hide Valid, Named, Evolves, Run, SafeRun;
    NothingIsValid();
    RunKeepsNames(EMPTY, before, s);
    AttributionsOnlyMoveUp(s, after, t);
  }

  lemma NothingIsValid()
    ensures Valid(EMPTY.rows) && Named(EMPTY)
  {
  }

  // ---------------------------------------------------------------- unsafe prunes

  /** `n` messages from a slot that channel `holder` has. */
  function Adds(d: Draft, holder: int, n: nat): seq<Step> {
    if n == 0 then [] else [Add(d, Some(holder))] + Adds(d, holder, n - 1)
  }

  lemma {:induction false} AddsHandOutIds(s: State, d: Draft, holder: int, n: nat) returns (t: State)
    requires d.onChannel && d.channelIdx.Some? && n >= 1
    ensures Run(s, Adds(d, holder, n), t) && t.flight == s.flight && t.rows != []
    ensures t.rows[|t.rows| - 1] == Arrival(NextId(s.rows) + n - 1, d, Some(holder))
    ensures NextId(s.rows) + n - 1 in t.name && t.name[NextId(s.rows) + n - 1] >= s.arrived
    decreases n
  {
    t := Next(s, Add(d, Some(holder)));
    assert Adds(d, holder, n) == [Add(d, Some(holder))] + Adds(d, holder, n - 1);
    assert Adds(d, holder, n)[1..] == Adds(d, holder, n - 1);
    if n > 1 {
      t := AddsHandOutIds(t, d, holder, n - 1);
    }
  }

  /**
   `Safe` cannot be weakened: after any prune that frees a candidate's id, enough new messages make
   one of them take that id, its attribution by slot being final; and a backfill that reads anything
   that resolves the candidate overwrites it with the candidate's verdict.
   */
  lemma UnsafePruneMisattributes(s: State, cutoff: int, target: Target, d: Draft, holder: int, w: World)
    returns (steps: seq<Step>, u: State, t: State)
    requires Inv(s) && s.flight.Some? && target in s.flight.value.targets
    requires target.id >= NextId(Kept(s.rows, cutoff))
    requires d.onChannel && d.channelIdx.Some?
    requires !VerdictOf(w.channels, IndexFor(w, s.flight.value.targets), target).Unresolved?
    ensures Run(s, [Prune(cutoff)] + steps, u) && u.rows != []
    ensures Enabled(u, Write(w)) && t == Next(u, Write(w)) && t.name == u.name && |t.rows| == |u.rows|
    ensures
      var r, v := u.rows[|u.rows| - 1], VerdictOf(w.channels, IndexFor(w, s.flight.value.targets), target);
      && r.source == Some(Slot) && r.channel == Some(holder)
      && r.id in u.name && u.name[r.id] >= s.arrived
      && t.rows[|u.rows| - 1]
         == r.(channel := Some(v.channel), source := Some(if v.FromPacket? then DecryptedPacket else Inferred))
  {
    hide Updates, AssignAll, VerdictOf, Kept, Valid, Named, IndexFor;
    var pruned := Next(s, Prune(cutoff));
    var n := target.id - NextId(pruned.rows) + 1;
    steps := Adds(d, holder, n);
    u := AddsHandOutIds(pruned, d, holder, n);
    assert ([Prune(cutoff)] + steps)[1..] == steps;
    t := Next(u, Write(w));
    var targets, r := s.flight.value.targets, u.rows[|u.rows| - 1];
    var k :| 0 <= k < |targets| && targets[k] == target;
    UpdatesSettle(w.channels, IndexFor(w, targets), targets, r, k);
  }

  /** A channel in its slot resolves a candidate when the packet log is empty. */
  lemma SlotResolves(codec: Codec, own: Channel, targets: seq<Target>, target: Target)
    requires target in targets && target.channelIdx.Some? && own.slot == target.channelIdx
    ensures VerdictOf([own], IndexFor(World(codec, [own], []), targets), target) == FromSlot(own.id)
  {
    assert IndexFor(World(codec, [own], []), targets) == map[];
    SlotChannelMeaning([own], 0, target.channelIdx.value);
  }

  /** So does its own packet, whether or not it came from a known slot. */
  lemma PacketResolves(codec: Codec, own: Channel, p: PacketLog.Packet, targets: seq<Target>, target: Target,
      timestamp: nat, kind: byte, text: Bytes)
    requires GroupText.Lawful(codec.crypto) && timestamp < 0x1_0000_0000 && GroupText.Stripped(text, 0)
    requires target in targets && p.payload.Some? && Scanned(p, MinTs(targets), MaxTs(targets))
    requires codec.parse(p.payload.value) == GroupText.Encrypted(codec.crypto, own.secret, timestamp, kind, text)
    requires GroupText.WellFormed(codec.parse(p.payload.value))
    requires StoredAs(codec.crypto.decode(text), Key(target)) && SameSend(target, Entry(own.id, p.ts, timestamp))
    ensures VerdictOf([own], IndexFor(World(codec, [own], [p]), targets), target) == FromPacket(own.id)
  {
    hide GroupText.Lawful, GroupText.Encrypted, GroupText.WellFormed, GroupText.Stripped, StoredAs, SameSend, Key;
    hide IndexOf, SecretsOf, Decrypted, Scanned, Window, SlotChannel, VerdictOf;
    var window, secrets := Window([p], targets), SecretsOf(codec.crypto, [own]);
    WindowMeaning([p], targets);
    EncryptedPacketDecrypts(codec, [own], own, p, timestamp, kind, text);
    forall x | Witnessed(codec, secrets, window, target, x)
      ensures x == own.id
    {
      var q :| q in window && Witnesses(codec, secrets, q, target) && Decrypted(codec, secrets, q).value.channel == x;
    }
    OwnPacketDecides(codec, [own], window, own, p, target, timestamp, kind, text);
  }
}
