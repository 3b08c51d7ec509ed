/**
 What the interleavings of channel tracking come to (channels.py): runs in which no slot is robbed,
 runs that rob one, errors that say nothing about a slot, and undisturbed reads and refreshes.
 */
module ChannelRuns {
  import opened Bytes
  import opened ChannelTable
  import opened ChannelTracker
  import opened ChannelConvergence

  // ---------------------------------------------------------------- runs that rob no slot

  /** The slot that is answered shares its secret with no other slot, unless that is owed a read. */
  ghost predicate Unshared(st: State)
    requires Enabled(st, Answered)
  {
    var c := SecretAt(st.node, st.op.slot);
    c.Some? ==> forall k: nat :: k != st.op.slot && SecretAt(st.node, k) == c ==> Owed(st, k)
  }

  lemma NoDuplicatesUnshared(st: State)
    requires Enabled(st, Answered) && NoDuplicates(st.node)
    ensures Unshared(st)
  {
    var slot := st.op.slot;
    forall k: nat | k != slot && SecretAt(st.node, k) == SecretAt(st.node, slot)
      ensures SecretAt(st.node, slot).None?
    {
      assert k < slot || slot < k;
    }
  }

  /** The node's side of the bargain. */
  ghost predicate Clean(st: State, step: Step)
    requires Enabled(st, step)
  {
    step.Answered? ==> Unshared(st)
  }

  /** The row that an answer in flight will move is taken from no slot but one that is owed a read. */
  ghost predicate RowSound(st: State) {
    st.op.OnSlot? && !st.op.progress.Asking? && Carried(st.op.progress).Some? ==>
      forall k: nat :: k != st.op.slot && Holds(st.table, k, Carried(st.op.progress).value) ==> Owed(st, k)
  }

  ghost predicate NobodyRobbed(st: State) {
    forall k: nat :: st.robbed(k) ==> Outstanding(st, k)
  }

  ghost predicate CleanInv(st: State) {
    Inv(st) && RowSound(st) && NobodyRobbed(st)
  }

  /** A row of an answer in flight stays sound while statements only take rows off slots. */
  lemma RowStays(st: State, t: State)
    requires RowSound(st)
    requires t.node == st.node && t.pending == st.pending && t.setting == st.setting && t.lost == st.lost
    requires st.op.OnSlot? && t.op.OnSlot? && st.op.slot == t.op.slot
    requires st.op.progress.Asking? ==> t.op.progress.Asking?
    requires Carried(t.op.progress) == Carried(st.op.progress)
    requires forall k: nat, s :: k != t.op.slot && Holds(t.table, k, s) ==> Holds(st.table, k, s)
    ensures RowSound(t)
  {
    hide Holds, SecretAt;
    assert forall k: nat :: Owed(t, k) == Owed(st, k);
  }

  lemma AnsweredKeepsRow(st: State)
    requires CleanInv(st) && Enabled(st, Answered) && Unshared(st)
    ensures RowSound(Next(st, Answered))
  {
    var t, slot := Next(st, Answered), st.op.slot;
    var c := Carried(t.op.progress);
    assert SecretAt(st.node, slot) == c;
    hide Valid, Holds, SecretAt;
    forall k: nat | c.Some? && k != slot && Holds(st.table, k, c.value)
      ensures Owed(t, k)
    {
      if !Owed(st, k) {
        QuietSlotMeaning(st, k);
      }
    }
  }

  lemma WriteKeepsRow(st: State, now: int)
    requires CleanInv(st) && Enabled(st, Write(now))
    ensures RowSound(Next(st, Write(now)))
  {
    hide Valid, Holds, SecretAt, Upsert, EvictOthers, SetSlot, ClearSlot, SameButSlots;
    match st.op.progress {
      case Got(r) =>
        if !Vacant(r) {
          UpsertKeepsValid(st.table, now, r.name, r.secret);
          RowStays(st, Next(st, Write(now)));
        }
      case Upserted(s, _) =>
        EvictKeepsValid(st.table, st.op.slot, s);
        RowStays(st, Next(st, Write(now)));
      case Evicted(_, _) =>
    }
  }

  lemma StepKeepsRow(st: State, step: Step)
    requires CleanInv(st) && Enabled(st, step) && Clean(st, step)
    ensures RowSound(Next(st, step))
  {
    hide Valid, Holds, SecretAt, Upsert, WriteStep, Inv, NobodyRobbed, Unshared;
    match step {
      case Answered => AnsweredKeepsRow(st);
      case Write(now) => WriteKeepsRow(st, now);
      case Record(now, name, secret) =>
        assert Valid(st.table) by { InvMeansValid(st); }
        UpsertKeepsValid(st.table, now, name, secret);
        if st.op.OnSlot? {
          RowStays(st, Next(st, step));
        }
      case _ =>
    }
  }

  lemma InvMeansValid(st: State)
    requires Inv(st)
    ensures Valid(st.table)
  {
  }

  lemma StepRobsNobody(st: State, step: Step)
    requires CleanInv(st) && Enabled(st, step)
    ensures NobodyRobbed(Next(st, step))
  {
    hide Valid, Holds, SecretAt, Upsert, EvictOthers, SetSlot, ClearSlot, ClearSlotsFrom;
    hide QuietSlotsSound, AssignSound, CountSound;
  }

  lemma {:induction false} CleanRunKeepsInv(st: State, steps: seq<Step>, end: State)
    requires CleanInv(st) && Run(st, steps, end)
    ensures CleanInv(end)
    decreases |steps|
  {
    hide Inv, Next, Clean, RowSound, NobodyRobbed;
    if steps != [] {
      StepKeepsInv(st, steps[0]);
      StepKeepsRow(st, steps[0]);
      StepRobsNobody(st, steps[0]);
      CleanRunKeepsInv(Next(st, steps[0]), steps[1..], end);
    }
  }

  /** A run whose every step is clean. */
  ghost predicate Run(st: State, steps: seq<Step>, end: State)
    decreases |steps|
  {
    if steps == [] then st == end
    else Enabled(st, steps[0]) && Clean(st, steps[0]) && Run(Next(st, steps[0]), steps[1..], end)
  }

  /** All along these steps, the node holds no secret in two slots at once. */
  ghost predicate NeverTwice(st: State, steps: seq<Step>)
    decreases |steps|
  {
    && NoDuplicates(st.node)
    && (steps != [] && Enabled(st, steps[0]) ==> NeverTwice(Next(st, steps[0]), steps[1..]))
  }

  lemma {:induction false} NeverTwiceIsClean(st: State, steps: seq<Step>, end: State)
    requires Reaches(st, steps, end) && NeverTwice(st, steps)
    ensures Run(st, steps, end)
    decreases |steps|
  {
    hide Next, NoDuplicates, Unshared;
    if steps != [] {
      if steps[0].Answered? {
        NoDuplicatesUnshared(st);
      }
      NeverTwiceIsClean(Next(st, steps[0]), steps[1..], end);
    }
  }

  /** In clean runs, a slot with nothing outstanding shows what the node holds. */
  lemma CleanSlotsAgree(st: State, steps: seq<Step>, end: State, k: nat)
    requires Start(st) && Run(st, steps, end) && !Outstanding(end, k)
    ensures !end.robbed(k) && AgreesAt(end.table, end.node, k)
  {
    hide Run;
    StartIsSound(st);
    CleanRunKeepsInv(st, steps, end);
    QuietSlotMeaning(end, k);
  }

  // ---------------------------------------------------------------- errors that say nothing

  /**
   A resync or refresh that is answered with an error clears the slot and goes on as if all were
   well: the table is right about the slot afterwards if and only if the slot was vacant.
   */
  lemma ErringAnswerAgreesExactlyWhen(st: State, now: int) returns (end: State)
    requires Valid(st.table) && Enabled(st, Erred)
    ensures Reaches(st, [Erred, Write(now)], end)
    ensures end.node == st.node && end.op == Advance(st.op)
    ensures AgreesAt(end.table, end.node, st.op.slot) <==> SecretAt(st.node, st.op.slot).None?
  {
    hide Valid, ClearSlot, SameButSlots, SecretAt;
    var t := Next(st, Erred);
    end := Next(t, Write(now));
    ClearKeepsValid(st.table, st.op.slot);
    TwoSteps(st, Erred, Write(now));
  }

  lemma OneStep(st: State, a: Step)
    requires Enabled(st, a)
    ensures Reaches(st, [a], Next(st, a))
  {
    assert [a][1..] == [];
  }

  lemma TwoSteps(st: State, a: Step, b: Step)
    requires Enabled(st, a) && Enabled(Next(st, a), b)
    ensures Reaches(st, [a, b], Next(Next(st, a), b))
  {
    hide Next, Enabled;
    assert [a, b][1..] == [b] && [b][1..] == [];
    assert Reaches(Next(st, a), [b], Next(Next(st, a), b));
  }

  // ---------------------------------------------------------------- undisturbed reads and refreshes

  lemma {:induction false} ReachesJoin(st: State, a: seq<Step>, mid: State, b: seq<Step>, end: State)
    requires Reaches(st, a, mid) && Reaches(mid, b, end)
    ensures Reaches(st, a + b, end)
    decreases |a|
  {
    hide Next, Enabled;
    if a == [] {
      assert a + b == b;
    } else {
      ReachesJoin(Next(st, a[0]), a[1..], mid, b, end);
      assert (a + b)[1..] == a[1..] + b;
    }
  }

  /** An undisturbed read of a slot. */
  function ReadSteps(now: int, r: Reply): seq<Step> {
    if Vacant(r) then [Answered, Write(now)] else [Answered, Write(now), Write(now), Write(now)]
  }

  /** What it leaves. */
  ghost predicate AfterRead(st: State, now: int, end: State)
    requires st.op.OnSlot?
  {
    && end.table == WriteSlot(st.table, now, st.op.slot, SlotReply(st.node, st.op.slot)) && Valid(end.table)
    && end.op == Advance(st.op)
    && end.node == st.node && end.pending == st.pending && end.setting == st.setting
    && forall k: nat :: end.lost(k) <==> k != st.op.slot && st.lost(k)
  }

  lemma ReadReaches(st: State, now: int) returns (end: State)
    requires Valid(st.table) && Enabled(st, Answered)
    ensures Reaches(st, ReadSteps(now, SlotReply(st.node, st.op.slot)), end) && AfterRead(st, now, end)
  {
    hide Valid, Upsert, EvictOthers, SetSlot, ClearSlot, Holds, Robbed;
    var slot, r := st.op.slot, SlotReply(st.node, st.op.slot);
    var t1 := Next(st, Answered);
    var t2 := Next(t1, Write(now));
    if Vacant(r) {
      end := t2;
      ClearKeepsValid(st.table, slot);
      TwoSteps(st, Answered, Write(now));
    } else {
      var t3 := Next(t2, Write(now));
      AssignSlotPlaces(st.table, now, slot, r.name, r.secret);
      end := Next(t3, Write(now));
      FourSteps(st, Answered, Write(now), Write(now), Write(now));
    }
  }

  lemma FourSteps(st: State, a: Step, b: Step, c: Step, d: Step)
    requires Enabled(st, a) && Enabled(Next(st, a), b) && Enabled(Next(Next(st, a), b), c)
    requires Enabled(Next(Next(Next(st, a), b), c), d)
    ensures Reaches(st, [a, b, c, d], Next(Next(Next(Next(st, a), b), c), d))
  {
    hide Next, Enabled;
    assert [a, b, c, d] == [a, b] + [c, d];
    TwoSteps(st, a, b);
    TwoSteps(Next(Next(st, a), b), c, d);
    ReachesJoin(st, [a, b], Next(Next(st, a), b), [c, d], Next(Next(Next(Next(st, a), b), c), d));
  }

  /** The reads of the slots below `n`. */
  function SlotSteps(now: int, node: seq<Reply>, n: nat): seq<Step>
    requires n <= |node|
  {
    if n == 0 then [] else SlotSteps(now, node, n - 1) + ReadSteps(now, node[n - 1])
  }

  /** Where a refresh stands before slot `n`. */
  function OpBefore(max: nat, n: nat): Op {
    if n < max then OnSlot(Refresh(max, true), n, Asking) else Finishing(max, true)
  }

  ghost predicate AfterSlots(st: State, now: int, n: nat, t: State)
    requires n <= |st.node|
  {
    && t.table == ReadSlots(st.table, now, st.node, n) && Valid(t.table)
    && t.op == OpBefore(|st.node|, n)
    && t.node == st.node && t.pending == st.pending && t.setting == st.setting
    && forall k: nat :: t.lost(k) ==> k >= n
  }

  lemma {:induction false} SlotsReach(st: State, now: int, n: nat) returns (t: State)
    requires Valid(st.table) && st.setting.None? && n <= |st.node| && st.op == OpBefore(|st.node|, 0)
    ensures Reaches(st, SlotSteps(now, st.node, n), t) && AfterSlots(st, now, n, t)
    decreases n
  {
    hide Valid, WriteSlot;
    if n == 0 {
      t := st;
    } else {
      var s := SlotsReach(st, now, n - 1);
      t := ReadReaches(s, now);
      ReachesJoin(st, SlotSteps(now, st.node, n - 1), s, ReadSteps(now, st.node[n - 1]), t);
    }
  }

  function RefreshSteps(now: int, node: seq<Reply>): seq<Step> {
    [BeginRefresh, Queried(|node|)] + SlotSteps(now, node, |node|) + [Finish]
  }

  /**
   A refresh that nothing disturbs, on any node and from any table, writes exactly what the refresh
   of an unchanging node is specified to write, and leaves no slot owed a read but by a resync that
   waits.
   */
  lemma RefreshReaches(st: State, now: int) returns (end: State)
    requires Valid(st.table) && st.op.Idle? && st.setting.None?
    ensures Reaches(st, RefreshSteps(now, st.node), end)
    ensures end.table == Refreshed(st.table, now, st.node)
    ensures end.node == st.node && end.pending == st.pending && end.op.Idle? && end.setting.None?
    ensures forall k: nat :: !end.lost(k)
    ensures st.pending == multiset{} ==> Settled(end)
  {
    hide Valid, ClearSlotsFrom, Reaches, ReadSlots;
    var n := |st.node|;
    var head, asked := [BeginRefresh, Queried(n)], Next(Next(st, BeginRefresh), Queried(n));
    TwoSteps(st, BeginRefresh, Queried(n));
    var read := SlotsReach(asked, now, n);
    ReachesJoin(st, head, asked, SlotSteps(now, st.node, n), read);
    end := Next(read, Finish);
    OneStep(read, Finish);
    ReachesJoin(st, head + SlotSteps(now, st.node, n), read, [Finish], end);
  }

  // ---------------------------------------------------------------- runs that rob a slot

  /** Reading a slot takes its secret away from every other slot that the node has it in. */
  lemma ReadTakesAway(st: State, now: int, k: nat, end: State)
    requires Valid(st.table) && Enabled(st, Answered) && k != st.op.slot && AfterRead(st, now, end)
    requires SecretAt(st.node, k).Some? && SecretAt(st.node, k) == SecretAt(st.node, st.op.slot)
    ensures !AgreesAt(end.table, st.node, k)
  {
    WriteSlotPlaces(st.table, now, st.op.slot, st.node[st.op.slot], k, SecretAt(st.node, k).value);
  }

  /** A refresh is under way that reads slot `k` next. */
  ghost predicate ReadsNext(st: State, k: nat) {
    st.op.OnSlot? && st.op.job.Refresh? && k == st.op.slot + 1 && k < st.op.job.max
  }

  /**
   `Clean` cannot be weakened: when the slot that is answered shares its secret with slot `k`, and
   `k` is owed no read, there are steps from here, changing nothing on the node, that leave the table
   wrong about a slot with nothing outstanding. Reading the slot makes it wrong about `k`; a refresh
   that reads `k` next makes it wrong about the slot; and if that awaits a resync, this is again at
   the cost of `k`.
   */
  lemma SharedAnswerMisleads(st: State, now: int, k: nat) returns (steps: seq<Step>, end: State, wrong: nat)
    requires Inv(st) && Enabled(st, Answered) && !Owed(st, k) && k != st.op.slot
    requires SecretAt(st.node, k).Some? && SecretAt(st.node, k) == SecretAt(st.node, st.op.slot)
    ensures Reaches(st, steps, end) && end.node == st.node
    ensures !Outstanding(end, wrong) && !AgreesAt(end.table, end.node, wrong)
  {
    hide Inv, Valid, AgreesAt, WriteSlot, SecretAt, ReadSteps;
    assert Valid(st.table) by { InvMeansValid(st); }
    var slot := st.op.slot;
    var mid := ReadReaches(st, now);
    ReadTakesAway(st, now, k, mid);
    var once := ReadSteps(now, SlotReply(st.node, slot));
    steps, end, wrong := once, mid, k;
    if ReadsNext(st, k) {
      assert Enabled(mid, Answered);
      end := ReadReaches(mid, now);
      ReadTakesAway(mid, now, slot, end);
      var twice := once + ReadSteps(now, SlotReply(st.node, k));
      ReachesJoin(st, once, mid, ReadSteps(now, SlotReply(st.node, k)), end);
      steps, wrong := twice, slot;
      if slot in st.pending {
        var more, last := ResyncMisleads(end, now, slot, k);
        ReachesJoin(st, twice, end, more, last);
        steps, end, wrong := twice + more, last, k;
      }
    }
  }

  /** A refresh that fails past `k`, and a resync of a slot that shares its secret with `k`. */
  lemma ResyncMisleads(st: State, now: int, slot: nat, k: nat) returns (steps: seq<Step>, end: State)
    requires Valid(st.table) && !st.op.Idle? && slot in st.pending && st.setting.None? && slot != k
    requires !Owed(st, k) && !(st.op.OnSlot? && st.op.slot == k)
    requires SecretAt(st.node, k).Some? && SecretAt(st.node, k) == SecretAt(st.node, slot)
    ensures Reaches(st, steps, end) && end.node == st.node
    ensures !Outstanding(end, k) && !AgreesAt(end.table, end.node, k)
  {
    hide Valid, AgreesAt, WriteSlot, SecretAt, ReadSteps;
    TwoSteps(st, Failed, BeginResync(slot));
    var begun := Next(Next(st, Failed), BeginResync(slot));
    end := ReadReaches(begun, now);
    ReadTakesAway(begun, now, k, end);
    steps := [Failed, BeginResync(slot)] + ReadSteps(now, SlotReply(st.node, slot));
    ReachesJoin(st, [Failed, BeginResync(slot)], begun, ReadSteps(now, SlotReply(st.node, slot)), end);
  }

  /** A SET_CHANNEL of slot 1 and its resync. */
  function SetSteps(now: int, y: Reply): seq<Step> {
    [SetApplied(1, y), SetReported(true)] + ([BeginResync(1)] + ReadSteps(now, y))
  }

  lemma SetReaches(st: State, now: int, y: Reply) returns (end: State)
    requires Valid(st.table) && st.op.Idle? && |st.node| == 2 && st.setting.None?
    requires st.pending == multiset{} && forall k: nat :: !st.lost(k)
    ensures Reaches(st, SetSteps(now, y), end) && Settled(end)
    ensures end.table == WriteSlot(st.table, now, 1, y) && end.node == st.node[1 := y]
  {
    hide Valid, WriteSlot, Vacant, ReadSteps;
    var told := Next(Next(st, SetApplied(1, y)), SetReported(true));
    TwoSteps(st, SetApplied(1, y), SetReported(true));
    var begun := Next(told, BeginResync(1));
    end := ReadReaches(begun, now);
    OneStep(told, BeginResync(1));
    ReachesJoin(told, [BeginResync(1)], begun, ReadSteps(now, y), end);
    ReachesJoin(st, [SetApplied(1, y), SetReported(true)], told, [BeginResync(1)] + ReadSteps(now, y), end);
  }

  /**
   Holding a secret twice for a while is enough to lose it: after a refresh of a node with `x` in
   slots 0 and 1 and a resync of slot 1, now holding `y`, nothing is outstanding, the node is free
   of duplicates again, and the table misses slot 0.
   */
  lemma PastDuplicateMisleads(st: State, now: int, x: Reply, y: Reply) returns (end: State)
    requires Valid(st.table) && st.op.Idle? && st.pending == multiset{} && st.setting.None? && st.node == [x, x]
    requires !Vacant(x) && !Vacant(y) && x.secret != y.secret
    ensures Reaches(st, RefreshSteps(now, st.node) + SetSteps(now, y), end) && Settled(end)
    ensures end.node == [x, y] && NoDuplicates(end.node)
    ensures AgreesAt(end.table, end.node, 1) && !AgreesAt(end.table, end.node, 0)
  {
    hide Valid, AgreesAt, WriteSlot, Vacant, NoDuplicates, Reaches, RefreshSteps, SetSteps, Settled, Refreshed;
    var mid := RefreshReaches(st, now);
    RefreshPlaces(st.table, now, [x, x]);
    end := SetReaches(mid, now, y);
    ReachesJoin(st, RefreshSteps(now, st.node), mid, SetSteps(now, y), end);
    assert [x, x][1 := y] == [x, y];
    ResyncMisses(st.table, now, x, y);
  }

  lemma ResyncMisses(t: Table, now: int, x: Reply, y: Reply)
    requires Valid(t) && !Vacant(x) && !Vacant(y) && x.secret != y.secret
    ensures var refreshed := Refreshed(t, now, [x, x]);
      var resynced := WriteSlot(refreshed, now, 1, y);
      && NoDuplicates([x, y])
      && AgreesAt(resynced, [x, y], 1)
      && !AgreesAt(resynced, [x, y], 0)
  {
    var refreshed := Refreshed(t, now, [x, x]);
    var node := [x, y];
    RefreshPlaces(t, now, [x, x]);
    assert SecretAt(node, 0) == Some(x.secret) && SecretAt(node, 1) == Some(y.secret);
    assert LastSlot([x, x], 2, x.secret) == Some(1);
    forall s | s != x.secret
      ensures LastSlot([x, x], 2, s) == None
    {
      LastSlotIsGreatest([x, x], 2, s);
    }
    forall k: nat, s {
      WriteSlotPlaces(refreshed, now, 1, y, k, s);
    }
    assert !Holds(WriteSlot(refreshed, now, 1, y), 0, x.secret);
  }
}
