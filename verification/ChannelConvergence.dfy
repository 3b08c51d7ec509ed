/**
 The channel table under every interleaving of SET_CHANNELs, pending resyncs and refreshes
 (channels.py). The tracker's lock admits one resync or refresh at a time, but the node can change
 between the moment it answers `get_channel` and the table writes, which are separate statements.
 Each step below is what runs between two `await`s.
 */
module ChannelConvergence {
  import opened Bytes
  import opened ChannelTable
  import opened ChannelTracker

  /** `current` says that the refresh's count covers the node's slots; it is lost when the node is replaced. */
  datatype Job = Resync | Refresh(max: nat, current: bool)

  /** How far the slot at hand has got. */
  datatype Progress =
    | Asking                              // `get_channel` not answered yet
    | Got(reply: Reply)                   // answered, nothing written
    | Upserted(secret: Secret, id: nat)   // `assign_slot` after its first statement
    | Evicted(secret: Secret, id: nat)    // and after its second

  /** What the holder of the tracker's lock is doing. */
  datatype Op =
    | Idle
    | Querying
    | OnSlot(job: Job, slot: nat, progress: Progress)
    | Finishing(max: nat, current: bool)

  /**
   `pending` are the resyncs spawned and not yet started; `setting` is the slot of a SET_CHANNEL
   that the node has carried out but whose response the daemon has not processed; `lost` are the
   slots that may have changed without anyone being told, or were answered with a mere error, since
   they were last read; `robbed` are the slots whose row the answer for another slot took along,
   although the node held its secret there as well, since they were last read.
   */
  datatype State = State(
    node: seq<Reply>,
    table: Table,
    pending: multiset<nat>,
    setting: Option<nat>,
    lost: nat -> bool,
    robbed: nat -> bool,
    op: Op)

  datatype Step =
    | SetApplied(slot: nat, reply: Reply)   // the node carries out a raw SET_CHANNEL
    | SetReported(ok: bool)                 // its response arrives: OK, or an error or timeout
    | Changed(slot: nat, reply: Reply)      // a slot changes by other means
    | Replaced(node: seq<Reply>)            // another node, or the same one after an outage
    | Record(now: int, name: string, secret: Secret) // `upsert` by a gRPC caller
    | BeginResync(slot: nat)
    | BeginRefresh
    | Queried(max: nat)                     // the device query is answered with a number of slots
    | Answered                              // `get_channel` is answered with what the slot holds
    | Erred                                 // or with an error that says nothing about the slot
    | Write(now: int)                       // the next table statement for the slot at hand
    | Finish                                // `clear_slots_from`
    | Failed                                // the resync or refresh raises

  ghost predicate Enabled(st: State, step: Step) {
    match step
    case SetApplied(slot, _) => st.setting.None? && slot < |st.node|
    case SetReported(_) => st.setting.Some?
    case Changed(slot, _) => slot < |st.node|
    case Replaced(_) => true
    case Record(_, _, _) => true
    case BeginResync(slot) => st.op.Idle? && slot in st.pending
    case BeginRefresh => st.op.Idle?
    case Queried(_) => st.op.Querying?
    case Answered | Erred => st.op.OnSlot? && st.op.progress.Asking? && st.setting.None?
    case Write(_) => st.op.OnSlot? && !st.op.progress.Asking?
    case Finish => st.op.Finishing?
    case Failed => !st.op.Idle?
  }

  function SlotReply(node: seq<Reply>, slot: nat): Reply {
    if slot < |node| then node[slot] else ErrorReply
  }

  /** What the lock holder does next once a slot is written. */
  function Advance(op: Op): Op
    requires op.OnSlot?
  {
    match op.job
    case Resync => Idle
    case Refresh(max, current) =>
      if op.slot + 1 < max then OnSlot(op.job, op.slot + 1, Asking) else Finishing(max, current)
  }

  function Outdate(op: Op): Op {
    match op
    case OnSlot(Refresh(max, _), slot, p) => OnSlot(Refresh(max, false), slot, p)
    case Finishing(max, _) => Finishing(max, false)
    case _ => op
  }

  /** One statement of `clear_slot` or `assign_slot`. */
  ghost function WriteStep(st: State, now: int): State
    requires st.op.OnSlot? && !st.op.progress.Asking?
  {
    var slot := st.op.slot;
    match st.op.progress
    case Got(r) =>
      if Vacant(r) then st.(table := ClearSlot(st.table, slot), op := Advance(st.op))
      else
        var t := Upsert(st.table, now, r.name, r.secret);
        st.(table := t, op := st.op.(progress := Upserted(r.secret, t[r.secret].id)))
    case Upserted(s, id) =>
      st.(table := EvictOthers(st.table, slot, id), op := st.op.(progress := Evicted(s, id)))
    case Evicted(s, id) =>
      match SetSlot(st.table, slot, id)
      case Ok(t) => st.(table := t, op := Advance(st.op), robbed := Robbed(st, slot, s))
      case UniqueViolation => Fail(st)
  }

  /** Placing the row of `s` in a slot takes it away from any other slot that the node has it in. */
  ghost function Robbed(st: State, slot: nat, s: Secret): nat -> bool {
    (k: nat) => st.robbed(k) || (k != slot && Holds(st.table, k, s) && SecretAt(st.node, k) == Some(s))
  }

  ghost function Fail(st: State): State {
    st.(op := Idle, lost := if st.op.OnSlot? then (k: nat) => k == st.op.slot || st.lost(k) else st.lost)
  }

  ghost function Next(st: State, step: Step): State
    requires Enabled(st, step)
  {
    match step
    case SetApplied(slot, reply) => st.(node := st.node[slot := reply], setting := Some(slot))
    case SetReported(ok) =>
      var slot := st.setting.value;
      if ok then st.(setting := None, pending := st.pending + multiset{slot})
      else st.(setting := None, lost := (k: nat) => k == slot || st.lost(k))
    case Changed(slot, reply) => st.(node := st.node[slot := reply], lost := (k: nat) => k == slot || st.lost(k))
    case Replaced(node) => st.(node := node, lost := (k: nat) => true, op := Outdate(st.op))
    case Record(now, name, secret) => st.(table := Upsert(st.table, now, name, secret))
    case BeginResync(slot) => st.(pending := st.pending - multiset{slot}, op := OnSlot(Resync, slot, Asking))
    case BeginRefresh => st.(op := Querying)
    case Queried(max) =>
      var current := max >= |st.node|;
      st.(op := if max == 0 then Finishing(0, current) else OnSlot(Refresh(max, current), 0, Asking),
          lost := (k: nat) => st.lost(k) || (!current && k >= max))
    case Answered =>
      st.(op := st.op.(progress := Got(SlotReply(st.node, st.op.slot))),
          lost := (k: nat) => k != st.op.slot && st.lost(k),
          robbed := (k: nat) => k != st.op.slot && st.robbed(k))
    case Erred =>
      st.(op := st.op.(progress := Got(ErrorReply)),
          lost := (k: nat) => k == st.op.slot || st.lost(k),
          robbed := (k: nat) => k != st.op.slot && st.robbed(k))
    case Write(now) => WriteStep(st, now)
    case Finish =>
      st.(table := ClearSlotsFrom(st.table, st.op.max),
          lost := (k: nat) => st.lost(k) && !(st.op.current && k >= st.op.max),
          robbed := (k: nat) => st.robbed(k) && !(st.op.current && k >= st.op.max),
          op := Idle)
    case Failed => Fail(st)
  }

  // ---------------------------------------------------------------- what runs are made of

  /** The node may change at any time, in one slot or altogether, with the daemon's table untouched. */
  ghost predicate OnlyTheNode(st: State, t: State, node: seq<Reply>) {
    t.node == node && t.table == st.table && t.pending == st.pending
  }

  lemma NodeIsFree(st: State, slot: nat, reply: Reply, node: seq<Reply>)
    requires slot < |st.node|
    ensures Enabled(st, Changed(slot, reply)) && OnlyTheNode(st, Next(st, Changed(slot, reply)), st.node[slot := reply])
    ensures Next(st, Changed(slot, reply)).lost(slot)
    ensures Enabled(st, Replaced(node)) && OnlyTheNode(st, Next(st, Replaced(node)), node)
    ensures forall k: nat :: Next(st, Replaced(node)).lost(k)
    ensures st.setting == None ==>
              && Enabled(st, SetApplied(slot, reply))
              && OnlyTheNode(st, Next(st, SetApplied(slot, reply)), st.node[slot := reply])
              && Next(st, SetApplied(slot, reply)).setting == Some(slot)
  {
  }

  /** A SET_CHANNEL that reports OK spawns one resync of its slot, and only that; any other is lost track of. */
  lemma ReportSpawns(st: State, ok: bool)
    requires st.setting.Some?
    ensures Enabled(st, SetReported(ok))
    ensures var t, slot := Next(st, SetReported(ok)), st.setting.value;
      && t.setting == None && t.node == st.node && t.table == st.table && t.op == st.op
      && t.pending == (if ok then st.pending + multiset{slot} else st.pending)
      && forall k: nat :: t.lost(k) <==> st.lost(k) || (!ok && k == slot)
  {
  }

  /** Other callers may record channels at any time; the tracker's lock admits one job, of a resync that waits. */
  lemma JobsAreTakenUp(st: State, now: int, name: string, secret: Secret, slot: nat)
    ensures Enabled(st, Record(now, name, secret))
    ensures Next(st, Record(now, name, secret)) == st.(table := Upsert(st.table, now, name, secret))
    ensures Enabled(st, BeginResync(slot)) <==> st.op == Idle && st.pending[slot] > 0
    ensures Enabled(st, BeginResync(slot)) ==>
              Next(st, BeginResync(slot)) ==
              st.(op := OnSlot(Resync, slot, Asking), pending := st.pending - multiset{slot})
    ensures Enabled(st, BeginRefresh) <==> st.op == Idle
    ensures Enabled(st, BeginRefresh) ==> Next(st, BeginRefresh) == st.(op := Querying)
  {
  }

  /** Each slot at hand is asked for once, while no SET_CHANNEL is between the node and its report. */
  lemma AnswersComeOnce(st: State)
    ensures Enabled(st, Answered) <==> st.op.OnSlot? && st.op.progress == Asking && st.setting == None
    ensures Enabled(st, Answered) ==>
              Next(st, Answered).op ==
              st.op.(progress := Got(if st.op.slot < |st.node| then st.node[st.op.slot] else ErrorReply))
    ensures Enabled(st, Erred) <==> Enabled(st, Answered)
    ensures Enabled(st, Erred) ==> Next(st, Erred).op == st.op.(progress := Got(ErrorReply))
  {
  }

  /** A device query begins a refresh with as many slots as it reported. */
  lemma QueryBegins(st: State, max: nat)
    requires st.op == Querying
    ensures Enabled(st, Queried(max))
    ensures var t := Next(st, Queried(max));
      && t.table == st.table && t.node == st.node && t.pending == st.pending
      && (if max == 0 then t.op.Finishing? && t.op.max == 0
          else t.op.OnSlot? && t.op.job.Refresh? && t.op.job.max == max && t.op.slot == 0 && t.op.progress == Asking)
      && forall k: nat :: t.lost(k) <==> st.lost(k) || (max < |st.node| && k >= max)
  {
  }

  // ---------------------------------------------------------------- the invariant

  /** Someone still owes the slot a read, or it may have changed unnoticed. */
  ghost predicate Owed(st: State, k: nat) {
    st.lost(k) || k in st.pending || st.setting == Some(k)
  }

  ghost predicate Outstanding(st: State, k: nat) {
    Owed(st, k) || (st.op.OnSlot? && st.op.slot == k)
  }

  /** The table is right about a slot, or it shows an occupied slot empty because that was robbed. */
  ghost predicate SlotSound(st: State, k: nat) {
    if st.robbed(k) then SecretAt(st.node, k).Some? && forall s :: !Holds(st.table, k, s)
    else AgreesAt(st.table, st.node, k)
  }

  ghost predicate QuietSlotsSound(st: State) {
    forall k: nat :: !Outstanding(st, k) ==> SlotSound(st, k)
  }

  /** The secret that the answer in flight says the slot holds. */
  function Carried(p: Progress): Option<Secret> {
    match p
    case Asking => None
    case Got(r) => if Vacant(r) then None else Some(r.secret)
    case Upserted(s, _) => Some(s)
    case Evicted(s, _) => Some(s)
  }

  /** An answer in flight is still true unless its slot is owed another read. */
  ghost predicate FlightSound(st: State) {
    st.op.OnSlot? && !st.op.progress.Asking? ==>
      var slot, c := st.op.slot, Carried(st.op.progress);
      !st.robbed(slot) && (!Owed(st, slot) ==> SecretAt(st.node, slot) == c)
  }

  ghost predicate AssignSound(st: State) {
    st.op.OnSlot? ==>
      match st.op.progress
      case Upserted(s, id) => s in st.table && st.table[s].id == id
      case Evicted(s, id) =>
        && s in st.table && st.table[s].id == id
        && forall s' :: Holds(st.table, st.op.slot, s') ==> s' == s
      case _ => true
  }

  /** A refresh counted the node's slots rightly, or the slots beyond its count are `lost`. */
  ghost predicate CountSound(st: State) {
    match st.op
    case OnSlot(Refresh(max, current), slot, _) => slot < max && BeyondSound(st, max, current)
    case Finishing(max, current) => BeyondSound(st, max, current)
    case _ => true
  }

  ghost predicate BeyondSound(st: State, max: nat, current: bool) {
    if current then max >= |st.node| else forall k: nat :: k >= max ==> st.lost(k)
  }

  ghost predicate Inv(st: State) {
    && Valid(st.table)
    && QuietSlotsSound(st)
    && FlightSound(st)
    && AssignSound(st)
    && CountSound(st)
  }

  // ---------------------------------------------------------------- each step keeps it

  /** A slot that is quiet now was quiet before, and nothing about it changed. */
  ghost predicate Untouched(st: State, t: State, k: nat) {
    && !Outstanding(st, k)
    && SecretAt(t.node, k) == SecretAt(st.node, k)
    && t.robbed(k) == st.robbed(k)
    && forall s :: Holds(t.table, k, s) <==> Holds(st.table, k, s)
  }

  lemma QuietSlotsStay(st: State, t: State)
    requires QuietSlotsSound(st)
    requires forall k: nat :: !Outstanding(t, k) ==> Untouched(st, t, k) || SlotSound(t, k)
    ensures QuietSlotsSound(t)
  {
    hide Holds, SecretAt, Outstanding;
  }

  lemma ChangeKeepsInv(st: State, step: Step)
    requires Inv(st) && Enabled(st, step) && (step.SetApplied? || step.Changed?)
    ensures Inv(Next(st, step))
  {
    hide Valid, Holds, SecretAt;
    OtherSlotsKept(st.node, step.slot, step.reply);
    QuietSlotsStay(st, Next(st, step));
  }

  lemma NodeStepKeepsInv(st: State, step: Step)
    requires Inv(st) && Enabled(st, step) && (step.SetReported? || step.Replaced?)
    ensures Inv(Next(st, step))
  {
    hide Valid, Holds, SecretAt;
    QuietSlotsStay(st, Next(st, step));
  }

  lemma OtherSlotsKept(node: seq<Reply>, slot: nat, reply: Reply)
    requires slot < |node|
    ensures forall k: nat :: k != slot ==> SecretAt(node[slot := reply], k) == SecretAt(node, k)
  {
  }

  lemma LockStepKeepsInv(st: State, step: Step)
    requires Inv(st) && Enabled(st, step)
    requires step.BeginResync? || step.BeginRefresh? || step.Queried? || step.Erred? || step.Failed?
    ensures Inv(Next(st, step))
  {
    hide Valid, Holds, SecretAt;
    QuietSlotsStay(st, Next(st, step));
  }

  lemma UpsertKeepsIds(t: Table, now: int, name: string, secret: Secret)
    ensures var t' := Upsert(t, now, name, secret);
      secret in t' && forall s :: s in t ==> s in t' && t'[s].id == t[s].id
  {
  }

  lemma NothingBeyondTheNode(node: seq<Reply>)
    ensures forall k: nat :: k >= |node| ==> SecretAt(node, k) == None
  {
  }

  lemma RecordKeepsInv(st: State, now: int, name: string, secret: Secret)
    requires Inv(st)
    ensures Inv(Next(st, Record(now, name, secret)))
  {
    hide Valid, Holds, SecretAt, Upsert;
    UpsertKeepsValid(st.table, now, name, secret);
    UpsertKeepsIds(st.table, now, name, secret);
    QuietSlotsStay(st, Next(st, Record(now, name, secret)));
  }

  lemma AnsweredKeepsInv(st: State)
    requires Inv(st) && Enabled(st, Answered)
    ensures Inv(Next(st, Answered))
  {
    assert SecretAt(st.node, st.op.slot) == Carried(Next(st, Answered).op.progress);
    hide Valid, Holds, SecretAt;
    QuietSlotsStay(st, Next(st, Answered));
  }

  lemma FinishKeepsInv(st: State)
    requires Inv(st) && Enabled(st, Finish)
    ensures Inv(Next(st, Finish))
  {
    hide Valid, Holds, ClearSlotsFrom, SecretAt, SameButSlots;
    ClearFromKeepsValid(st.table, st.op.max);
    NothingBeyondTheNode(st.node);
    QuietSlotsStay(st, Next(st, Finish));
  }

  lemma ClearKeepsInv(st: State, now: int)
    requires Inv(st) && Enabled(st, Write(now)) && st.op.progress.Got? && Vacant(st.op.progress.reply)
    ensures Inv(Next(st, Write(now)))
  {
    hide Valid, Holds, ClearSlot, SecretAt, SameButSlots;
    ClearKeepsValid(st.table, st.op.slot);
    QuietSlotsStay(st, Next(st, Write(now)));
  }

  lemma UpsertKeepsInv(st: State, now: int)
    requires Inv(st) && Enabled(st, Write(now)) && st.op.progress.Got? && !Vacant(st.op.progress.reply)
    ensures Inv(Next(st, Write(now)))
  {
    var r := st.op.progress.reply;
    hide Valid, Holds, SecretAt, Upsert;
    UpsertKeepsValid(st.table, now, r.name, r.secret);
    UpsertKeepsIds(st.table, now, r.name, r.secret);
    QuietSlotsStay(st, Next(st, Write(now)));
  }

  lemma EvictKeepsInv(st: State, now: int)
    requires Inv(st) && Enabled(st, Write(now)) && st.op.progress.Upserted?
    ensures Inv(Next(st, Write(now)))
  {
    hide Valid, Holds, SecretAt, EvictOthers;
    EvictKeepsValid(st.table, st.op.slot, st.op.progress.secret);
    QuietSlotsStay(st, Next(st, Write(now)));
  }

  lemma PlaceKeepsInv(st: State, now: int)
    requires Inv(st) && Enabled(st, Write(now)) && st.op.progress.Evicted?
    ensures Inv(Next(st, Write(now)))
  {
    hide Valid, SecretAt, SetSlot, SameButSlots;
    SetSlotSucceeds(st.table, st.op.slot, st.op.progress.secret);
    hide Holds;
    var t, slot, s := Next(st, Write(now)), st.op.slot, st.op.progress.secret;
    assert !Owed(st, slot) ==> SecretAt(t.node, slot) == Some(s);
    assert forall s' :: Holds(t.table, slot, s') <==> s' == s;
    assert forall k: nat :: Owed(t, k) == Owed(st, k);
    forall k: nat | !Outstanding(t, k)
      ensures Untouched(st, t, k) || SlotSound(t, k)
    {
      if k == slot {
        assert AgreesAt(t.table, t.node, k);
      } else if Holds(st.table, k, s) {
        assert SlotSound(st, k);
        assert t.robbed(k);
      } else {
        assert Untouched(st, t, k);
      }
    }
    QuietSlotsStay(st, t);
  }

  /** Every step keeps the invariant, whatever the node does. */
  lemma StepKeepsInv(st: State, step: Step)
    requires Inv(st) && Enabled(st, step)
    ensures Inv(Next(st, step))
  {
    hide Inv, Next;
    match step {
      case SetApplied(_, _) | Changed(_, _) => ChangeKeepsInv(st, step);
      case SetReported(_) | Replaced(_) => NodeStepKeepsInv(st, step);
      case Record(now, name, secret) => RecordKeepsInv(st, now, name, secret);
      case BeginResync(_) | BeginRefresh | Queried(_) | Erred | Failed => LockStepKeepsInv(st, step);
      case Answered => AnsweredKeepsInv(st);
      case Finish => FinishKeepsInv(st);
      case Write(now) =>
        match st.op.progress {
          case Got(r) => if Vacant(r) { ClearKeepsInv(st, now); } else { UpsertKeepsInv(st, now); }
          case Upserted(_, _) => EvictKeepsInv(st, now);
          case Evicted(_, _) => PlaceKeepsInv(st, now);
        }
    }
  }

  // ---------------------------------------------------------------- every run

  /** A daemon that knows nothing about the node yet. */
  ghost predicate Start(st: State) {
    && Valid(st.table) && st.pending == multiset{} && st.setting.None? && st.op.Idle?
    && forall k: nat :: st.lost(k)
  }

  ghost predicate Reaches(st: State, steps: seq<Step>, end: State)
    decreases |steps|
  {
    if steps == [] then st == end
    else Enabled(st, steps[0]) && Reaches(Next(st, steps[0]), steps[1..], end)
  }

  lemma {:induction false} RunKeepsInv(st: State, steps: seq<Step>, end: State)
    requires Inv(st) && Reaches(st, steps, end)
    ensures Inv(end)
    decreases |steps|
  {
    hide Inv, Next;
    if steps != [] {
      StepKeepsInv(st, steps[0]);
      RunKeepsInv(Next(st, steps[0]), steps[1..], end);
    }
  }

  lemma StartIsSound(st: State)
    requires Start(st)
    ensures Inv(st)
  {
  }

  /**
   In every interleaving, whatever the node does: the table agrees with the node about a slot with
   nothing outstanding if and only if the slot was not robbed; and no constraint has been broken.
   */
  lemma QuietSlotAgreesExactlyWhen(st: State, steps: seq<Step>, end: State, k: nat)
    requires Start(st) && Reaches(st, steps, end) && !Outstanding(end, k)
    ensures Valid(end.table) && (AgreesAt(end.table, end.node, k) <==> !end.robbed(k))
  {
    StartIsSound(st);
    RunKeepsInv(st, steps, end);
    QuietSlotMeaning(end, k);
  }

  lemma QuietSlotMeaning(st: State, k: nat)
    requires Inv(st) && !Outstanding(st, k)
    ensures AgreesAt(st.table, st.node, k) <==> !st.robbed(k)
    ensures forall s :: Holds(st.table, k, s) <==> SecretAt(st.node, k) == Some(s) && !st.robbed(k)
  {
    assert SlotSound(st, k);
  }

  ghost predicate Settled(st: State) {
    st.op.Idle? && st.pending == multiset{} && st.setting.None? && forall k: nat :: !st.lost(k)
  }

  /** With nothing outstanding the table's slots are the node's slots, without the robbed ones. */
  lemma SettledTableIsTheNode(st: State, steps: seq<Step>, end: State)
    requires Start(st) && Reaches(st, steps, end) && Settled(end)
    ensures forall k: nat, s :: Holds(end.table, k, s) <==> SecretAt(end.node, k) == Some(s) && !end.robbed(k)
    ensures (forall k: nat :: AgreesAt(end.table, end.node, k)) <==> forall k: nat :: !end.robbed(k)
  {
    StartIsSound(st);
    RunKeepsInv(st, steps, end);
    hide Inv, Holds, SecretAt, AgreesAt, Start, Reaches;
    forall k: nat
      ensures AgreesAt(end.table, end.node, k) <==> !end.robbed(k)
      ensures forall s :: Holds(end.table, k, s) <==> SecretAt(end.node, k) == Some(s) && !end.robbed(k)
    {
      QuietSlotMeaning(end, k);
    }
  }

  /**
   Whatever the node does, duplicates included: in no reachable state has a constraint been broken,
   or does the last statement of `assign_slot` meet UNIQUE(slot).
   */
  lemma AssignNeverFails(st: State, steps: seq<Step>, end: State)
    requires Start(st) && Reaches(st, steps, end)
    ensures Valid(end.table)
    ensures end.op.OnSlot? && end.op.progress.Evicted? ==> SetSlot(end.table, end.op.slot, end.op.progress.id).Ok?
  {
    hide Valid, Holds, Reaches, SetSlot, QuietSlotsSound;
    StartIsSound(st);
    RunKeepsInv(st, steps, end);
    if end.op.OnSlot? && end.op.progress.Evicted? {
      SetSlotSucceeds(end.table, end.op.slot, end.op.progress.secret);
    }
  }
}
