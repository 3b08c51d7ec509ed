/**
 The attribution columns of the `messages` table (`MessageStore` in storage/repositories.py) under
 the backfill (channel_backfill.py, `ChannelBackfill.run`): what one run does to every row, what a
 second run can still change, and the life of an attribution over every history.
 */
module Attribution {
  import opened Bytes
  import GroupText
  import ChannelTable
  import PacketLog
  import PacketRetention
  import opened Backfill

  /** A row of `messages`; `onChannel` is scope = 'channel'. */
  datatype Message = Message(
    id: nat,
    ts: int,
    onChannel: bool,
    channelIdx: Option<int>,
    senderTimestamp: Option<nat>,
    text: string,
    channel: Option<int>,
    source: Option<Source>)

  /** A message that is about to be stored. */
  datatype Draft = Draft(ts: int, onChannel: bool, channelIdx: Option<int>, senderTimestamp: Option<nat>, text: string)

  /** Rows are kept in id order. */
  ghost predicate Ascending(rows: seq<Message>) {
    forall i, j :: 0 <= i < j < |rows| ==> rows[i].id < rows[j].id
  }

  /** channel_id is NULL exactly when channel_source is. */
  predicate Paired(r: Message) {
    r.channel.None? <==> r.source.None?
  }

  ghost predicate Valid(rows: seq<Message>) {
    Ascending(rows) && forall r :: r in rows ==> Paired(r)
  }

  // ---------------------------------------------------------------- the statements

  /** INTEGER PRIMARY KEY without AUTOINCREMENT: one more than the greatest id in use. */
  function NextId(rows: seq<Message>): nat {
    if rows == [] then 1 else rows[|rows| - 1].id + 1
  }

  /** The row that `add` inserts; `holder` is the id of the channel now in the message's slot. */
  function Arrival(id: nat, d: Draft, holder: Option<int>): Message {
    var channel := if d.onChannel && d.channelIdx.Some? then holder else None;
    Message(id, d.ts, d.onChannel, d.channelIdx, d.senderTimestamp, d.text, channel,
            if channel.Some? then Some(Slot) else None)
  }

  /** The row has the message's own columns. */
  ghost predicate Records(r: Message, id: nat, d: Draft) {
    && r.id == id && r.ts == d.ts && r.onChannel == d.onChannel && r.channelIdx == d.channelIdx
    && r.senderTimestamp == d.senderTimestamp && r.text == d.text
  }

  /** A channel message from a slot that a channel holds belongs to that channel, 'slot'; others to none. */
  ghost predicate Credits(r: Message, d: Draft, holder: Option<int>) {
    if d.onChannel && d.channelIdx.Some? && holder.Some? then r.channel == holder && r.source == Some(Slot)
    else r.channel == None && r.source == None
  }

  lemma ArrivalMeaning(id: nat, d: Draft, holder: Option<int>)
    ensures Records(Arrival(id, d, holder), id, d) && Credits(Arrival(id, d, holder), d, holder)
  {
  }

  predicate InSlot(row: ChannelTable.Row, idx: int) {
    row.slot.Some? && row.slot.value == idx
  }

  /** What SELECT id FROM channels WHERE slot = ? gives: the id of a row in the slot, if there is one. */
  ghost predicate HeldBy(channels: ChannelTable.Table, idx: int, holder: Option<int>) {
    match holder
    case Some(id) => idx >= 0 && exists s :: ChannelTable.Holds(channels, idx, s) && channels[s].id == id
    case None => idx >= 0 ==> forall s :: !ChannelTable.Holds(channels, idx, s)
  }

  function Added(rows: seq<Message>, d: Draft, holder: Option<int>): seq<Message> {
    rows + [Arrival(NextId(rows), d, holder)]
  }

  /** DELETE ... WHERE ts < ? */
  function Kept(rows: seq<Message>, cutoff: int): seq<Message> {
    if rows == [] then []
    else Kept(rows[..|rows| - 1], cutoff) + (if rows[|rows| - 1].ts < cutoff then [] else [rows[|rows| - 1]])
  }

  function TargetOf(r: Message): Target {
    Target(r.id, r.ts, r.channelIdx, r.senderTimestamp, r.text)
  }

  predicate Candidate(r: Message, includeInferred: bool) {
    r.onChannel && (r.source.None? || (includeInferred && r.source == Some(Inferred)))
  }

  /** `channel_backfill_candidates` */
  function Pending(rows: seq<Message>, includeInferred: bool): seq<Target> {
    if rows == [] then []
    else
      var last := rows[|rows| - 1];
      Pending(rows[..|rows| - 1], includeInferred) + if Candidate(last, includeInferred) then [TargetOf(last)] else []
  }

  /** UPDATE ... SET channel_id = ?, channel_source = ? WHERE id = ?, on one row. */
  function Assign(r: Message, u: Update): Message {
    if r.id == u.id then r.(channel := Some(u.channel), source := Some(u.source)) else r
  }

  function AssignAll(r: Message, updates: seq<Update>): Message {
    if updates == [] then r
    else Assign(AssignAll(r, updates[..|updates| - 1]), updates[|updates| - 1])
  }

  function Reassigned(rows: seq<Message>, updates: seq<Update>): seq<Message> {
    seq(|rows|, i requires 0 <= i < |rows| => AssignAll(rows[i], updates))
  }

  class MessageStore {
    var rows: seq<Message>

    constructor ()
      ensures rows == []
    {
      rows := [];
    }

    /** `channels` is the channel table as the SELECT finds it. */
    method Add(d: Draft, channels: ChannelTable.Table) returns (id: nat, ghost holder: Option<int>)
      requires Valid(rows)
      modifies this
      ensures Valid(rows) && id == NextId(old(rows))
      ensures d.onChannel && d.channelIdx.Some? ==> HeldBy(channels, d.channelIdx.value, holder)
      ensures rows == Added(old(rows), d, holder)
      ensures id == if old(rows) == [] then 1 else old(rows)[|old(rows)| - 1].id + 1
      ensures |rows| == |old(rows)| + 1 && rows[..|old(rows)|] == old(rows)
      ensures Records(rows[|old(rows)|], id, d) && Credits(rows[|old(rows)|], d, holder)
    {
      var row: Option<int> := None;
      if d.onChannel && d.channelIdx.Some?
        && exists s :: s in channels && InSlot(channels[s], d.channelIdx.value)
      {
        var s :| s in channels && InSlot(channels[s], d.channelIdx.value);
        row := Some(channels[s].id);
      }
      holder := row;
      id := InsertRow(d, row);
    }

    method InsertRow(d: Draft, holder: Option<int>) returns (id: nat)
      requires Valid(rows)
      modifies this
      ensures Valid(rows) && id == NextId(old(rows))
      ensures rows == Added(old(rows), d, holder)
    {
      id := NextId(rows);
      AddKeepsValid(rows, d, holder);
      rows := rows + [Arrival(id, d, holder)];
    }

    method ChannelBackfillCandidates(includeInferred: bool) returns (targets: seq<Target>)
      ensures targets == Pending(rows, includeInferred)
      ensures Ascending(rows) ==>
        forall t :: t in targets <==> exists r :: r in rows && Backfillable(r, includeInferred, t)
    {
      if Ascending(rows) {
        PendingByColumns(rows, includeInferred);
      }
      targets := [];
      for i := 0 to |rows|
        invariant targets == Pending(rows[..i], includeInferred)
      {
        assert rows[..i + 1][..i] == rows[..i];
        if Candidate(rows[i], includeInferred) {
          targets := targets + [TargetOf(rows[i])];
        }
      }
      assert rows[..|rows|] == rows;
    }

    method SetChannels(updates: seq<Update>)
      requires Valid(rows)
      modifies this
      ensures Valid(rows) && rows == Reassigned(old(rows), updates)
    {
      ghost var before := rows;
      for k := 0 to |updates|
        invariant rows == Reassigned(before, updates[..k])
      {
        assert updates[..k + 1][..k] == updates[..k];
        var was := rows;
        rows := seq(|was|, i requires 0 <= i < |was| => Assign(was[i], updates[k]));
      }
      assert updates[..|updates|] == updates;
      ReassignedKeepsValid(before, updates);
    }

    method Prune(cutoff: int) returns (deleted: nat)
      requires Valid(rows)
      modifies this
      ensures Valid(rows) && rows == Kept(old(rows), cutoff) && deleted == |old(rows)| - |rows|
    {
      KeptMeaning(rows, cutoff);
      deleted := |rows| - |Kept(rows, cutoff)|;
      rows := Kept(rows, cutoff);
    }
  }

  // ---------------------------------------------------------------- what they keep

  lemma AddKeepsValid(rows: seq<Message>, d: Draft, holder: Option<int>)
    requires Valid(rows)
    ensures Valid(Added(rows, d, holder))
  {
  }

  lemma {:induction false} KeptMeaning(rows: seq<Message>, cutoff: int)
    requires Valid(rows)
    ensures Valid(Kept(rows, cutoff)) && |Kept(rows, cutoff)| <= |rows|
    ensures forall r :: r in Kept(rows, cutoff) <==> r in rows && r.ts >= cutoff
  {
    if rows != [] {
      var before, last := rows[..|rows| - 1], rows[|rows| - 1];
      assert rows == before + [last];
      KeptMeaning(before, cutoff);
    }
  }

  lemma {:induction false} AssignAllKeeps(r: Message, updates: seq<Update>)
    ensures AssignAll(r, updates)
         == r.(channel := AssignAll(r, updates).channel, source := AssignAll(r, updates).source)
    ensures Paired(r) ==> Paired(AssignAll(r, updates))
  {
    if updates != [] {
      AssignAllKeeps(r, updates[..|updates| - 1]);
    }
  }

  lemma ReassignedKeepsValid(rows: seq<Message>, updates: seq<Update>)
    requires Valid(rows)
    ensures Valid(Reassigned(rows, updates))
  {
    hide AssignAll;
    forall i | 0 <= i < |rows|
      ensures AssignAll(rows[i], updates).id == rows[i].id && Paired(AssignAll(rows[i], updates))
    {
      AssignAllKeeps(rows[i], updates);
    }
  }

  // ---------------------------------------------------------------- the candidates of a run

  ghost predicate Distinct(targets: seq<Target>) {
    forall i, j :: 0 <= i < j < |targets| ==> targets[i].id < targets[j].id
  }

  lemma {:induction false} PendingMeaning(rows: seq<Message>, includeInferred: bool)
    requires Ascending(rows)
    ensures Distinct(Pending(rows, includeInferred))
    ensures forall t :: t in Pending(rows, includeInferred) <==>
              exists r :: r in rows && Candidate(r, includeInferred) && TargetOf(r) == t
  {
    hide Candidate;
    if rows != [] {
      var before, last := rows[..|rows| - 1], rows[|rows| - 1];
      assert rows == before + [last];
      PendingMeaning(before, includeInferred);
      forall t | t in Pending(before, includeInferred)
        ensures t.id < last.id
      {
        var r :| r in before && TargetOf(r) == t;
      }
    }
  }

  /** WHERE scope = 'channel' AND (source IS NULL OR, if asked for, 'inferred'), with the columns selected. */
  ghost predicate Backfillable(r: Message, includeInferred: bool, t: Target) {
    && r.onChannel
    && (r.source == None || (includeInferred && r.source == Some(Inferred)))
    && t.id == r.id && t.ts == r.ts && t.channelIdx == r.channelIdx
    && t.senderTimestamp == r.senderTimestamp && t.text == r.text
  }

  lemma PendingByColumns(rows: seq<Message>, includeInferred: bool)
    requires Ascending(rows)
    ensures forall t :: t in Pending(rows, includeInferred) <==>
              exists r :: r in rows && Backfillable(r, includeInferred, t)
  {
    PendingMeaning(rows, includeInferred);
    hide Pending;
    assert forall r, t :: Backfillable(r, includeInferred, t) <==> Candidate(r, includeInferred) && TargetOf(r) == t;
  }

  /** The row of an attribution after a verdict on it. */
  function Settle(r: Message, v: Verdict): Message {
    match v
    case FromPacket(c) => r.(channel := Some(c), source := Some(DecryptedPacket))
    case FromSlot(c) => r.(channel := Some(c), source := Some(Inferred))
    case Unresolved => r
  }

  lemma AssignNext(r: Message, updates: seq<Update>, v: Verdict, id: nat)
    ensures AssignAll(r, updates + UpdatesFor(v, id)) ==
            if r.id == id then Settle(AssignAll(r, updates), v) else AssignAll(r, updates)
  {
    AssignAllKeeps(r, updates);
    if !v.Unresolved? {
      var u := UpdatesFor(v, id)[0];
      assert (updates + [u])[..|updates|] == updates;
    } else {
      assert updates + [] == updates;
    }
  }

  lemma {:induction false} UpdatesSettle(channels: seq<Channel>, index: Index, targets: seq<Target>, r: Message, k: nat)
    requires Distinct(targets) && k <= |targets|
    requires forall j :: 0 <= j < k ==> targets[j].id < r.id
    requires forall j :: k <= j < |targets| ==> targets[j].id >= r.id
    ensures AssignAll(r, Updates(channels, index, targets)) ==
            if k < |targets| && targets[k].id == r.id then Settle(r, VerdictOf(channels, index, targets[k])) else r
    decreases |targets|
  {
    hide VerdictOf, Settle, UpdatesFor, AssignAll;
    if targets == [] {
      AssignNone(r);
    } else {
      var before, last := targets[..|targets| - 1], targets[|targets| - 1];
      UpdatesSettle(channels, index, before, r, if k < |targets| then k else |before|);
      AssignNext(r, Updates(channels, index, before), VerdictOf(channels, index, last), last.id);
    }
  }

  lemma AssignNone(r: Message)
    ensures AssignAll(r, []) == r
  {
  }

  // ---------------------------------------------------------------- one run

  /** What a run reads besides the messages. */
  datatype World = World(codec: Codec, channels: seq<Channel>, packets: seq<PacketLog.Packet>)

  function IndexFor(w: World, targets: seq<Target>): Index {
    WindowIndex(w.codec, w.channels, w.packets, targets)
  }

  /** The messages after a run that nothing interferes with. */
  function AfterRun(w: World, rows: seq<Message>, includeInferred: bool): seq<Message> {
    var targets := Pending(rows, includeInferred);
    if targets == [] then rows
    else Reassigned(rows, Updates(w.channels, IndexFor(w, targets), targets))
  }

  method RunAlone(store: MessageStore, w: World, includeInferred: bool) returns (tally: Tally)
    requires Valid(store.rows)
    modifies store
    ensures Valid(store.rows) && store.rows == AfterRun(w, old(store.rows), includeInferred)
    ensures tally.decrypted + tally.inferred + tally.unresolved == |Pending(old(store.rows), includeInferred)|
  {
    hide IndexOf, SecretsOf, Window, Updates, Count;
    var targets := store.ChannelBackfillCandidates(includeInferred);
    if targets == [] {
      return Tally(0, 0, 0);
    }
    var updates;
    updates, tally := Run(w.codec, w.channels, w.packets, targets);
    store.SetChannels(updates);
  }

  /** The verdict a run reaches on a row. */
  function VerdictIn(w: World, rows: seq<Message>, includeInferred: bool, r: Message): Verdict {
    VerdictOf(w.channels, IndexFor(w, Pending(rows, includeInferred)), TargetOf(r))
  }

  /** A run settles each candidate by the verdict on it and leaves every other message alone. */
  lemma RunAssigns(w: World, rows: seq<Message>, includeInferred: bool, i: nat)
    requires Ascending(rows) && i < |rows|
    ensures |AfterRun(w, rows, includeInferred)| == |rows|
    ensures !Candidate(rows[i], includeInferred) ==> AfterRun(w, rows, includeInferred)[i] == rows[i]
    ensures Candidate(rows[i], includeInferred) ==>
              AfterRun(w, rows, includeInferred)[i] == Settle(rows[i], VerdictIn(w, rows, includeInferred, rows[i]))
  {
    hide IndexFor, Updates, VerdictOf, Settle, AssignAll, Pending;
    var targets, r := Pending(rows, includeInferred), rows[i];
    PendingMeaning(rows, includeInferred);
    if targets != [] {
      var k := Position(targets, r.id);
      UpdatesSettle(w.channels, IndexFor(w, targets), targets, r, k);
      if k < |targets| && targets[k].id == r.id {
        assert targets[k] in targets;
        SameIdSameMessage(rows, r);
      }
    }
    if Candidate(r, includeInferred) {
      assert TargetOf(r) in targets;
    }
  }

  lemma SameIdSameMessage(rows: seq<Message>, r: Message)
    requires Ascending(rows) && r in rows
    ensures forall q :: q in rows && q.id == r.id ==> q == r
  {
  }

  /** Where an id is among the targets, or would be. */
  function Position(targets: seq<Target>, id: nat): (k: nat)
    requires Distinct(targets)
    ensures k <= |targets|
    ensures forall j :: 0 <= j < k ==> targets[j].id < id
    ensures forall j :: k <= j < |targets| ==> targets[j].id >= id
  {
    if targets == [] then 0
    else if targets[|targets| - 1].id < id then |targets|
    else Position(targets[..|targets| - 1], id)
  }

  // ---------------------------------------------------------------- a second run

  function MatchedIn(w: World, rows: seq<Message>, includeInferred: bool, r: Message): set<int> {
    Matched(IndexFor(w, Pending(rows, includeInferred)), TargetOf(r))
  }

  /** Fewer candidates scan no further. */
  lemma WindowShrinks(packets: seq<PacketLog.Packet>, some: seq<Target>, all: seq<Target>)
    requires some != [] && all != [] && forall t :: t in some ==> t in all
    ensures forall p :: p in Window(packets, some) ==> p in Window(packets, all)
  {
    WindowBounds(some);
    WindowBounds(all);
    hide MinTs, MaxTs;
    WindowMeaning(packets, some);
    WindowMeaning(packets, all);
    hide Window, Scanned;
    assert MinTs(all) <= MinTs(some) && MaxTs(some) <= MaxTs(all);
    forall p | p in packets && Scanned(p, MinTs(some), MaxTs(some))
      ensures Scanned(p, MinTs(all), MaxTs(all))
    {
      ScannedWidens(p, MinTs(some), MaxTs(some), MinTs(all), MaxTs(all));
    }
  }

  /** What a run reads of the packet log when its candidates were received from `low` to `high`. */
  predicate Scanned(p: PacketLog.Packet, low: int, high: int) {
    p.payloadType == Some(GRP_TXT) && p.payload.Some? && low - SCAN_BEFORE <= p.ts < high + SCAN_AFTER && p.id > 0
  }

  lemma ScannedWidens(p: PacketLog.Packet, low: int, high: int, low': int, high': int)
    requires Scanned(p, low, high) && low' <= low && high <= high'
    ensures Scanned(p, low', high')
  {
  }

  lemma WindowMeaning(packets: seq<PacketLog.Packet>, targets: seq<Target>)
    requires targets != []
    ensures forall p :: p in Window(packets, targets) <==> p in packets && Scanned(p, MinTs(targets), MaxTs(targets))
  {
    PacketRetention.SelectMeaning(packets,
      PacketRetention.Wanted(GRP_TXT, MinTs(targets) - SCAN_BEFORE, MaxTs(targets) + SCAN_AFTER, 0));
  }

  lemma MatchedShrinks(w: World, some: seq<Target>, all: seq<Target>, m: Target)
    requires forall t :: t in some ==> t in all
    ensures forall x :: x in Matched(IndexFor(w, some), m) ==> x in Matched(IndexFor(w, all), m)
  {
    if some == [] {
      return;
    }
    assert some[0] in all;
    hide Window, IndexOf, Matched, Witnesses, Decrypted, SecretsOf;
    WindowShrinks(w.packets, some, all);
    var secrets := SecretsOf(w.codec.crypto, w.channels);
    forall x | x in Matched(IndexFor(w, some), m)
      ensures x in Matched(IndexFor(w, all), m)
    {
      MatchedMeaning(w.codec, secrets, Window(w.packets, some), m, x);
      MatchedMeaning(w.codec, secrets, Window(w.packets, all), m, x);
    }
  }

  /** How a verdict can change when matched channels drop out of sight. */
  lemma DecideShrinks(slot: Option<int>, all: set<int>, some: set<int>)
    requires forall x :: x in some ==> x in all
    ensures Decide(slot, all).FromSlot? ==> Decide(slot, some) == Decide(slot, all)
    ensures Decide(slot, all).Unresolved? ==> (!Decide(slot, some).Unresolved? <==> Clears(slot, all, some))
  {
    UnresolvedWhen(slot, all);
    UnresolvedWhen(slot, some);
  }

  /** The matched channels were too many, are not any more, and leave something to go by. */
  predicate Clears(slot: Option<int>, all: set<int>, some: set<int>) {
    Several(all) && !Several(some) && (NonEmpty(some) || slot.Some?)
  }

  lemma UnresolvedWhen(slot: Option<int>, s: set<int>)
    ensures Decide(slot, s).Unresolved? <==>
              (slot.Some? ==> slot.value !in s) && (Several(s) || (slot.None? && !NonEmpty(s)))
  {
    if NonEmpty(s) && !Singleton(s) {
      TwoOf(s);
    }
  }

  lemma CandidatesShrink(w: World, rows: seq<Message>, first: bool, second: bool)
    requires Valid(rows) && (first || !second)
    ensures forall t :: t in Pending(AfterRun(w, rows, first), second) ==> t in Pending(rows, first)
    ensures Valid(AfterRun(w, rows, first))
  {
    hide Pending, Updates, IndexFor, Settle, VerdictIn;
    var once := AfterRun(w, rows, first);
    if Pending(rows, first) != [] {
      ReassignedKeepsValid(rows, Updates(w.channels, IndexFor(w, Pending(rows, first)), Pending(rows, first)));
    }
    PendingMeaning(once, second);
    PendingMeaning(rows, first);
    hide AfterRun;
    forall t | t in Pending(once, second)
      ensures t in Pending(rows, first)
    {
      var r :| r in once && Candidate(r, second) && TargetOf(r) == t;
      var i :| 0 <= i < |once| && once[i] == r;
      RunAssigns(w, rows, first, i);
      SettleKeeps(rows[i], VerdictIn(w, rows, first, rows[i]), second);
      assert rows[i] in rows && Candidate(rows[i], first) && TargetOf(rows[i]) == t;
    }
  }

  lemma SettleKeeps(r: Message, v: Verdict, includeInferred: bool)
    ensures TargetOf(Settle(r, v)) == TargetOf(r)
    ensures Candidate(Settle(r, v), includeInferred) ==>
              (v.Unresolved? && Candidate(r, includeInferred)) || (v.FromSlot? && includeInferred)
  {
  }

  /**
   A second run over the same channels and packets, though its window may have shrunk, changes no
   attribution that the first one made: all it can change are messages that the first run left
   unresolved among several channels, of which the shrunk window no longer shows several.
   */
  lemma SecondRunKeepsTheFirst(w: World, rows: seq<Message>, first: bool, second: bool, i: nat)
    requires Valid(rows) && i < |rows| && (first || !second)
    ensures
      var once := AfterRun(w, rows, first);
      var twice := AfterRun(w, once, second);
      && |once| == |twice| == |rows|
      && (twice[i] != once[i] ==>
            && Candidate(rows[i], first)
            && VerdictIn(w, rows, first, rows[i]).Unresolved? && once[i] == rows[i]
            && Clears(SlotChannel(w.channels, rows[i].channelIdx), MatchedIn(w, rows, first, rows[i]),
                      MatchedIn(w, once, second, rows[i])))
  {
    hide Pending, IndexFor, AfterRun, Matched, Clears, Decide, SlotChannel, Valid;
    var once, r := AfterRun(w, rows, first), rows[i];
    CandidatesShrink(w, rows, first, second);
    ValidAscends(rows);
    ValidAscends(once);
    RunAssigns(w, rows, first, i);
    RunAssigns(w, once, second, i);
    SettleKeeps(r, VerdictIn(w, rows, first, r), second);
    MatchedShrinks(w, Pending(once, second), Pending(rows, first), TargetOf(r));
    DecideShrinks(SlotChannel(w.channels, r.channelIdx), MatchedIn(w, rows, first, r), MatchedIn(w, once, second, r));
  }

  /** And of the messages without any attribution yet, it does change exactly those. */
  lemma SecondRunResolvesExactlyWhen(w: World, rows: seq<Message>, first: bool, second: bool, i: nat)
    requires Valid(rows) && i < |rows| && (first || !second)
    requires Candidate(rows[i], false) && VerdictIn(w, rows, first, rows[i]).Unresolved?
    ensures
      var once := AfterRun(w, rows, first);
      var twice := AfterRun(w, once, second);
      && |once| == |twice| == |rows| && once[i] == rows[i]
      && (twice[i] != once[i] <==>
            Clears(SlotChannel(w.channels, rows[i].channelIdx), MatchedIn(w, rows, first, rows[i]),
                   MatchedIn(w, once, second, rows[i])))
  {
    hide Pending, IndexFor, AfterRun, Matched, Clears, Decide, SlotChannel, Valid;
    var once, r := AfterRun(w, rows, first), rows[i];
    CandidatesShrink(w, rows, first, second);
    ValidAscends(rows);
    ValidAscends(once);
    RunAssigns(w, rows, first, i);
    RunAssigns(w, once, second, i);
    MatchedShrinks(w, Pending(once, second), Pending(rows, first), TargetOf(r));
    DecideShrinks(SlotChannel(w.channels, r.channelIdx), MatchedIn(w, rows, first, r), MatchedIn(w, once, second, r));
  }

  lemma ValidAscends(rows: seq<Message>)
    requires Valid(rows)
    ensures Ascending(rows)
  {
  }

  // ---------------------------------------------------------------- a second run that does change something

  /** Two channels, whose secrets are their MACs; every packet says "hi", stamped 7. */
  function Sample(): World {
    var crypto := GroupText.Crypto(_ => 0, (k, _) => if |k| == 2 then k else [0, 0], (_, x) => x, (_, x) => x,
                                   _ => "hi");
    World(Codec(crypto, x => x),
          [Channel(1, [1, 1], Some(0)), Channel(2, [2, 2], None)],
          [Heard(1, 100, 1), Heard(2, 200000, 2)])
  }

  /** A packet received at `ts` under channel `tag`'s secret. */
  function Heard(id: nat, ts: int, tag: byte): PacketLog.Packet {
    var zero: byte := 0;
    PacketLog.Packet(id, ts, None, None, Some(GRP_TXT), None, 19,
      Some([0, tag, tag] + [7] + GroupText.Repeat(15, zero)))
  }

  /** A message from slot 0 that no packet matches, and a much later one that both packets match. */
  function SampleRows(): seq<Message> {
    [Message(1, 0, true, Some(0), Some(9), "old", None, None),
     Message(2, 200000, true, None, Some(7), "hi", None, None)]
  }

  function SampleKeys(): seq<GroupText.Keyed> {
    [GroupText.Keyed(1, [1, 1]), GroupText.Keyed(2, [2, 2])]
  }

  lemma SampleSecrets()
    ensures SecretsOf(Sample().codec.crypto, Sample().channels) == map[0 := SampleKeys()]
  {
    var c, channels := Sample().codec.crypto, Sample().channels;
    var one, keys := [Channel(1, [1, 1], Some(0))], SampleKeys();
    assert channels[..1] == one && one[..0] == [];
    assert SecretsOf(c, one) == Append(map[], 0, keys[0]) == map[0 := [] + [keys[0]]];
    var m := SecretsOf(c, one);
    assert SecretsOf(c, channels) == Append(m, 0, keys[1]);
    assert m[0] + [keys[1]] == keys;
  }

  lemma HeardDecrypts(id: nat, ts: int, tag: byte)
    requires tag == 1 || tag == 2
    ensures var w := Sample();
      Decrypted(w.codec, SecretsOf(w.codec.crypto, w.channels), Heard(id, ts, tag))
      == Some(GroupText.Found(tag as int, 7, "hi"))
  {
    var w, zero: byte := Sample(), 0;
    var c, body := w.codec.crypto, Heard(id, ts, tag).payload.value;
    GroupText.RepeatLength(15, zero);
    SampleSecrets();
    hide SecretsOf, GroupText.TrimLeft, GroupText.TrimRight;
    var keys := SampleKeys();
    assert body[1..3] == [tag, tag];
    assert body[3..] == [7] + GroupText.Repeat(15, zero);
    assert body[3..][..4] == [7, 0, 0, 0];
    assert GroupText.Search(c, body, keys, tag as int - 1) == GroupText.Read(c, body, keys[tag as int - 1]);
  }

  lemma HeardWitnesses(id: nat, ts: int, tag: byte, m: Target)
    requires (tag == 1 || tag == 2) && m.senderTimestamp.Some? && m.senderTimestamp.value != 0
    ensures var w := Sample();
      Witnesses(w.codec, SecretsOf(w.codec.crypto, w.channels), Heard(id, ts, tag), m)
      <==> Key(m) == "hi" && m.senderTimestamp == Some(7)
  {
    hide Decrypted, SecretsOf, Key;
    HeardDecrypts(id, ts, tag);
    assert "hi"[1..] == "i";
  }

  /** What the sample's packets say about a message, whatever the candidates. */
  lemma SampleMatched(targets: seq<Target>, m: Target, x: int)
    requires targets != [] && m.senderTimestamp.Some? && m.senderTimestamp.value != 0
    ensures x in Matched(IndexFor(Sample(), targets), m) <==>
              && Key(m) == "hi" && m.senderTimestamp == Some(7)
              && ((x == 1 && MinTs(targets) - SCAN_BEFORE <= 100 < MaxTs(targets) + SCAN_AFTER)
                  || (x == 2 && MinTs(targets) - SCAN_BEFORE <= 200000 < MaxTs(targets) + SCAN_AFTER))
  {
    hide Decrypted, SecretsOf, IndexOf, Window, Matched, MinTs, MaxTs, Key, Witnesses;
    var w := Sample();
    var secrets, window := SecretsOf(w.codec.crypto, w.channels), Window(w.packets, targets);
    MatchedMeaning(w.codec, secrets, window, m, x);
    WindowMeaning(w.packets, targets);
    HeardDecrypts(1, 100, 1);
    HeardDecrypts(2, 200000, 2);
    HeardWitnesses(1, 100, 1, m);
    HeardWitnesses(2, 200000, 2, m);
    assert w.packets[0] in w.packets && w.packets[1] in w.packets;
  }

  lemma SampleVerdicts(t1: Target, t2: Target)
    requires t1 == TargetOf(SampleRows()[0]) && t2 == TargetOf(SampleRows()[1])
    ensures VerdictOf(Sample().channels, IndexFor(Sample(), [t1, t2]), t1) == FromSlot(1)
    ensures VerdictOf(Sample().channels, IndexFor(Sample(), [t1, t2]), t2) == Unresolved
    ensures VerdictOf(Sample().channels, IndexFor(Sample(), [t2]), t2) == FromPacket(2)
  {
    hide IndexFor, Matched;
    var all, some := [t1, t2], [t2];
    assert all[1..] == some;
    assert MinTs(all) == 0 && MaxTs(all) == 200000 && MinTs(some) == 200000 && MaxTs(some) == 200000;
    SampleMatched(all, t2, 1);
    SampleMatched(all, t2, 2);
    forall x
      ensures x !in Matched(IndexFor(Sample(), all), t1)
      ensures x in Matched(IndexFor(Sample(), some), t2) <==> x == 2
    {
      SampleMatched(all, t1, x);
      SampleMatched(some, t2, x);
    }
    assert Sample().channels[..1] == [Sample().channels[0]];
    assert 2 in Matched(IndexFor(Sample(), some), t2);
    assert TheOne(Matched(IndexFor(Sample(), some), t2)) == 2;
  }

  lemma SampleIsLawful()
    ensures GroupText.Lawful(Sample().codec.crypto)
  {
  }

  /**
   The first run leaves the later message open between the two channels; the second, looking less
   far back, settles it.
   */
  lemma SecondRunMayResolve()
    ensures
      var w, rows := Sample(), SampleRows();
      var once := AfterRun(w, rows, false);
      && GroupText.Lawful(w.codec.crypto) && Valid(rows)
      && once == [rows[0].(channel := Some(1), source := Some(Inferred)), rows[1]]
      && AfterRun(w, once, false) == [once[0], once[1].(channel := Some(2), source := Some(DecryptedPacket))]
  {
    hide VerdictOf, IndexFor, AfterRun, Sample, GroupText.Lawful;
    var w, rows := Sample(), SampleRows();
    SampleIsLawful();
    var t1, t2 := TargetOf(rows[0]), TargetOf(rows[1]);
    SampleVerdicts(t1, t2);
    assert Pending(rows, false) == [t1, t2] by {
      assert rows[..1] == [rows[0]] && rows[..1][..0] == [];
    }
    RunAssigns(w, rows, false, 0);
    RunAssigns(w, rows, false, 1);
    var once := AfterRun(w, rows, false);
    assert Pending(once, false) == [t2] by {
      assert once[..1] == [once[0]] && once[..1][..0] == [];
    }
    RunAssigns(w, once, false, 0);
    RunAssigns(w, once, false, 1);
  }
}
