/**
 Logging, paged scans and batched pruning of raw packets (`PacketStore` in
 storage/repositories.py), and what survives any interleaving of logs and prunes.
 */
module PacketRetention {
  import opened Bytes
  import opened PacketLog

  // ---------------------------------------------------------------- WHERE clauses

  /** The conditions that the queries on `packets` combine; each field may be left open. */
  datatype Where = Where(
    payloadType: Option<int>,  // payload_type = ? AND payload_hex IS NOT NULL
    from: Option<int>,         // ts >= ?
    before: Option<int>,       // ts < ?
    afterId: nat,              // id > ?
    except: set<nat>)          // id NOT IN (...)

  const ANY := Where(None, None, None, 0, {})

  predicate Passes(w: Where, p: Packet) {
    && (w.payloadType.Some? ==> p.payloadType == w.payloadType && p.payload.Some?)
    && (w.from.Some? ==> p.ts >= w.from.value)
    && (w.before.Some? ==> p.ts < w.before.value)
    && p.id > w.afterId
    && p.id !in w.except
  }

  /** The rows that a clause selects, in id order. */
  function Select(packets: seq<Packet>, w: Where): seq<Packet> {
    if packets == [] then []
    else (if Passes(w, packets[0]) then [packets[0]] else []) + Select(packets[1..], w)
  }

  lemma {:induction false} SelectMeaning(packets: seq<Packet>, w: Where)
    ensures |Select(packets, w)| <= |packets|
    ensures forall p :: p in Select(packets, w) <==> p in packets && Passes(w, p)
  {
    if packets != [] {
      SelectMeaning(packets[1..], w);
      assert packets == [packets[0]] + packets[1..];
    }
  }

  lemma {:induction false} SelectOrdered(packets: seq<Packet>, w: Where)
    requires Ordered(packets)
    ensures Ordered(Select(packets, w))
  {
    if packets != [] {
      var rest, kept := packets[1..], Select(packets[1..], w);
      assert forall i :: 0 <= i < |rest| ==> rest[i] == packets[i + 1];
      SelectOrdered(rest, w);
      SelectMeaning(rest, w);
      forall i | 0 <= i < |kept|
        ensures packets[0].id < kept[i].id
      {
        assert kept[i] in rest;
      }
    }
  }

  lemma SelectCons(p: Packet, rest: seq<Packet>, w: Where)
    ensures Select([p] + rest, w) == if Passes(w, p) then [p] + Select(rest, w) else Select(rest, w)
  {
    assert ([p] + rest)[1..] == rest;
  }

  /** Selecting from a selection is selecting by both clauses. */
  lemma {:induction false} SelectTwice(packets: seq<Packet>, w: Where, v: Where, both: Where)
    requires forall p :: p in packets ==> Passes(both, p) == (Passes(w, p) && Passes(v, p))
    ensures Select(Select(packets, w), v) == Select(packets, both)
  {
    hide Passes, Select;
    if packets == [] {
      SelectNone(packets, w);
      SelectNone(packets, v);
      SelectNone(packets, both);
    } else {
      var p, rest := packets[0], packets[1..];
      assert p in packets;
      assert forall q :: q in rest ==> q in packets;
      SelectTwice(rest, w, v, both);
      assert packets == [p] + rest;
      SelectCons(p, rest, w);
      SelectCons(p, rest, both);
      SelectCons(p, Select(rest, w), v);
    }
  }

  lemma {:induction false} SelectAppend(a: seq<Packet>, b: seq<Packet>, w: Where)
    ensures Select(a + b, w) == Select(a, w) + Select(b, w)
  {
    hide Passes;
    if a == [] {
      assert a + b == b;
    } else {
      SelectAppend(a[1..], b, w);
      assert (a + b)[1..] == a[1..] + b && (a + b)[0] == a[0];
      var head := if Passes(w, a[0]) then [a[0]] else [];
      assert head + (Select(a[1..], w) + Select(b, w)) == (head + Select(a[1..], w)) + Select(b, w);
    }
  }

  lemma {:induction false} SelectAll(packets: seq<Packet>, w: Where)
    requires forall i :: 0 <= i < |packets| ==> Passes(w, packets[i])
    ensures Select(packets, w) == packets
  {
    hide Passes;
    if packets != [] {
      SelectAll(packets[1..], w);
    }
  }

  lemma {:induction false} SelectNone(packets: seq<Packet>, w: Where)
    requires forall i :: 0 <= i < |packets| ==> !Passes(w, packets[i])
    ensures Select(packets, w) == []
  {
    hide Passes;
    if packets != [] {
      SelectNone(packets[1..], w);
    }
  }

  /** Rows selected by complementary clauses add up. */
  lemma {:induction false} SelectSplits(packets: seq<Packet>, w: Where, v: Where)
    requires forall p :: p in packets ==> Passes(w, p) != Passes(v, p)
    ensures |Select(packets, w)| + |Select(packets, v)| == |packets|
  {
    hide Passes;
    if packets != [] {
      assert packets[0] in packets;
      assert forall p :: p in packets[1..] ==> p in packets;
      SelectSplits(packets[1..], w, v);
    }
  }

  // ---------------------------------------------------------------- paged scans

  /** What `iter_payloads` asks for: one payload type, payload stored, `after` <= ts < `before`. */
  function Wanted(payloadType: int, after: int, before: int, lastId: nat): Where {
    ANY.(payloadType := Some(payloadType), from := Some(after), before := Some(before), afterId := lastId)
  }

  /** In an ordered table, the rows after the `i`th one are those with a greater id. */
  lemma RowsAfter(packets: seq<Packet>, i: nat)
    requires Ordered(packets) && i < |packets|
    ensures Select(packets, ANY.(afterId := packets[i].id)) == packets[i + 1..]
  {
    hide Passes, Ordered, Select;
    var w, a, b := ANY.(afterId := packets[i].id), packets[..i + 1], packets[i + 1..];
    GreaterIdsComeLater(packets, i);
    assert forall k :: 0 <= k < |b| ==> b[k] == packets[i + 1 + k];
    SelectNone(a, w);
    SelectAll(b, w);
    SelectAppend(a, b, w);
    assert packets == a + b;
  }

  lemma GreaterIdsComeLater(packets: seq<Packet>, i: nat)
    requires Ordered(packets) && i < |packets|
    ensures forall k :: 0 <= k < |packets| ==> (Passes(ANY.(afterId := packets[i].id), packets[k]) <==> k > i)
  {
  }

  /** After a full page, the rest of the scan is what lies beyond the page's last id. */
  lemma NextPage(packets: seq<Packet>, w: Where, batch: nat)
    requires Ordered(packets) && 1 <= batch <= |Select(packets, w)|
    ensures var left := Select(packets, w);
      Select(packets, w.(afterId := left[batch - 1].id)) == left[batch..]
  {
    var left := Select(packets, w);
    var next := left[batch - 1].id;
    SelectOrdered(packets, w);
    RowsAfter(left, batch - 1);
    SelectMeaning(packets, w);
    assert left[batch - 1] in left;
    SelectTwice(packets, w, ANY.(afterId := next), w.(afterId := next));
  }

  // ---------------------------------------------------------------- the store

  function Stored(packets: seq<Packet>, p: Packet, storePayloads: bool): Packet {
    p.(id := NextId(packets), payload := if storePayloads then p.payload else None)
  }

  class PacketStore {
    const storePayloads: bool
    var packets: seq<Packet>
    var hourly: seq<HourRow>

    constructor (storePayloads: bool)
      ensures packets == [] && hourly == [] && this.storePayloads == storePayloads
    {
      this.storePayloads := storePayloads;
      packets, hourly := [], [];
    }

    /** Both statements of `log`. */
    method Log(p: Packet)
      requires Ordered(packets)
      modifies this
      ensures Ordered(packets)
      ensures packets == old(packets) + [Stored(old(packets), p, storePayloads)]
      ensures hourly == Upsert(old(hourly), p)
      ensures var row, n := packets[|packets| - 1], |old(packets)|;
        && row.payload == (if storePayloads then p.payload else None)
        && row == p.(id := row.id, payload := row.payload)
        && row.id == if n == 0 then 1 else old(packets)[n - 1].id + 1
      ensures var after := RowFor(hourly, KeyOf(p));
        after.Some? && Adds(RowFor(old(hourly), KeyOf(p)), p, after.value)
    {
      UpsertAdds(hourly, p);
      packets := packets + [Stored(packets, p, storePayloads)];
      hourly := Upsert(hourly, p);
    }

    /**
     `iter_payloads`: pages of at most `batch` rows, each starting after the last id seen. For every
     table and page size the rows yielded are those of the unpaged query, in id order.
     */
    method IterPayloads(payloadType: int, after: int, before: int, batch: nat) returns (yielded: seq<Packet>)
      requires Ordered(packets) && batch >= 1
      ensures yielded == Select(packets, Wanted(payloadType, after, before, 0))
    {
      hide Passes;
      var lastId: nat := 0;
      yielded := [];
      while true
        invariant yielded + Select(packets, Wanted(payloadType, after, before, lastId))
               == Select(packets, Wanted(payloadType, after, before, 0))
        decreases |Select(packets, Wanted(payloadType, after, before, lastId))|
      {
        var left := Select(packets, Wanted(payloadType, after, before, lastId));
        if |left| < batch {
          yielded := yielded + left;
          return;
        }
        yielded := yielded + left[..batch];
        NextPage(packets, Wanted(payloadType, after, before, lastId), batch);
        lastId := left[batch - 1].id;
      }
    }

    /**
     DELETE ... WHERE id IN (SELECT id ... WHERE ts < ? LIMIT ?): which of the old rows go first is
     up to the database; that fewer than `batch` go only when none is left over is not.
     */
    method DeleteBatch(cutoff: int, batch: nat) returns (rowcount: nat, ghost victims: set<nat>)
      requires Ordered(packets)
      modifies this`packets
      ensures Ordered(packets) && packets == Select(old(packets), ANY.(except := victims))
      ensures forall p :: p in old(packets) && p.id in victims ==> p.ts < cutoff
      ensures rowcount == |old(packets)| - |packets| <= batch
      ensures rowcount < batch ==> forall p :: p in packets ==> p.ts >= cutoff
    {
      victims := Oldest(packets, cutoff, batch);
      OldestCount(packets, cutoff, batch);
      forall p | p in packets && p.id in victims
        ensures p.ts < cutoff
      {
        OldestAreOld(packets, cutoff, batch, p.id);
        SameIdSameRow(packets, p);
      }
      var kept := Select(packets, ANY.(except := Oldest(packets, cutoff, batch)));
      SelectOrdered(packets, ANY.(except := victims));
      SelectMeaning(packets, ANY.(except := victims));
      rowcount := |packets| - |kept|;
      packets := kept;
    }

    /** `prune` removes exactly the rows older than the cutoff and returns how many there were. */
    method Prune(cutoff: int, batch: nat) returns (total: nat)
      requires Ordered(packets) && batch >= 1
      modifies this`packets
      ensures Ordered(packets) && packets == Select(old(packets), ANY.(from := Some(cutoff)))
      ensures total == |Select(old(packets), ANY.(before := Some(cutoff)))| == |old(packets)| - |packets|
    {
      total := 0;
      ghost var all, deleted := packets, {};
      EverythingPasses(all);
      while true
        invariant Ordered(packets) && packets == Select(all, ANY.(except := deleted))
        invariant forall p :: p in all && p.id in deleted ==> p.ts < cutoff
        invariant total == |all| - |packets|
        decreases |packets|
      {
        ghost var before := packets;
        var rowcount, victims := DeleteBatch(cutoff, batch);
        total := total + rowcount;
        MoreDeleted(all, deleted, victims);
        SelectMeaning(all, ANY.(except := deleted));
        deleted := deleted + victims;
        if rowcount < batch {
          break;
        }
      }
      DeletedWereOld(all, deleted, cutoff);
    }
  }

  lemma EverythingPasses(packets: seq<Packet>)
    requires Ordered(packets)
    ensures Select(packets, ANY) == packets
  {
    SelectAll(packets, ANY);
  }

  lemma SameIdSameRow(packets: seq<Packet>, p: Packet)
    requires Ordered(packets) && p in packets
    ensures forall i :: 0 <= i < |packets| && packets[i].id == p.id ==> packets[i] == p
  {
  }

  lemma MoreDeleted(all: seq<Packet>, deleted: set<nat>, victims: set<nat>)
    ensures Select(Select(all, ANY.(except := deleted)), ANY.(except := victims))
         == Select(all, ANY.(except := deleted + victims))
  {
    SelectTwice(all, ANY.(except := deleted), ANY.(except := victims), ANY.(except := deleted + victims));
  }

  /** Once only old rows are gone and no old row is left, what is left is what the cutoff keeps. */
  lemma DeletedWereOld(all: seq<Packet>, deleted: set<nat>, cutoff: int)
    requires Ordered(all)
    requires forall p :: p in all && p.id in deleted ==> p.ts < cutoff
    requires forall p :: p in Select(all, ANY.(except := deleted)) ==> p.ts >= cutoff
    ensures Select(all, ANY.(except := deleted)) == Select(all, ANY.(from := Some(cutoff)))
    ensures |Select(all, ANY.(before := Some(cutoff)))| + |Select(all, ANY.(from := Some(cutoff)))| == |all|
  {
    EverythingPasses(all);
    SelectMeaning(all, ANY.(except := deleted));
    SelectMeaning(all, ANY);
    SelectTwice(all, ANY, ANY.(except := deleted), ANY.(from := Some(cutoff)));
    SelectSplits(all, ANY.(before := Some(cutoff)), ANY.(from := Some(cutoff)));
  }

  /** The ids of the first `batch` old rows. */
  function Oldest(packets: seq<Packet>, cutoff: int, batch: nat): set<nat> {
    if packets == [] || batch == 0 then {}
    else if packets[0].ts < cutoff then {packets[0].id} + Oldest(packets[1..], cutoff, batch - 1)
    else Oldest(packets[1..], cutoff, batch)
  }

  lemma {:induction false} OldestAreOld(packets: seq<Packet>, cutoff: int, batch: nat, id: nat)
    requires Ordered(packets) && id in Oldest(packets, cutoff, batch)
    ensures exists i :: 0 <= i < |packets| && packets[i].id == id && packets[i].ts < cutoff
  {
    if packets[0].ts < cutoff && packets[0].id == id {
    } else {
      var n := if packets[0].ts < cutoff then batch - 1 else batch;
      OrderedTail(packets);
      OldestAreOld(packets[1..], cutoff, n, id);
      var i :| 0 <= i < |packets[1..]| && packets[1..][i].id == id && packets[1..][i].ts < cutoff;
      assert packets[i + 1].id == id;
    }
  }

  lemma OrderedTail(packets: seq<Packet>)
    requires Ordered(packets) && packets != []
    ensures Ordered(packets[1..])
    ensures forall p :: p in packets[1..] ==> p.id > packets[0].id >= 1
  {
    forall p | p in packets[1..]
      ensures p.id > packets[0].id
    {
      var i :| 0 <= i < |packets[1..]| && packets[1..][i] == p;
      assert packets[i + 1] == p;
    }
  }

  /** How many rows a DELETE of the first `batch` old rows leaves. */
  lemma {:induction false} OldestCount(packets: seq<Packet>, cutoff: int, batch: nat)
    requires Ordered(packets)
    ensures var gone := |packets| - |Select(packets, ANY.(except := Oldest(packets, cutoff, batch)))|;
      gone <= batch && (gone < batch ==>
        forall p :: p in packets && p.id !in Oldest(packets, cutoff, batch) ==> p.ts >= cutoff)
  {
    if packets == [] || batch == 0 {
      EverythingPasses(packets);
    } else {
      var p, rest := packets[0], packets[1..];
      var n := if p.ts < cutoff then batch - 1 else batch;
      OrderedTail(packets);
      OldestCount(rest, cutoff, n);
      var ids, all := Oldest(rest, cutoff, n), Oldest(packets, cutoff, batch);
      assert packets == [p] + rest;
      NotAmongTheRest(packets, cutoff, n);
      SelectTwice(rest, ANY, ANY.(except := all), ANY.(except := ids));
      EverythingPasses(rest);
      SelectCons(p, rest, ANY.(except := all));
    }
  }

  lemma NotAmongTheRest(packets: seq<Packet>, cutoff: int, n: nat)
    requires Ordered(packets) && packets != []
    ensures packets[0].id !in Oldest(packets[1..], cutoff, n)
  {
    OrderedTail(packets);
    if packets[0].id in Oldest(packets[1..], cutoff, n) {
      OldestAreOld(packets[1..], cutoff, n, packets[0].id);
      assert false;
    }
  }

  // ---------------------------------------------------------------- logs and prunes interleaved

  /**
   `waiting` are the packets whose row is inserted but not yet aggregated; `history` the packets
   aggregated so far, in that order; `pruned` the number of rows ever deleted.
   */
  datatype State = State(
    packets: seq<Packet>,
    hourly: seq<HourRow>,
    waiting: multiset<Packet>,
    history: seq<Packet>,
    pruned: nat)

  datatype Step =
    | Insert(p: Packet, storePayloads: bool) // the first statement of a `log`
    | Aggregate(p: Packet)                   // its second statement
    | Delete(victims: set<nat>)              // one DELETE of a `prune`

  const EMPTY := State([], [], multiset{}, [], 0)

  predicate Enabled(s: State, step: Step) {
    match step
    case Aggregate(p) => p in s.waiting
    case _ => true
  }

  function Next(s: State, step: Step): State
    requires Enabled(s, step)
  {
    match step
    case Insert(p, storePayloads) =>
      s.(packets := s.packets + [Stored(s.packets, p, storePayloads)], waiting := s.waiting + multiset{p})
    case Aggregate(p) =>
      s.(hourly := Upsert(s.hourly, p), waiting := s.waiting - multiset{p}, history := s.history + [p])
    case Delete(victims) =>
      var kept := Select(s.packets, ANY.(except := victims));
      SelectMeaning(s.packets, ANY.(except := victims));
      s.(packets := kept, pruned := s.pruned + |s.packets| - |kept|)
  }

  /** Logs may begin, and prunes delete, at any moment; a log ends once it has begun. */
  lemma AnyOrder(s: State, p: Packet, storePayloads: bool, victims: set<nat>)
    ensures Enabled(s, Insert(p, storePayloads)) && Enabled(s, Delete(victims))
    ensures Enabled(s, Aggregate(p)) <==> s.waiting[p] > 0
    ensures Enabled(Next(s, Insert(p, storePayloads)), Aggregate(p))
    ensures forall q :: q in Next(s, Delete(victims)).packets <==> q in s.packets && q.id !in victims && q.id > 0
  {
    SelectMeaning(s.packets, ANY.(except := victims));
  }

  ghost predicate Run(s: State, steps: seq<Step>, t: State)
    decreases |steps|
  {
    if steps == [] then s == t
    else Enabled(s, steps[0]) && Run(Next(s, steps[0]), steps[1..], t)
  }

  function Count(rows: seq<HourRow>): nat {
    if rows == [] then 0 else rows[0].count + Count(rows[1..])
  }

  lemma {:induction false} UpsertCounts(rows: seq<HourRow>, p: Packet)
    ensures Count(Upsert(rows, p)) == Count(rows) + 1
  {
    if rows != [] && rows[0].key != KeyOf(p) {
      UpsertCounts(rows[1..], p);
      assert ([rows[0]] + Upsert(rows[1..], p))[1..] == Upsert(rows[1..], p);
    } else if rows != [] {
      assert ([Merge(rows[0], p)] + rows[1..])[1..] == rows[1..];
    }
  }

  ghost predicate Inv(s: State) {
    && Ordered(s.packets)
    && s.hourly == Replay(s.history)
    && Count(s.hourly) == |s.history|
    && |s.history| + |s.waiting| == |s.packets| + s.pruned
  }

  lemma StepKeepsInv(s: State, step: Step)
    requires Inv(s) && Enabled(s, step)
    ensures Inv(Next(s, step))
  {
    match step {
      case Insert(_, _) =>
        hide Replay;
      case Aggregate(p) =>
        hide Ordered, Upsert, Count;
        UpsertCounts(s.hourly, p);
        assert (s.history + [p])[..|s.history|] == s.history;
      case Delete(victims) =>
        hide Replay, Ordered;
        SelectOrdered(s.packets, ANY.(except := victims));
        SelectMeaning(s.packets, ANY.(except := victims));
    }
  }

  lemma {:induction false} RunKeepsInv(s: State, steps: seq<Step>, t: State)
    requires Inv(s) && Run(s, steps, t)
    ensures Inv(t)
    decreases |steps|
  {
    hide Inv, Next;
    if steps != [] {
      StepKeepsInv(s, steps[0]);
      RunKeepsInv(Next(s, steps[0]), steps[1..], t);
    }
  }

  /** Pruning never touches what the aggregates say: over every interleaving they describe all packets logged. */
  lemma StatisticsSurvivePruning(steps: seq<Step>, t: State, k: Key)
    requires Run(EMPTY, steps, t)
    ensures match RowFor(t.hourly, k)
      case Some(r) => Group(t.history, k) != [] && Describes(r, Group(t.history, k))
      case None => Group(t.history, k) == []
  {
    RunKeepsInv(EMPTY, steps, t);
    RowsDescribeTheirGroups(t.history, k);
  }

  /** With no log half done, the hourly counts add up to the rows left plus the rows ever pruned. */
  lemma CountsAreConserved(steps: seq<Step>, t: State)
    requires Run(EMPTY, steps, t)
    ensures Count(t.hourly) + |t.waiting| == |t.packets| + t.pruned
    ensures t.waiting == multiset{} ==> Count(t.hourly) == |t.packets| + t.pruned
  {
    RunKeepsInv(EMPTY, steps, t);
  }
}
