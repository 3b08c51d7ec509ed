/**
 The raw packet log and its hourly aggregates (`PacketStore` in storage/repositories.py). Raw rows
 are pruned; the aggregates are kept forever and have to go on telling the truth about all packets
 ever logged.
 */
module PacketLog {
  import opened Bytes

  /** A packet as logged; `id` is its row's primary key. */
  datatype Packet = Packet(
    id: nat,
    ts: int,
    snr: Option<real>,
    rssi: Option<int>,
    payloadType: Option<int>,
    routeType: Option<int>,
    payloadLen: int,
    payload: Option<Bytes>)

  /** The primary key of `packet_stats_hourly`. */
  datatype Key = Key(bucket: int, payloadType: int, routeType: int)

  datatype HourRow = HourRow(
    key: Key,
    count: nat,
    totalBytes: int,
    sumSnr: real,
    sumRssi: real,
    minSnr: Option<real>,
    maxSnr: Option<real>)

  // ---------------------------------------------------------------- SQL values

  function OrZero(x: Option<real>): real {
    if x.Some? then x.value else 0.0
  }

  function Min(a: real, b: real): real {
    if a <= b then a else b
  }

  function Max(a: real, b: real): real {
    if a <= b then b else a
  }

  /** SQLite's scalar MIN and MAX: NULL as soon as one argument is NULL. */
  function ScalarMin(a: Option<real>, b: Option<real>): Option<real> {
    if a.Some? && b.Some? then Some(Min(a.value, b.value)) else None
  }

  function ScalarMax(a: Option<real>, b: Option<real>): Option<real> {
    if a.Some? && b.Some? then Some(Max(a.value, b.value)) else None
  }

  function Coalesce(a: Option<real>, b: Option<real>): Option<real> {
    if a.Some? then a else b
  }

  /** The aggregates MIN and MAX, which skip NULLs, one value at a time. */
  function SkipMin(a: Option<real>, b: Option<real>): Option<real> {
    if a.Some? && b.Some? then Some(Min(a.value, b.value)) else Coalesce(a, b)
  }

  function SkipMax(a: Option<real>, b: Option<real>): Option<real> {
    if a.Some? && b.Some? then Some(Max(a.value, b.value)) else Coalesce(a, b)
  }

  /** SQLite's `%` truncates toward zero; Dafny's and Python's do not. */
  function SqlMod(a: int, b: int): int
    requires b > 0
  {
    if a >= 0 then a % b else -((-a) % b)
  }

  // ---------------------------------------------------------------- logging

  function HourOf(ts: int): int {
    ts - ts % 3600
  }

  function KeyOf(p: Packet): Key {
    Key(HourOf(p.ts),
        if p.payloadType.Some? then p.payloadType.value else -1,
        if p.routeType.Some? then p.routeType.value else -1)
  }

  function RssiOf(p: Packet): real {
    if p.rssi.Some? then p.rssi.value as real else 0.0
  }

  function NewRow(p: Packet): HourRow {
    HourRow(KeyOf(p), 1, p.payloadLen, OrZero(p.snr), RssiOf(p), p.snr, p.snr)
  }

  function Merge(r: HourRow, p: Packet): HourRow {
    HourRow(r.key, r.count + 1, r.totalBytes + p.payloadLen, r.sumSnr + OrZero(p.snr), r.sumRssi + RssiOf(p),
            ScalarMin(Coalesce(r.minSnr, p.snr), p.snr), ScalarMax(Coalesce(r.maxSnr, p.snr), p.snr))
  }

  /** INSERT ... ON CONFLICT(bucket, payload_type, route_type) DO UPDATE. */
  function Upsert(rows: seq<HourRow>, p: Packet): seq<HourRow> {
    if rows == [] then [NewRow(p)]
    else if rows[0].key == KeyOf(p) then [Merge(rows[0], p)] + rows[1..]
    else [rows[0]] + Upsert(rows[1..], p)
  }

  function NextId(packets: seq<Packet>): nat {
    if packets == [] then 1 else packets[|packets| - 1].id + 1
  }

  /** The table is kept in primary-key order. */
  ghost predicate Ordered(packets: seq<Packet>) {
    && (forall i :: 0 <= i < |packets| ==> packets[i].id >= 1)
    && (forall i, j :: 0 <= i < j < |packets| ==> packets[i].id < packets[j].id)
  }

  // ---------------------------------------------------------------- one row, and the packets behind it

  /** The aggregates after a history of packets. */
  function Replay(history: seq<Packet>): seq<HourRow> {
    if history == [] then [] else Upsert(Replay(history[..|history| - 1]), history[|history| - 1])
  }

  function RowFor(rows: seq<HourRow>, k: Key): Option<HourRow> {
    if rows == [] then None
    else if rows[0].key == k then Some(rows[0])
    else RowFor(rows[1..], k)
  }

  /** The row with key `k` after merging, in order, the packets that belong to it. */
  function Fold(history: seq<Packet>, k: Key): Option<HourRow> {
    if history == [] then None
    else
      var r, p := Fold(history[..|history| - 1], k), history[|history| - 1];
      if KeyOf(p) != k then r else if r.Some? then Some(Merge(r.value, p)) else Some(NewRow(p))
  }

  lemma {:induction false} UpsertRowFor(rows: seq<HourRow>, p: Packet, k: Key)
    ensures RowFor(Upsert(rows, p), k) ==
      if KeyOf(p) != k then RowFor(rows, k)
      else if RowFor(rows, k).Some? then Some(Merge(RowFor(rows, k).value, p))
      else Some(NewRow(p))
  {
    if rows != [] && rows[0].key != KeyOf(p) {
      UpsertRowFor(rows[1..], p, k);
      assert ([rows[0]] + Upsert(rows[1..], p))[1..] == Upsert(rows[1..], p);
    }
  }

  lemma {:induction false} ReplayRowFor(history: seq<Packet>, k: Key)
    ensures RowFor(Replay(history), k) == Fold(history, k)
  {
    if history != [] {
      ReplayRowFor(history[..|history| - 1], k);
      UpsertRowFor(Replay(history[..|history| - 1]), history[|history| - 1], k);
    }
  }

  /**
   Which packets a row is for, in hours and columns: those whose time falls in the hour from its
   bucket on, and whose types are its own, -1 standing for a missing one.
   */
  lemma KeyMeaning(p: Packet, k: Key)
    requires forall t :: p.payloadType == Some(t) ==> t >= 0
    requires forall t :: p.routeType == Some(t) ==> t >= 0
    ensures KeyOf(p) == k <==>
              && k.bucket % (60 * 60) == 0 && k.bucket <= p.ts < k.bucket + 60 * 60
              && (if k.payloadType == -1 then p.payloadType == None else p.payloadType == Some(k.payloadType))
              && (if k.routeType == -1 then p.routeType == None else p.routeType == Some(k.routeType))
  {
    HourMeaning(p.ts, k.bucket);
  }

  lemma HourMeaning(ts: int, bucket: int)
    ensures HourOf(ts) == bucket <==> bucket % 3600 == 0 && bucket <= ts < bucket + 3600
  {
    if bucket % 3600 == 0 && bucket <= ts < bucket + 3600 {
      assert ts == 3600 * (bucket / 3600) + (ts - bucket);
      assert ts % 3600 == ts - bucket;
    }
  }

  /** What one packet adds to the row of its group, column by column; a missing row counts as zeros. */
  ghost predicate Adds(before: Option<HourRow>, p: Packet, after: HourRow) {
    var r := if before.Some? then before.value else HourRow(KeyOf(p), 0, 0, 0.0, 0.0, None, None);
    && after.key == KeyOf(p)
    && after.count == r.count + 1 && after.totalBytes == r.totalBytes + p.payloadLen
    && after.sumSnr == (if p.snr.Some? then r.sumSnr + p.snr.value else r.sumSnr)
    && after.sumRssi == (if p.rssi.Some? then r.sumRssi + p.rssi.value as real else r.sumRssi)
  }

  lemma UpsertAdds(rows: seq<HourRow>, p: Packet)
    ensures var after := RowFor(Upsert(rows, p), KeyOf(p));
      after.Some? && Adds(RowFor(rows, KeyOf(p)), p, after.value)
    ensures forall k :: k != KeyOf(p) ==> RowFor(Upsert(rows, p), k) == RowFor(rows, k)
  {
    forall k {
      UpsertRowFor(rows, p, k);
    }
    RowForHasKey(rows, KeyOf(p));
  }

  lemma {:induction false} RowForHasKey(rows: seq<HourRow>, k: Key)
    ensures RowFor(rows, k).Some? ==> RowFor(rows, k).value.key == k
  {
    if rows != [] && rows[0].key != k {
      RowForHasKey(rows[1..], k);
    }
  }

  /** The packets of one group, in the order in which they were aggregated. */
  function Group(history: seq<Packet>, k: Key): seq<Packet> {
    if history == [] then []
    else
      Group(history[..|history| - 1], k)
      + if KeyOf(history[|history| - 1]) == k then [history[|history| - 1]] else []
  }

  function TotalBytes(ps: seq<Packet>): int {
    if ps == [] then 0 else TotalBytes(ps[..|ps| - 1]) + ps[|ps| - 1].payloadLen
  }

  function Snrs(ps: seq<Packet>): real {
    if ps == [] then 0.0 else Snrs(ps[..|ps| - 1]) + OrZero(ps[|ps| - 1].snr)
  }

  function Rssis(ps: seq<Packet>): real {
    if ps == [] then 0.0 else Rssis(ps[..|ps| - 1]) + RssiOf(ps[|ps| - 1])
  }

  /** The SNR is a lower (upper) bound of a stretch of packets that all carry one, and is reached. */
  ghost predicate IsMin(ps: seq<Packet>, from: nat, x: real) {
    && (forall i :: from <= i < |ps| ==> ps[i].snr.Some? && x <= ps[i].snr.value)
    && (exists i :: from <= i < |ps| && ps[i].snr == Some(x))
  }

  ghost predicate IsMax(ps: seq<Packet>, from: nat, x: real) {
    && (forall i :: from <= i < |ps| ==> ps[i].snr.Some? && ps[i].snr.value <= x)
    && (exists i :: from <= i < |ps| && ps[i].snr == Some(x))
  }

  /** Where the packets after the last SNR-less one begin. */
  function TailStart(ps: seq<Packet>): (n: nat)
    ensures n <= |ps|
    ensures forall i :: n <= i < |ps| ==> ps[i].snr.Some?
    ensures n > 0 ==> ps[n - 1].snr.None?
  {
    if ps == [] then 0
    else if ps[|ps| - 1].snr.None? then |ps|
    else TailStart(ps[..|ps| - 1])
  }

  /** What a row says about the packets of its group. */
  ghost predicate Describes(r: HourRow, ps: seq<Packet>) {
    && r.count == |ps|
    && r.totalBytes == TotalBytes(ps)
    && r.sumSnr == Snrs(ps)
    && r.sumRssi == Rssis(ps)
    && (match r.minSnr case Some(x) => IsMin(ps, TailStart(ps), x) case None => TailStart(ps) == |ps|)
    && (match r.maxSnr case Some(x) => IsMax(ps, TailStart(ps), x) case None => TailStart(ps) == |ps|)
  }

  lemma NewRowDescribes(p: Packet)
    ensures Describes(NewRow(p), [p])
  {
    assert [p][..0] == [];
    assert TailStart([p][..0]) == 0;
    if p.snr.Some? {
      assert [p][0].snr == Some(p.snr.value);
    }
  }

  lemma MergeSums(r: HourRow, ps: seq<Packet>, p: Packet)
    requires r.count == |ps| && r.totalBytes == TotalBytes(ps) && r.sumSnr == Snrs(ps) && r.sumRssi == Rssis(ps)
    ensures var m, qs := Merge(r, p), ps + [p];
      m.count == |qs| && m.totalBytes == TotalBytes(qs) && m.sumSnr == Snrs(qs) && m.sumRssi == Rssis(qs)
  {
    assert (ps + [p])[..|ps|] == ps;
  }

  lemma MergeDescribes(r: HourRow, ps: seq<Packet>, p: Packet)
    requires ps != [] && Describes(r, ps)
    ensures Describes(Merge(r, p), ps + [p])
  {
    MergeSums(r, ps, p);
    var m, qs := Merge(r, p), ps + [p];
    assert qs[..|ps|] == ps;
    if p.snr.Some? {
      var n := TailStart(ps);
      assert TailStart(qs) == n;
      MinExtends(ps, n, r.minSnr, p);
      MaxExtends(ps, n, r.maxSnr, p);
    }
  }

  lemma MinExtends(ps: seq<Packet>, n: nat, x: Option<real>, p: Packet)
    requires n <= |ps| && p.snr.Some?
    requires match x case Some(v) => IsMin(ps, n, v) case None => n == |ps|
    ensures IsMin(ps + [p], n, Min(Coalesce(x, p.snr).value, p.snr.value))
  {
    var qs, v := ps + [p], Min(Coalesce(x, p.snr).value, p.snr.value);
    assert qs[|ps|] == p;
    if x.Some? && v == x.value {
      var i :| n <= i < |ps| && ps[i].snr == x;
      assert qs[i].snr == Some(v);
    } else {
      assert qs[|ps|].snr == Some(v);
    }
  }

  lemma MaxExtends(ps: seq<Packet>, n: nat, x: Option<real>, p: Packet)
    requires n <= |ps| && p.snr.Some?
    requires match x case Some(v) => IsMax(ps, n, v) case None => n == |ps|
    ensures IsMax(ps + [p], n, Max(Coalesce(x, p.snr).value, p.snr.value))
  {
    var qs, v := ps + [p], Max(Coalesce(x, p.snr).value, p.snr.value);
    assert qs[|ps|] == p;
    if x.Some? && v == x.value {
      var i :| n <= i < |ps| && ps[i].snr == x;
      assert qs[i].snr == Some(v);
    } else {
      assert qs[|ps|].snr == Some(v);
    }
  }

  /**
   For every history: a row exists exactly for the groups that occur, and it gives their number of
   packets, their bytes and sums exactly; its extremes are those of the packets after the group's
   last SNR-less one.
   */
  lemma {:induction false} RowsDescribeTheirGroups(history: seq<Packet>, k: Key)
    ensures match RowFor(Replay(history), k)
      case Some(r) => Group(history, k) != [] && Describes(r, Group(history, k))
      case None => Group(history, k) == []
  {
    ReplayRowFor(history, k);
    FoldDescribes(history, k);
  }

  lemma {:induction false} FoldDescribes(history: seq<Packet>, k: Key)
    ensures match Fold(history, k)
      case Some(r) => Group(history, k) != [] && Describes(r, Group(history, k))
      case None => Group(history, k) == []
  {
    hide Describes, Merge, NewRow;
    if history != [] {
      var before, p := history[..|history| - 1], history[|history| - 1];
      FoldDescribes(before, k);
      assert Group(before, k) + [] == Group(before, k);
      if KeyOf(p) == k {
        if Fold(before, k).Some? {
          MergeDescribes(Fold(before, k).value, Group(before, k), p);
        } else {
          assert [] + [p] == [p];
          NewRowDescribes(p);
        }
      }
    }
  }

  /** The least SNR that any packet of the group carried. */
  ghost predicate IsTrueMin(ps: seq<Packet>, x: real) {
    && (forall i :: 0 <= i < |ps| && ps[i].snr.Some? ==> x <= ps[i].snr.value)
    && (exists i :: 0 <= i < |ps| && ps[i].snr == Some(x))
  }

  /**
   An hourly minimum is the group's true minimum exactly when a packet that reached it was followed
   by no SNR-less packet; in particular when every packet of the group carried an SNR.
   */
  lemma MinIsExactExactlyWhen(r: HourRow, ps: seq<Packet>, x: real)
    requires Describes(r, ps) && IsTrueMin(ps, x)
    ensures r.minSnr == Some(x) <==>
              exists i :: 0 <= i < |ps| && ps[i].snr == Some(x) && forall j :: i < j < |ps| ==> ps[j].snr.Some?
  {
    var n := TailStart(ps);
    if r.minSnr == Some(x) {
      var i :| n <= i < |ps| && ps[i].snr == Some(x);
    }
    if i :| 0 <= i < |ps| && ps[i].snr == Some(x) && forall j :: i < j < |ps| ==> ps[j].snr.Some? {
      assert i >= n;
      var y := r.minSnr.value;
      var j :| n <= j < |ps| && ps[j].snr == Some(y);
      assert x <= y && y <= x;
    }
  }

  /** The greatest SNR that any packet of the group carried. */
  ghost predicate IsTrueMax(ps: seq<Packet>, x: real) {
    && (forall i :: 0 <= i < |ps| && ps[i].snr.Some? ==> ps[i].snr.value <= x)
    && (exists i :: 0 <= i < |ps| && ps[i].snr == Some(x))
  }

  /** The same for an hourly maximum. */
  lemma MaxIsExactExactlyWhen(r: HourRow, ps: seq<Packet>, x: real)
    requires Describes(r, ps) && IsTrueMax(ps, x)
    ensures r.maxSnr == Some(x) <==>
              exists i :: 0 <= i < |ps| && ps[i].snr == Some(x) && forall j :: i < j < |ps| ==> ps[j].snr.Some?
  {
    var n := TailStart(ps);
    if r.maxSnr == Some(x) {
      var i :| n <= i < |ps| && ps[i].snr == Some(x);
    }
    if i :| 0 <= i < |ps| && ps[i].snr == Some(x) && forall j :: i < j < |ps| ==> ps[j].snr.Some? {
      assert i >= n;
      var y := r.maxSnr.value;
      var j :| n <= j < |ps| && ps[j].snr == Some(y);
      assert x <= y && y <= x;
    }
  }

  /** One SNR-less packet is enough to lose a group's minimum for good. */
  lemma SnrlessPacketForgetsTheMinimum(p: Packet, q: Packet, s: Packet)
    requires KeyOf(p) == KeyOf(q) == KeyOf(s)
    requires p.snr.Some? && q.snr.None? && s.snr.Some? && p.snr.value < s.snr.value
    ensures var r := RowFor(Replay([p, q]), KeyOf(p)); r.Some? && r.value.minSnr == None
    ensures var r := RowFor(Replay([p, q, s]), KeyOf(p)); r.Some? && r.value.minSnr == s.snr
  {
    assert [p][..0] == [] && [p, q][..1] == [p] && [p, q, s][..2] == [p, q];
    assert Replay([p]) == [NewRow(p)];
    assert Replay([p, q]) == [Merge(NewRow(p), q)];
    assert Replay([p, q, s]) == [Merge(Merge(NewRow(p), q), s)];
  }
}
