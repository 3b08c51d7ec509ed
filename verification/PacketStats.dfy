/**
 `PacketStore.stats` (storage/repositories.py): hourly or daily statistics are computed from the
 hourly rows alone, and have to equal grouping the packets themselves.
 */
module PacketStats {
  import opened Bytes
  import opened PacketLog

  const DAY := 86400

  // ---------------------------------------------------------------- days out of hours

  function DayOf(ts: int): int {
    ts - ts % DAY
  }

  /** The expression `bucket - bucket % 86400` as SQLite evaluates it. */
  function SqlDay(bucket: int): int {
    bucket - SqlMod(bucket, DAY)
  }

  /**
   A packet's day can be computed from its hour exactly when its time is not negative or its hour
   starts a day: before 1970 SQLite's truncating remainder rounds the other way.
   */
  lemma DayOfHour(ts: int)
    ensures SqlDay(HourOf(ts)) == DayOf(ts) <==> ts >= 0 || HourOf(ts) % DAY == 0
  {
    var h := HourOf(ts);
    HourWithinDay(ts);
    if ts < 0 {
      assert h < 0;
      assert DayOf(h) == DayOf(ts);
      if h % DAY != 0 {
        NegativeRemainder(h);
      } else {
        NegativeMultiple(h);
      }
    }
  }

  lemma NegativeRemainder(h: int)
    requires h < 0 && h % DAY != 0
    ensures (-h) % DAY == DAY - h % DAY
  {
    var q, r := h / DAY, h % DAY;
    assert -h == (-q - 1) * DAY + (DAY - r);
  }

  lemma NegativeMultiple(h: int)
    requires h % DAY == 0
    ensures (-h) % DAY == 0
  {
    assert -h == (-(h / DAY)) * DAY;
  }

  /** Rounding down to the hour stays within the day. */
  lemma HourWithinDay(ts: int)
    ensures HourOf(ts) - HourOf(ts) % DAY == DayOf(ts)
    ensures ts < 0 ==> HourOf(ts) < 0
  {
    var q, r := ts / DAY, ts % DAY;
    assert ts == DAY * q + r;
    assert ts == 3600 * (24 * q + r / 3600) + r % 3600;
    assert ts % 3600 == r % 3600;
    var m := r - r % 3600;
    assert HourOf(ts) == DAY * q + m && 0 <= m < DAY;
    assert HourOf(ts) % DAY == m;
  }

  // ---------------------------------------------------------------- the query

  /** The rows that go into one output row; zero bounds are no bounds. */
  datatype Selection = Selection(after: int, before: int, daily: bool, group: Key)

  predicate InRange(after: int, before: int, bucket: int) {
    (after != 0 ==> bucket >= after) && (before != 0 ==> bucket < before)
  }

  function GroupOf(daily: bool, k: Key): Key {
    if daily then k.(bucket := SqlDay(k.bucket)) else k
  }

  predicate Selects(s: Selection, k: Key) {
    InRange(s.after, s.before, k.bucket) && GroupOf(s.daily, k) == s.group
  }

  function SumCount(rows: seq<HourRow>, s: Selection): nat {
    if rows == [] then 0 else (if Selects(s, rows[0].key) then rows[0].count else 0) + SumCount(rows[1..], s)
  }

  function SumBytes(rows: seq<HourRow>, s: Selection): int {
    if rows == [] then 0 else (if Selects(s, rows[0].key) then rows[0].totalBytes else 0) + SumBytes(rows[1..], s)
  }

  function SumSnr(rows: seq<HourRow>, s: Selection): real {
    if rows == [] then 0.0 else (if Selects(s, rows[0].key) then rows[0].sumSnr else 0.0) + SumSnr(rows[1..], s)
  }

  function SumRssi(rows: seq<HourRow>, s: Selection): real {
    if rows == [] then 0.0 else (if Selects(s, rows[0].key) then rows[0].sumRssi else 0.0) + SumRssi(rows[1..], s)
  }

  function MinSnr(rows: seq<HourRow>, s: Selection): Option<real> {
    if rows == [] then None
    else if Selects(s, rows[0].key) then SkipMin(rows[0].minSnr, MinSnr(rows[1..], s))
    else MinSnr(rows[1..], s)
  }

  function MaxSnr(rows: seq<HourRow>, s: Selection): Option<real> {
    if rows == [] then None
    else if Selects(s, rows[0].key) then SkipMax(rows[0].maxSnr, MaxSnr(rows[1..], s))
    else MaxSnr(rows[1..], s)
  }

  datatype Stat = Stat(
    count: nat,
    totalBytes: int,
    avgSnr: Option<real>,
    avgRssi: Option<real>,
    minSnr: Option<real>,
    maxSnr: Option<real>)

  /** SQL division: by zero it gives NULL. */
  function Quotient(sum: real, count: nat): Option<real> {
    if count == 0 then None else Some(sum / count as real)
  }

  function StatOf(rows: seq<HourRow>, s: Selection): Stat {
    Stat(SumCount(rows, s), SumBytes(rows, s),
         Quotient(SumSnr(rows, s), SumCount(rows, s)), Quotient(SumRssi(rows, s), SumCount(rows, s)),
         MinSnr(rows, s), MaxSnr(rows, s))
  }

  /** Averages are sums over counts. */
  lemma StatMeaning(rows: seq<HourRow>, s: Selection)
    ensures var stat := StatOf(rows, s);
      && stat.count == SumCount(rows, s) && stat.totalBytes == SumBytes(rows, s)
      && (stat.count == 0 ==> stat.avgSnr == None && stat.avgRssi == None)
      && (stat.count > 0 ==> stat.avgSnr.Some? && stat.avgSnr.value * stat.count as real == SumSnr(rows, s))
      && (stat.count > 0 ==> stat.avgRssi.Some? && stat.avgRssi.value * stat.count as real == SumRssi(rows, s))
  {
  }

  function Groups(rows: seq<HourRow>, after: int, before: int, daily: bool): set<Key> {
    set r | r in rows && InRange(after, before, r.key.bucket) :: GroupOf(daily, r.key)
  }

  /** The whole answer of `stats`, by output key. */
  function Stats(rows: seq<HourRow>, after: int, before: int, daily: bool): map<Key, Stat> {
    map g | g in Groups(rows, after, before, daily) :: StatOf(rows, Selection(after, before, daily, g))
  }

  // ---------------------------------------------------------------- grouping the packets directly

  function DirectGroup(daily: bool, p: Packet): Key {
    KeyOf(p).(bucket := if daily then DayOf(p.ts) else HourOf(p.ts))
  }

  predicate DirectSelects(s: Selection, p: Packet) {
    InRange(s.after, s.before, HourOf(p.ts)) && DirectGroup(s.daily, p) == s.group
  }

  /** The packets of a selection, in the order logged. */
  function Chosen(history: seq<Packet>, s: Selection): seq<Packet> {
    if history == [] then []
    else
      Chosen(history[..|history| - 1], s)
      + if DirectSelects(s, history[|history| - 1]) then [history[|history| - 1]] else []
  }

  function LeastSnr(ps: seq<Packet>): Option<real> {
    if ps == [] then None else SkipMin(LeastSnr(ps[..|ps| - 1]), ps[|ps| - 1].snr)
  }

  function GreatestSnr(ps: seq<Packet>): Option<real> {
    if ps == [] then None else SkipMax(GreatestSnr(ps[..|ps| - 1]), ps[|ps| - 1].snr)
  }

  function DirectStat(ps: seq<Packet>): Stat {
    Stat(|ps|, TotalBytes(ps), Quotient(Snrs(ps), |ps|), Quotient(Rssis(ps), |ps|), LeastSnr(ps), GreatestSnr(ps))
  }

  function DirectGroups(history: seq<Packet>, after: int, before: int, daily: bool): set<Key> {
    set p | p in history && InRange(after, before, HourOf(p.ts)) :: DirectGroup(daily, p)
  }

  function DirectStats(history: seq<Packet>, after: int, before: int, daily: bool): map<Key, Stat> {
    map g | g in DirectGroups(history, after, before, daily) ::
      DirectStat(Chosen(history, Selection(after, before, daily, g)))
  }

  /**
   Which packets are counted, in columns: those of the asked-for hours (a bound of zero is none) whose
   hour, or day, and types are the group's.
   */
  lemma {:induction false} ChosenByColumns(history: seq<Packet>, s: Selection, p: Packet)
    ensures p in Chosen(history, s) <==>
              && p in history
              && (s.after == 0 || KeyOf(p).bucket >= s.after) && (s.before == 0 || KeyOf(p).bucket < s.before)
              && KeyOf(p).payloadType == s.group.payloadType && KeyOf(p).routeType == s.group.routeType
              && s.group.bucket == p.ts - p.ts % (if s.daily then 24 * 60 * 60 else 60 * 60)
  {
    if history != [] {
      var before, last := history[..|history| - 1], history[|history| - 1];
      ChosenByColumns(before, s, p);
      assert history == before + [last];
    }
  }

  /** And which groups there are. */
  lemma GroupsByColumns(history: seq<Packet>, after: int, before: int, daily: bool, g: Key)
    ensures g in DirectStats(history, after, before, daily) <==>
              exists p :: p in Chosen(history, Selection(after, before, daily, g))
  {
    var s := Selection(after, before, daily, g);
    if p :| p in history && InRange(after, before, HourOf(p.ts)) && DirectGroup(daily, p) == g {
      ChosenByColumns(history, s, p);
    }
    if p :| p in Chosen(history, s) {
      ChosenByColumns(history, s, p);
      assert DirectGroup(daily, p) == g;
    }
  }

  // ---------------------------------------------------------------- one more packet

  lemma {:induction false} UpsertSums(rows: seq<HourRow>, p: Packet, s: Selection)
    ensures var t, one := Upsert(rows, p), Selects(s, KeyOf(p));
      && SumCount(t, s) == SumCount(rows, s) + (if one then 1 else 0)
      && SumBytes(t, s) == SumBytes(rows, s) + (if one then p.payloadLen else 0)
      && SumSnr(t, s) == SumSnr(rows, s) + (if one then OrZero(p.snr) else 0.0)
      && SumRssi(t, s) == SumRssi(rows, s) + (if one then RssiOf(p) else 0.0)
  {
    hide Selects;
    if rows != [] {
      UpsertTail(rows, p);
      if rows[0].key != KeyOf(p) {
        UpsertSums(rows[1..], p, s);
      }
    }
  }

  lemma UpsertTail(rows: seq<HourRow>, p: Packet)
    requires rows != []
    ensures var t := Upsert(rows, p);
      if rows[0].key == KeyOf(p) then t[0] == Merge(rows[0], p) && t[1..] == rows[1..]
      else t[0] == rows[0] && t[1..] == Upsert(rows[1..], p)
  {
  }

  /** A packet with an SNR takes part in the extremes of its group; any other group's stay. */
  lemma {:induction false} UpsertExtremes(rows: seq<HourRow>, p: Packet, s: Selection)
    requires Selects(s, KeyOf(p)) ==> p.snr.Some?
    ensures var t := Upsert(rows, p);
      if Selects(s, KeyOf(p))
      then MinSnr(t, s) == SkipMin(MinSnr(rows, s), p.snr) && MaxSnr(t, s) == SkipMax(MaxSnr(rows, s), p.snr)
      else MinSnr(t, s) == MinSnr(rows, s) && MaxSnr(t, s) == MaxSnr(rows, s)
  {
    hide Selects;
    if rows != [] {
      UpsertTail(rows, p);
      if rows[0].key != KeyOf(p) {
        UpsertExtremes(rows[1..], p, s);
      }
    }
  }

  // ---------------------------------------------------------------- the roll-up

  /** The stored hour tells which packets belong to a selection. */
  ghost predicate Datable(p: Packet) {
    p.ts >= 0 || HourOf(p.ts) % DAY == 0
  }

  lemma SelectionsAgree(s: Selection, p: Packet)
    requires s.daily ==> Datable(p)
    ensures Selects(s, KeyOf(p)) <==> DirectSelects(s, p)
    ensures GroupOf(s.daily, KeyOf(p)) == DirectGroup(s.daily, p)
  {
    DayOfHour(p.ts);
  }

  lemma {:induction false} SumsRollUp(history: seq<Packet>, s: Selection)
    requires s.daily ==> forall p :: p in history ==> Datable(p)
    ensures var rows, ps := Replay(history), Chosen(history, s);
      && SumCount(rows, s) == |ps| && SumBytes(rows, s) == TotalBytes(ps)
      && SumSnr(rows, s) == Snrs(ps) && SumRssi(rows, s) == Rssis(ps)
  {
    hide Selects, DirectSelects, Upsert, SumCount, SumBytes, SumSnr, SumRssi, Datable;
    if history == [] {
      NoRowsNoSums(s);
    } else {
      var before, p := history[..|history| - 1], history[|history| - 1];
      assert p in history;
      assert forall q :: q in before ==> q in history;
      SumsRollUp(before, s);
      UpsertSums(Replay(before), p, s);
      SelectionsAgree(s, p);
      ChosenStep(history, s);
    }
  }

  lemma NoRowsNoSums(s: Selection)
    ensures SumCount([], s) == 0 && SumBytes([], s) == 0 && SumSnr([], s) == 0.0 && SumRssi([], s) == 0.0
  {
  }

  lemma ChosenStep(history: seq<Packet>, s: Selection)
    requires history != []
    ensures var ps, qs, p := Chosen(history[..|history| - 1], s), Chosen(history, s), history[|history| - 1];
      if DirectSelects(s, p)
      then qs == ps + [p] && TotalBytes(qs) == TotalBytes(ps) + p.payloadLen && Snrs(qs) == Snrs(ps) + OrZero(p.snr)
        && Rssis(qs) == Rssis(ps) + RssiOf(p)
        && LeastSnr(qs) == SkipMin(LeastSnr(ps), p.snr) && GreatestSnr(qs) == SkipMax(GreatestSnr(ps), p.snr)
      else qs == ps
  {
    hide DirectSelects;
    var ps, p := Chosen(history[..|history| - 1], s), history[|history| - 1];
    assert (ps + [p])[..|ps|] == ps;
    assert ps + [] == ps;
  }

  lemma {:induction false} ExtremesRollUp(history: seq<Packet>, s: Selection)
    requires s.daily ==> forall p :: p in history ==> Datable(p)
    requires forall p :: p in history && DirectSelects(s, p) ==> p.snr.Some?
    ensures MinSnr(Replay(history), s) == LeastSnr(Chosen(history, s))
    ensures MaxSnr(Replay(history), s) == GreatestSnr(Chosen(history, s))
  {
    hide Selects, DirectSelects, Upsert, Datable;
    if history != [] {
      var before, p := history[..|history| - 1], history[|history| - 1];
      assert p in history;
      assert forall q :: q in before ==> q in history;
      ExtremesRollUp(before, s);
      SelectionsAgree(s, p);
      UpsertExtremes(Replay(before), p, s);
      ChosenStep(history, s);
    }
  }

  /** The groups that occur among the rows are those that occur among the packets. */
  lemma {:induction false} KeysOfReplay(history: seq<Packet>, k: Key)
    ensures (exists r :: r in Replay(history) && r.key == k) <==> (exists p :: p in history && KeyOf(p) == k)
  {
    hide KeyOf;
    if history != [] {
      var before, p := history[..|history| - 1], history[|history| - 1];
      assert history == before + [p];
      KeysOfReplay(before, k);
      KeysOfUpsert(Replay(before), p, k);
    }
  }

  lemma {:induction false} KeysOfUpsert(rows: seq<HourRow>, p: Packet, k: Key)
    ensures (exists r :: r in Upsert(rows, p) && r.key == k) <==> KeyOf(p) == k || exists r :: r in rows && r.key == k
  {
    hide KeyOf;
    if rows == [] {
      assert NewRow(p) in Upsert(rows, p) && NewRow(p).key == KeyOf(p);
    } else {
      var rest := rows[1..];
      assert rows == [rows[0]] + rest;
      if rows[0].key == KeyOf(p) {
        assert Merge(rows[0], p) in Upsert(rows, p);
        assert rows[0] in rows;
        assert forall r :: r in Upsert(rows, p) ==> r == Merge(rows[0], p) || r in rest;
        assert forall r :: r in rest ==> r in Upsert(rows, p);
      } else {
        KeysOfUpsert(rest, p, k);
        assert Upsert(rows, p) == [rows[0]] + Upsert(rest, p);
      }
    }
  }

  /** Two statistics that agree on everything but the extremes. */
  predicate SameSums(a: Stat, b: Stat) {
    a.count == b.count && a.totalBytes == b.totalBytes && a.avgSnr == b.avgSnr && a.avgRssi == b.avgRssi
  }

  /** Every packet of the group carried an SNR. */
  ghost predicate SnrComplete(history: seq<Packet>, s: Selection) {
    forall p :: p in history && DirectSelects(s, p) ==> p.snr.Some?
  }

  lemma OneGroup(history: seq<Packet>, s: Selection)
    requires s.daily ==> forall p :: p in history ==> Datable(p)
    ensures var a, b := StatOf(Replay(history), s), DirectStat(Chosen(history, s));
      SameSums(a, b) && (SnrComplete(history, s) ==> a == b)
  {
    SumsRollUp(history, s);
    if SnrComplete(history, s) {
      ExtremesRollUp(history, s);
    }
  }

  /**
   For every history of packets and every range, the statistics computed from the hourly rows are
   those of the packets themselves: the same groups, counts, bytes and averages, and the same
   extremes for each group in which every packet carried an SNR. Daily grouping asks for datable
   packets; hourly grouping asks for nothing.
   */
  lemma StatsRefineDirectGrouping(history: seq<Packet>, after: int, before: int, daily: bool)
    requires daily ==> forall p :: p in history ==> Datable(p)
    ensures
      var rolled, direct := Stats(Replay(history), after, before, daily), DirectStats(history, after, before, daily);
      && rolled.Keys == direct.Keys
      && forall g :: g in direct ==>
           && rolled[g].count == direct[g].count && rolled[g].totalBytes == direct[g].totalBytes
           && rolled[g].avgSnr == direct[g].avgSnr && rolled[g].avgRssi == direct[g].avgRssi
           && (SnrComplete(history, Selection(after, before, daily, g)) ==> rolled[g] == direct[g])
  {
    hide SnrComplete, StatOf, DirectStat, Datable, Groups, DirectGroups;
    SameGroups(history, after, before, daily);
    var rolled, direct := Stats(Replay(history), after, before, daily), DirectStats(history, after, before, daily);
    forall g | g in direct
      ensures SameSums(rolled[g], direct[g])
      ensures SnrComplete(history, Selection(after, before, daily, g)) ==> rolled[g] == direct[g]
    {
      OneGroup(history, Selection(after, before, daily, g));
    }
  }

  lemma SameGroups(history: seq<Packet>, after: int, before: int, daily: bool)
    requires daily ==> forall p :: p in history ==> Datable(p)
    ensures Groups(Replay(history), after, before, daily) == DirectGroups(history, after, before, daily)
  {
    hide InRange, GroupOf, DirectGroup, Datable;
    var rows := Replay(history);
    forall r | r in rows
      ensures exists p :: p in history && KeyOf(p) == r.key && GroupOf(daily, r.key) == DirectGroup(daily, p)
    {
      KeysOfReplay(history, r.key);
      var p :| p in history && KeyOf(p) == r.key;
      SelectionsAgree(Selection(after, before, daily, r.key), p);
    }
    forall p | p in history
      ensures exists r :: r in rows && r.key == KeyOf(p) && GroupOf(daily, r.key) == DirectGroup(daily, p)
    {
      KeysOfReplay(history, KeyOf(p));
      var r :| r in rows && r.key == KeyOf(p);
      SelectionsAgree(Selection(after, before, daily, r.key), p);
    }
  }
}
