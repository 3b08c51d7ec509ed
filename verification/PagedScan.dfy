/**
 `PacketStore.iter_payloads` (storage/repositories.py) while other tasks go on writing: between two
 pages, any packets may be logged, pruned or logged again under an id that a prune set free.
 */
module PagedScan {
  import opened Bytes
  import opened PacketLog
  import opened PacketRetention

  /** The arguments of a scan. */
  datatype Query = Query(payloadType: int, after: int, before: int, batch: nat)

  datatype Scan = Scan(packets: seq<Packet>, lastId: nat, yielded: seq<Packet>, done: bool)

  datatype Event =
    | Page                              // the next query, and its rows yielded
    | Interfere(packets: seq<Packet>)   // whatever other tasks make of the table

  predicate Matches(q: Query, p: Packet) {
    Passes(Wanted(q.payloadType, q.after, q.before, 0), p)
  }

  function Rest(q: Query, s: Scan): seq<Packet> {
    Select(s.packets, Wanted(q.payloadType, q.after, q.before, s.lastId))
  }

  ghost predicate Allowed(s: Scan, e: Event) {
    match e
    case Page => !s.done
    case Interfere(packets) => Ordered(packets)
  }

  function After(q: Query, s: Scan, e: Event): Scan
    requires q.batch >= 1
  {
    match e
    case Interfere(packets) => s.(packets := packets)
    case Page =>
      var left := Rest(q, s);
      if |left| < q.batch then s.(yielded := s.yielded + left, done := true)
      else s.(yielded := s.yielded + left[..q.batch], lastId := left[q.batch - 1].id)
  }

  /** Between two pages the table may become anything. */
  lemma TableIsFree(q: Query, s: Scan, packets: seq<Packet>)
    requires q.batch >= 1 && Ordered(packets)
    ensures Allowed(s, Interfere(packets)) && After(q, s, Interfere(packets)) == s.(packets := packets)
  {
  }

  ghost predicate Scans(q: Query, s: Scan, events: seq<Event>, t: Scan)
    requires q.batch >= 1
    decreases |events|
  {
    if events == [] then s == t
    else Allowed(s, events[0]) && Scans(q, After(q, s, events[0]), events[1..], t)
  }

  /** The row is in the table all along. */
  ghost predicate Throughout(q: Query, s: Scan, events: seq<Event>, p: Packet)
    requires q.batch >= 1
    decreases |events|
  {
    p in s.packets && (events != [] ==> Throughout(q, After(q, s, events[0]), events[1..], p))
  }

  ghost predicate Ascending(ps: seq<Packet>) {
    forall i, j :: 0 <= i < j < |ps| ==> ps[i].id < ps[j].id
  }

  ghost predicate AllMatch(q: Query, ps: seq<Packet>) {
    forall i :: 0 <= i < |ps| ==> Matches(q, ps[i])
  }

  ghost predicate UpTo(ps: seq<Packet>, id: nat) {
    forall i :: 0 <= i < |ps| ==> ps[i].id <= id
  }

  ghost predicate Sound(q: Query, s: Scan) {
    Ordered(s.packets) && Ascending(s.yielded) && AllMatch(q, s.yielded) && (!s.done ==> UpTo(s.yielded, s.lastId))
  }

  /** The scan has yielded the row or is still to come to it. */
  ghost predicate Covered(s: Scan, p: Packet) {
    p in s.yielded || (!s.done && p.id > s.lastId)
  }

  lemma RestMeaning(q: Query, s: Scan)
    requires Ordered(s.packets)
    ensures Ordered(Rest(q, s))
    ensures forall p :: p in Rest(q, s) <==> p in s.packets && Matches(q, p) && p.id > s.lastId
  {
    SelectOrdered(s.packets, Wanted(q.payloadType, q.after, q.before, s.lastId));
    SelectMeaning(s.packets, Wanted(q.payloadType, q.after, q.before, s.lastId));
  }

  lemma PageAppends(q: Query, yielded: seq<Packet>, lastId: nat, page: seq<Packet>)
    requires Ascending(yielded) && UpTo(yielded, lastId) && AllMatch(q, yielded)
    requires Ascending(page) && AllMatch(q, page) && forall i :: 0 <= i < |page| ==> page[i].id > lastId
    ensures Ascending(yielded + page) && AllMatch(q, yielded + page)
    ensures page != [] ==> UpTo(yielded + page, page[|page| - 1].id)
  {
    hide Matches;
  }

  lemma PageKeepsSound(q: Query, s: Scan)
    requires q.batch >= 1 && Sound(q, s) && !s.done
    ensures Sound(q, After(q, s, Page))
  {
    RestMeaning(q, s);
    hide Rest, Matches, UpTo;
    var left := Rest(q, s);
    var page := if |left| < q.batch then left else left[..q.batch];
    assert forall i :: 0 <= i < |page| ==> page[i] == left[i] && left[i] in left;
    PageAppends(q, s.yielded, s.lastId, page);
  }

  lemma PageKeepsCovered(q: Query, s: Scan, p: Packet)
    requires q.batch >= 1 && Sound(q, s) && !s.done && p in s.packets && Matches(q, p) && Covered(s, p)
    ensures Covered(After(q, s, Page), p)
  {
    RestMeaning(q, s);
    hide Rest, Matches;
    var left := Rest(q, s);
    if p !in s.yielded {
      var i :| 0 <= i < |left| && left[i] == p;
      if |left| >= q.batch && i < q.batch {
        assert left[..q.batch][i] == p;
      }
    }
  }

  lemma {:induction false} ScanStaysSound(q: Query, s: Scan, events: seq<Event>, t: Scan)
    requires q.batch >= 1 && Sound(q, s) && Scans(q, s, events, t)
    ensures Sound(q, t)
    decreases |events|
  {
    hide Sound;
    if events != [] {
      StepKeepsSound(q, s, events[0]);
      ScanStaysSound(q, After(q, s, events[0]), events[1..], t);
    }
  }

  lemma StepKeepsSound(q: Query, s: Scan, e: Event)
    requires q.batch >= 1 && Sound(q, s) && Allowed(s, e)
    ensures Sound(q, After(q, s, e))
  {
    hide Matches, Ascending, AllMatch, UpTo;
    if e.Page? {
      PageKeepsSound(q, s);
    }
  }

  lemma {:induction false} ScanKeepsCovering(q: Query, s: Scan, events: seq<Event>, t: Scan, p: Packet)
    requires q.batch >= 1 && Sound(q, s) && Scans(q, s, events, t)
    requires Throughout(q, s, events, p) && Matches(q, p) && Covered(s, p)
    ensures Covered(t, p)
    decreases |events|
  {
    hide Sound, Matches;
    if events != [] {
      StepKeepsSound(q, s, events[0]);
      if events[0].Page? {
        PageKeepsCovered(q, s, p);
      }
      ScanKeepsCovering(q, After(q, s, events[0]), events[1..], t, p);
    }
  }

  /**
   Whatever is written between the pages: the rows yielded all match and come in strictly increasing
   id order, so none comes twice, and a finished scan has yielded every matching row that was in the
   table all along.
   */
  lemma ScanMissesNothingThatStays(q: Query, packets: seq<Packet>, events: seq<Event>, t: Scan)
    requires q.batch >= 1 && Ordered(packets) && Scans(q, Scan(packets, 0, [], false), events, t) && t.done
    ensures Ascending(t.yielded) && AllMatch(q, t.yielded)
    ensures forall p :: Throughout(q, Scan(packets, 0, [], false), events, p) && Matches(q, p) ==> p in t.yielded
  {
    hide Matches, Scans;
    var start := Scan(packets, 0, [], false);
    ScanStaysSound(q, start, events, t);
    forall p | Throughout(q, start, events, p) && Matches(q, p)
      ensures p in t.yielded
    {
      ScanKeepsCovering(q, start, events, t, p);
    }
  }

  // ---------------------------------------------------------------- the scan as a loop

  /**
   `iter_payloads`, where `tables` is what each of its queries finds. It reads the first `pages` of
   them, the last of which, if it is `done`, gave less than a full page.
   */
  method IterPayloads(q: Query, tables: seq<seq<Packet>>) returns (yielded: seq<Packet>, pages: nat, done: bool)
    requires q.batch >= 1 && forall i :: 0 <= i < |tables| ==> Ordered(tables[i])
    ensures pages <= |tables| && (!done ==> pages == |tables|)
    ensures Ascending(yielded) && AllMatch(q, yielded)
    ensures forall p :: p in yielded ==> exists i :: 0 <= i < pages && p in tables[i]
    ensures done ==>
      forall p :: Matches(q, p) && (forall i :: 0 <= i < pages ==> p in tables[i]) ==> p in yielded
    ensures !done ==> |yielded| == pages * q.batch
  {
    hide Matches, Ordered, Rest, Ascending, AllMatch, UpTo;
    NothingYielded(q);
    var lastId: nat := 0;
    yielded, pages, done := [], 0, false;
    while pages < |tables| && !done
      invariant pages <= |tables| && Ascending(yielded) && AllMatch(q, yielded)
      invariant !done ==> UpTo(yielded, lastId) && |yielded| == pages * q.batch
      invariant forall p :: p in yielded ==> exists i :: 0 <= i < pages && p in tables[i]
      invariant forall p :: Matches(q, p) && (forall i :: 0 <= i < pages ==> p in tables[i]) ==>
                  Covered(Scan([], lastId, yielded, done), p)
      decreases |tables| - pages
    {
      var scan := Scan(tables[pages], lastId, yielded, false);
      var left := Rest(q, scan);
      PageCovers(q, scan);
      assert (pages + 1) * q.batch == pages * q.batch + q.batch;
      if |left| < q.batch {
        yielded, done := yielded + left, true;
      } else {
        yielded, lastId := yielded + left[..q.batch], left[q.batch - 1].id;
      }
      pages := pages + 1;
    }
  }

  lemma NothingYielded(q: Query)
    ensures Ascending([]) && AllMatch(q, []) && UpTo([], 0)
    ensures forall p :: Matches(q, p) ==> p.id > 0
  {
  }

  /** One page, all that the loop needs. */
  lemma PageCovers(q: Query, s: Scan)
    requires q.batch >= 1 && Sound(q, s) && !s.done
    ensures var t := After(q, s, Page);
      && Sound(q, t)
      && (!t.done ==> |t.yielded| == |s.yielded| + q.batch)
      && (forall p :: p in t.yielded ==> p in s.yielded || p in s.packets)
      && forall p :: p in s.packets && Matches(q, p) && Covered(s, p) ==> Covered(t, p)
  {
    hide Matches, Sound, Covered;
    PageKeepsSound(q, s);
    assert Ordered(s.packets) by { SoundIsOrdered(q, s); }
    RestMeaning(q, s);
    hide Rest;
    forall p | p in s.packets && Matches(q, p) && Covered(s, p)
      ensures Covered(After(q, s, Page), p)
    {
      PageKeepsCovered(q, s, p);
    }
  }

  lemma SoundIsOrdered(q: Query, s: Scan)
    requires Sound(q, s)
    ensures Ordered(s.packets)
  {
  }
}
