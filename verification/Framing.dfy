/**
 The byte-stream framing between the proxy and its clients: start byte, length
 (two bytes, little endian), payload. `FrameParser` is the incremental,
 resynchronising parser of proxy.py; `Parse` is a byte-at-a-time reference for it.
 */
module Framing {
  import opened Bytes

  const MAX_FRAME_SIZE := 300

  datatype Parsed = Parsed(frames: seq<Bytes>, rest: Bytes)

  /** The payload length announced by a complete header. */
  function Size(buf: Bytes): nat
    requires |buf| >= 3
  {
    FromLE16(buf[1..3])
  }

  /** No frame can start at the head of `buf`, whatever bytes follow. */
  predicate Rejected(start: byte, buf: Bytes) {
    |buf| > 0 && (buf[0] != start || (|buf| >= 3 && !(1 <= Size(buf) <= MAX_FRAME_SIZE)))
  }

  /** A frame may start at the head of `buf` but is not complete yet. */
  predicate Waiting(start: byte, buf: Bytes) {
    || buf == []
    || (buf[0] == start && (|buf| < 3 || (1 <= Size(buf) <= MAX_FRAME_SIZE && |buf| < 3 + Size(buf))))
  }

  function Parse(start: byte, buf: Bytes): Parsed
    decreases |buf|
  {
    if Waiting(start, buf) then Parsed([], buf)
    else if Rejected(start, buf) then Parse(start, buf[1..])
    else Prepend([buf[3..3 + Size(buf)]], Parse(start, buf[3 + Size(buf)..]))
  }

  function Prepend(frames: seq<Bytes>, p: Parsed): Parsed {
    Parsed(frames + p.frames, p.rest)
  }

  // ---------------------------------------------------------------- the parser object

  /** `bytearray.find` for one byte. */
  function Find(start: byte, buf: Bytes): (i: int)
    ensures -1 <= i < |buf|
    ensures i < 0 ==> start !in buf
    ensures i >= 0 ==> buf[i] == start && start !in buf[..i]
  {
    if buf == [] then -1
    else if buf[0] == start then 0
    else
      var i := Find(start, buf[1..]);
      assert i >= 0 ==> buf[..i + 1] == [buf[0]] + buf[1..][..i];
      if i < 0 then -1 else i + 1
  }

  class FrameParser {
    const start: byte
    var buf: Bytes

    constructor (start: byte)
      ensures this.start == start && buf == []
    {
      this.start := start;
      buf := [];
    }

    method Feed(data: Bytes) returns (frames: seq<Bytes>)
      modifies this
      ensures Parsed(frames, buf) == Parse(start, old(buf) + data)
    {
      hide Parse, FromLE16;
      buf := buf + data;
      frames := [];
      ghost var stream := buf;
      while true
        invariant Parse(start, stream) == Prepend(frames, Parse(start, buf))
        decreases |buf|
      {
        var idx := Find(start, buf);
        SkipJunk(start, buf, if idx < 0 then |buf| else idx);
        assert idx < 0 ==> buf[|buf|..] == [];
        ParseDef(start, []);
        if idx < 0 {
          buf := [];
          break;
        }
        if idx > 0 {
          buf := buf[idx..];
        }
        ParseDef(start, buf);
        if |buf| < 3 {
          break;
        }
        var size := Size(buf);
        if size == 0 || size > MAX_FRAME_SIZE {
          buf := buf[1..];
          continue;
        }
        if |buf| < 3 + size {
          break;
        }
        frames := frames + [buf[3..3 + size]];
        buf := buf[3 + size..];
      }
    }
  }

  /** One unfolding of `Parse`. */
  lemma ParseDef(start: byte, buf: Bytes)
    ensures Parse(start, buf) ==
      if Waiting(start, buf) then Parsed([], buf)
      else if Rejected(start, buf) then Parse(start, buf[1..])
      else Prepend([buf[3..3 + Size(buf)]], Parse(start, buf[3 + Size(buf)..]))
  {
  }

  /** Bytes other than the start byte can be discarded in one go. */
  lemma {:induction false} SkipJunk(start: byte, buf: Bytes, n: nat)
    requires n <= |buf| && start !in buf[..n]
    ensures Parse(start, buf) == Parse(start, buf[n..])
  {
    hide Parse, Size;
    ParseDef(start, buf);
    if n == 0 {
      assert buf[0..] == buf;
    } else {
      assert buf[0] == buf[..n][0];
      assert buf[1..][..n - 1] == buf[..n][1..];
      SkipJunk(start, buf[1..], n - 1);
      assert buf[1..][n - 1..] == buf[n..];
    }
  }

  // ---------------------------------------------------------------- chunking invariance

  /** What a parser holding `buf` returns over a series of `Feed` calls. */
  function FeedAll(start: byte, buf: Bytes, chunks: seq<Bytes>): Parsed
    decreases |chunks|
  {
    if chunks == [] then Parsed([], buf)
    else
      var p := Parse(start, buf + chunks[0]);
      Prepend(p.frames, FeedAll(start, p.rest, chunks[1..]))
  }

  function Concat(chunks: seq<Bytes>): Bytes {
    if chunks == [] then [] else chunks[0] + Concat(chunks[1..])
  }

  /** Parsing can stop after any prefix and resume from the residual. */
  lemma {:induction false} ParseAppend(start: byte, a: Bytes, b: Bytes)
    ensures Parse(start, a + b) == Prepend(Parse(start, a).frames, Parse(start, Parse(start, a).rest + b))
    decreases |a|
  {
    hide Parse, FromLE16;
    ParseDef(start, a);
    ParseDef(start, a + b);
    if Waiting(start, a) {
      assert Prepend([], Parse(start, a + b)) == Parse(start, a + b);
    } else if Rejected(start, a) {
      assert (a + b)[1..] == a[1..] + b;
      HeaderOfPrefix(a, b);
      ParseAppend(start, a[1..], b);
    } else {
      HeaderOfPrefix(a, b);
      var n := 3 + Size(a);
      assert (a + b)[n..] == a[n..] + b;
      assert (a + b)[3..n] == a[3..n];
      ParseAppend(start, a[n..], b);
      var p, q := Parse(start, a[n..]), Parse(start, Parse(start, a[n..]).rest + b);
      assert [a[3..n]] + (p.frames + q.frames) == ([a[3..n]] + p.frames) + q.frames;
    }
  }

  lemma ResumeAfter(start: byte, buf: Bytes, a: Bytes, b: Bytes)
    ensures Parse(start, buf + (a + b))
         == Prepend(Parse(start, buf + a).frames, Parse(start, Parse(start, buf + a).rest + b))
  {
    hide Parse;
    ParseAppend(start, buf + a, b);
    assert buf + (a + b) == (buf + a) + b;
  }

  lemma HeaderOfPrefix(a: Bytes, b: Bytes)
    ensures |a| >= 3 ==> Size(a + b) == Size(a)
  {
    if |a| >= 3 {
      assert (a + b)[1..3] == a[1..3];
    }
  }

  /** Feeding a stream in pieces gives the frames and the residual of feeding it at once. */
  lemma {:induction false} ChunkingInvariance(start: byte, buf: Bytes, chunks: seq<Bytes>)
    requires chunks != []
    ensures FeedAll(start, buf, chunks) == Parse(start, buf + Concat(chunks))
    decreases |chunks|
  {
    var p := Parse(start, buf + chunks[0]);
    if |chunks| == 1 {
      assert chunks == [chunks[0]];
      assert chunks[0] + Concat([]) == chunks[0];
      assert Prepend(p.frames, Parsed([], p.rest)) == p;
    } else {
      ChunkingInvariance(start, p.rest, chunks[1..]);
      ResumeAfter(start, buf, chunks[0], Concat(chunks[1..]));
    }
  }

  // ---------------------------------------------------------------- decomposition

  /** A stream cut up: single discarded bytes and framed payloads. */
  datatype Segment = Junk(b: byte) | Framed(payload: Bytes)

  /** The framing of `_Client.send_frame`; `to_bytes(2)` bounds the length. */
  function Encode(start: byte, payload: Bytes): Bytes
    requires |payload| < 0x1_0000
  {
    [start] + LE16(|payload|) + payload
  }

  /**
   `segs` followed by `rest` spells `buf`; every junk byte stands where no acceptable header
   starts, every frame is of an allowed size, and `rest` is only an unfinished frame.
   */
  ghost predicate Decomposes(start: byte, buf: Bytes, segs: seq<Segment>, rest: Bytes)
    decreases |segs|
  {
    if segs == [] then buf == rest && Waiting(start, rest)
    else match segs[0]
      case Junk(b) => Rejected(start, buf) && buf[0] == b && Decomposes(start, buf[1..], segs[1..], rest)
      case Framed(p) =>
        && 1 <= |p| <= MAX_FRAME_SIZE
        && Encode(start, p) <= buf
        && Decomposes(start, buf[|Encode(start, p)|..], segs[1..], rest)
  }

  function Payloads(segs: seq<Segment>): seq<Bytes> {
    if segs == [] then []
    else (if segs[0].Framed? then [segs[0].payload] else []) + Payloads(segs[1..])
  }

  function Spell(start: byte, segs: seq<Segment>): Bytes
    requires forall s :: s in segs && s.Framed? ==> |s.payload| < 0x1_0000
  {
    if segs == [] then []
    else (match segs[0] case Junk(b) => [b] case Framed(p) => Encode(start, p)) + Spell(start, segs[1..])
  }

  /** Every decomposition of a stream yields exactly the parser's frames and residual. */
  lemma {:induction false} DecompositionIsUnique(start: byte, buf: Bytes, segs: seq<Segment>, rest: Bytes)
    requires Decomposes(start, buf, segs, rest)
    ensures Parse(start, buf) == Parsed(Payloads(segs), rest)
    decreases |segs|
  {
    if segs != [] {
      match segs[0] {
        case Junk(b) =>
          DecompositionIsUnique(start, buf[1..], segs[1..], rest);
          assert Payloads(segs) == Payloads(segs[1..]);
        case Framed(p) =>
          EncodedHead(start, p, buf);
          DecompositionIsUnique(start, buf[3 + |p|..], segs[1..], rest);
      }
    }
  }

  /** The parser's own decomposition of a stream. */
  function Cut(start: byte, buf: Bytes): seq<Segment>
    decreases |buf|
  {
    if Waiting(start, buf) then []
    else if Rejected(start, buf) then [Junk(buf[0])] + Cut(start, buf[1..])
    else [Framed(buf[3..3 + Size(buf)])] + Cut(start, buf[3 + Size(buf)..])
  }

  /** Conservation: the parser's work is a decomposition of the whole stream. */
  lemma {:induction false} StreamDecomposes(start: byte, buf: Bytes)
    ensures Decomposes(start, buf, Cut(start, buf), Parse(start, buf).rest)
    ensures Payloads(Cut(start, buf)) == Parse(start, buf).frames
    decreases |buf|
  {
    if Waiting(start, buf) {
    } else if Rejected(start, buf) {
      var rest := buf[1..];
      StreamDecomposes(start, rest);
      DecomposesCons(start, buf, Junk(buf[0]), Cut(start, rest), rest, Parse(start, rest).rest);
    } else {
      var n := 3 + Size(buf);
      var rest := buf[n..];
      StreamDecomposes(start, rest);
      EncodedSlice(start, buf);
      DecomposesCons(start, buf, Framed(buf[3..n]), Cut(start, rest), rest, Parse(start, rest).rest);
    }
  }

  lemma DecomposesCons(start: byte, buf: Bytes, seg: Segment, segs: seq<Segment>, tail: Bytes, rest: Bytes)
    requires Decomposes(start, tail, segs, rest)
    requires match seg
      case Junk(b) => Rejected(start, buf) && buf[0] == b && tail == buf[1..]
      case Framed(p) =>
        1 <= |p| <= MAX_FRAME_SIZE && Encode(start, p) <= buf && tail == buf[|Encode(start, p)|..]
    ensures Decomposes(start, buf, [seg] + segs, rest)
    ensures Payloads([seg] + segs) == (if seg.Framed? then [seg.payload] else []) + Payloads(segs)
  {
    assert ([seg] + segs)[1..] == segs;
  }

  lemma EncodedSlice(start: byte, buf: Bytes)
    requires |buf| >= 3 && buf[0] == start && 3 + Size(buf) <= |buf|
    ensures Encode(start, buf[3..3 + Size(buf)]) == buf[..3 + Size(buf)]
  {
    var n := 3 + Size(buf);
    assert LE16(Size(buf)) == buf[1..3];
    assert buf[..n] == [buf[0]] + buf[1..3] + buf[3..n];
  }

  /** A decomposition spells its stream: no byte is lost, repeated or moved. */
  lemma {:induction false} DecompositionSpells(start: byte, buf: Bytes, segs: seq<Segment>, rest: Bytes)
    requires Decomposes(start, buf, segs, rest)
    ensures forall s :: s in segs && s.Framed? ==> 1 <= |s.payload| <= MAX_FRAME_SIZE
    ensures buf == Spell(start, segs) + rest
    decreases |segs|
  {
    hide FromLE16, Waiting, Encode;
    if segs != [] {
      assert segs == [segs[0]] + segs[1..];
      var tail := if segs[0].Junk? then buf[1..] else buf[|Encode(start, segs[0].payload)|..];
      DecompositionSpells(start, tail, segs[1..], rest);
      var head := if segs[0].Junk? then [segs[0].b] else Encode(start, segs[0].payload);
      assert buf == head + tail;
      var spelt := Spell(start, segs[1..]);
      assert head + (spelt + rest) == (head + spelt) + rest;
    }
  }

  lemma EncodedHead(start: byte, p: Bytes, buf: Bytes)
    requires 1 <= |p| <= MAX_FRAME_SIZE && Encode(start, p) <= buf
    ensures |Encode(start, p)| == 3 + |p| <= |buf|
    ensures !Waiting(start, buf) && !Rejected(start, buf)
    ensures Size(buf) == |p| && buf[3..3 + |p|] == p
  {
    var e := Encode(start, p);
    assert e == buf[..|e|];
    assert buf[1..3] == e[1..3] == LE16(|p|);
    assert buf[3..3 + |p|] == e[3..] == p;
  }

  /** What the parser keeps between calls is an unfinished frame of at most 302 bytes. */
  lemma {:induction false} ResidualIsBounded(start: byte, buf: Bytes)
    ensures Waiting(start, Parse(start, buf).rest)
    ensures |Parse(start, buf).rest| <= 302
    ensures forall f :: f in Parse(start, buf).frames ==> 1 <= |f| <= 300
    decreases |buf|
  {
    if Waiting(start, buf) {
    } else if Rejected(start, buf) {
      ResidualIsBounded(start, buf[1..]);
    } else {
      ResidualIsBounded(start, buf[3 + Size(buf)..]);
    }
  }

  // ---------------------------------------------------------------- round trip

  function EncodeAll(start: byte, payloads: seq<Bytes>): Bytes
    requires forall p :: p in payloads ==> |p| < 0x1_0000
  {
    if payloads == [] then [] else Encode(start, payloads[0]) + EncodeAll(start, payloads[1..])
  }

  /** Printed frames, cut up in any way, parse back to the payloads with nothing left over. */
  lemma {:induction false} RoundTrip(start: byte, payloads: seq<Bytes>, chunks: seq<Bytes>)
    requires forall p :: p in payloads ==> 1 <= |p| <= MAX_FRAME_SIZE
    requires chunks != [] && Concat(chunks) == EncodeAll(start, payloads)
    ensures FeedAll(start, [], chunks) == Parsed(payloads, [])
  {
    ChunkingInvariance(start, [], chunks);
    assert [] + Concat(chunks) == EncodeAll(start, payloads);
    ParseEncoded(start, payloads);
  }

  lemma {:induction false} ParseEncoded(start: byte, payloads: seq<Bytes>)
    requires forall p :: p in payloads ==> 1 <= |p| <= MAX_FRAME_SIZE
    ensures Parse(start, EncodeAll(start, payloads)) == Parsed(payloads, [])
    decreases |payloads|
  {
    if payloads != [] {
      var buf := EncodeAll(start, payloads);
      EncodedHead(start, payloads[0], buf);
      assert buf[3 + |payloads[0]|..] == EncodeAll(start, payloads[1..]);
      ParseEncoded(start, payloads[1..]);
      assert [payloads[0]] + payloads[1..] == payloads;
    }
  }

  /** The sizes the parser accepts are exactly those a printed frame survives. */
  lemma SurvivesExactlyWhen(start: byte, payload: Bytes)
    requires |payload| < 0x1_0000
    ensures Parse(start, Encode(start, payload)) == Parsed([payload], []) <==> 1 <= |payload| <= 300
  {
    if 1 <= |payload| <= MAX_FRAME_SIZE {
      ParseEncoded(start, [payload]);
      assert Encode(start, payload) + EncodeAll(start, []) == Encode(start, payload);
    } else {
      ResidualIsBounded(start, Encode(start, payload));
      assert payload in [payload];
    }
  }
}
