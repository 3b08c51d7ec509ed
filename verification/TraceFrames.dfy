/**
 Zero-hop trace probes on the wire (ping.py): the route of a probe, and the PUSH_TRACE frame that
 answers it: type, reserved, path bytes, flags, tag, auth, hashes, SNRs, final SNR.
 */
module TraceFrames {
  import opened Bytes

  const PUSH_TRACE: byte := 0x89

  // ---------------------------------------------------------------- the route

  datatype Contact = Contact(kind: int, key: Bytes)

  datatype RouteError = BadWidth | NotPingable | BadKey

  datatype Route = Ok(route: Bytes) | Error(error: RouteError)

  /** The flags a probe can have: they announce hashes of 1, 2 or 4 bytes. */
  type TraceFlags = f: nat | f <= 2

  /** `TRACE_FLAGS` */
  function FlagsFor(width: int): Option<TraceFlags> {
    if width == 1 then Some(0) else if width == 2 then Some(1) else if width == 4 then Some(2) else None
  }

  /** `1 << flags` */
  function Width(flags: TraceFlags): nat {
    if flags == 0 then 1 else if flags == 1 then 2 else 4
  }

  function TraceRoute(contact: Contact, width: int): Route {
    if FlagsFor(width).None? then Error(BadWidth)
    else if contact.kind !in {2, 3} then Error(NotPingable)
    else if |contact.key| != 32 then Error(BadKey)
    else Ok(contact.key[..width])
  }

  /**
   A repeater or room server with a full key can be pinged with 1, 2 or 4 bytes, and nothing else
   can. The route is one hash of the width its flags announce: the trace has exactly one hop.
   */
  lemma RouteIsOneHash(contact: Contact, width: int)
    ensures TraceRoute(contact, width).Ok? <==> width in {1, 2, 4} && contact.kind in {2, 3} && |contact.key| == 32
    ensures TraceRoute(contact, width).Ok? ==>
      var route, flags := TraceRoute(contact, width).route, FlagsFor(width).value;
      route <= contact.key && |route| == width == Width(flags) && Hops(route, flags) == 1
  {
  }

  // ---------------------------------------------------------------- the frame

  type int8 = v: int | -128 <= v < 128

  function Unsigned(v: int8): byte {
    if v >= 0 then v else v + 256
  }

  function Signed(b: byte): int8 {
    if b < 128 then b else b - 256
  }

  function PackSigned(vs: seq<int8>): Bytes {
    if vs == [] then [] else [Unsigned(vs[0])] + PackSigned(vs[1..])
  }

  /** `struct.unpack("<n>b")` */
  function UnpackSigned(b: Bytes): seq<int8> {
    if b == [] then [] else [Signed(b[0])] + UnpackSigned(b[1..])
  }

  /** SNRs are sent in quarters. */
  function Quarters(vs: seq<int8>): seq<real> {
    if vs == [] then [] else [vs[0] as real / 4.0] + Quarters(vs[1..])
  }

  lemma {:induction false} QuartersMeaning(vs: seq<int8>)
    ensures |Quarters(vs)| == |vs|
    ensures forall i :: 0 <= i < |vs| ==> Quarters(vs)[i] * 4.0 == vs[i] as real
  {
    if vs != [] {
      QuartersMeaning(vs[1..]);
    }
  }

  /** SNR bytes before the final one: `len(route) // (1 << flags)`. */
  function Hops(route: Bytes, flags: TraceFlags): nat {
    |route| / Width(flags)
  }

  /** The two values a probe is recognised by. */
  datatype Token = Token(tag: nat, auth: nat)

  predicate Wide(t: Token) {
    t.tag < 0x1_0000_0000 && t.auth < 0x1_0000_0000
  }

  function PushTrace(reserved: byte, flags: byte, token: Token, route: Bytes, snrs: seq<int8>): Bytes
    requires Wide(token) && |route| < 256
  {
    [PUSH_TRACE, reserved, |route|, flags] + LE32(token.tag) + LE32(token.auth) + route + PackSigned(snrs)
  }

  /** The token a frame carries, if it can be a trace at all. */
  function TokenOf(frame: Bytes): Option<Token> {
    if |frame| < 13 || frame[0] != PUSH_TRACE then None
    else Some(Token(FromLE32(frame[4..8]), FromLE32(frame[8..12])))
  }

  /** The conditions `_on_frame` checks against the pending entry. */
  predicate Fits(frame: Bytes, route: Bytes, flags: TraceFlags)
    requires |frame| >= 13
  {
    && frame[2] == |route| && frame[3] == flags
    && |frame| == 13 + |route| + Hops(route, flags)
    && frame[12..12 + |route|] == route
  }

  /** A frame answers the probe with this token, route and flags. */
  predicate Answers(frame: Bytes, token: Token, route: Bytes, flags: TraceFlags) {
    TokenOf(frame) == Some(token) && Fits(frame, route, flags)
  }

  function SnrsIn(frame: Bytes, route: Bytes): seq<real>
    requires |frame| >= 12 + |route|
  {
    Quarters(UnpackSigned(frame[12 + |route|..]))
  }

  // ---------------------------------------------------------------- layout and round trip

  lemma {:induction false} PackUnpack(vs: seq<int8>)
    ensures |PackSigned(vs)| == |vs| && UnpackSigned(PackSigned(vs)) == vs
  {
    if vs != [] {
      PackUnpack(vs[1..]);
      assert PackSigned(vs)[1..] == PackSigned(vs[1..]);
    }
  }

  lemma {:induction false} UnpackPack(b: Bytes)
    ensures |UnpackSigned(b)| == |b| && PackSigned(UnpackSigned(b)) == b
  {
    if b != [] {
      UnpackPack(b[1..]);
      assert UnpackSigned(b)[1..] == UnpackSigned(b[1..]);
    }
  }

  /** The fields of a built frame. */
  lemma Layout(reserved: byte, flags: byte, token: Token, route: Bytes, snrs: seq<int8>)
    requires Wide(token) && |route| < 256
    ensures var f := PushTrace(reserved, flags, token, route, snrs);
      && |f| == 12 + |route| + |snrs|
      && f[0] == PUSH_TRACE && f[1] == reserved && f[2] == |route| && f[3] == flags
      && f[4..8] == LE32(token.tag) && f[8..12] == LE32(token.auth)
      && f[12..12 + |route|] == route && f[12 + |route|..] == PackSigned(snrs)
  {
    PackUnpack(snrs);
    hide LE32, FromLE32, PackSigned;
    var head: Bytes := [PUSH_TRACE, reserved, |route|, flags];
    var tag, auth, tail := LE32(token.tag), LE32(token.auth), PackSigned(snrs);
    var f := head + tag + auth + route + tail;
    assert f[4..8] == tag;
    assert f[8..12] == auth;
    assert f[12..12 + |route|] == route;
    assert f[12 + |route|..] == tail;
  }

  /** Any frame with these fields is the built one. */
  lemma LayoutIsExact(f: Bytes, token: Token, route: Bytes, snrs: seq<int8>)
    requires Wide(token) && |route| < 256 && |f| >= 12 + |route|
    requires f[0] == PUSH_TRACE && f[2] == |route|
    requires f[4..8] == LE32(token.tag) && f[8..12] == LE32(token.auth)
    requires f[12..12 + |route|] == route && f[12 + |route|..] == PackSigned(snrs)
    ensures f == PushTrace(f[1], f[3], token, route, snrs)
  {
    hide LE32, FromLE32, PackSigned;
    var head: Bytes := [PUSH_TRACE, f[1], |route|, f[3]];
    assert f[..4] == head;
    assert f == f[..4] + f[4..8] + f[8..12] + f[12..12 + |route|] + f[12 + |route|..];
  }

  /**
   A frame answers a probe exactly when it is a PUSH_TRACE frame for the very same tag, auth, flags
   and route with one SNR for each hop and the final one; only the reserved byte is free.
   */
  lemma AnswersExactlyWhen(frame: Bytes, token: Token, route: Bytes, flags: TraceFlags)
    requires Wide(token)
    ensures Answers(frame, token, route, flags) <==>
      exists reserved: byte, snrs: seq<int8> ::
        && |route| < 256 && |snrs| == Hops(route, flags) + 1
        && frame == PushTrace(reserved, flags, token, route, snrs)
  {
    hide Answers, PushTrace, Hops;
    if Answers(frame, token, route, flags) {
      AnswerIsBuilt(frame, token, route, flags);
    }
    forall reserved: byte, snrs: seq<int8> |
      && |route| < 256 && |snrs| == Hops(route, flags) + 1
      && frame == PushTrace(reserved, flags, token, route, snrs)
      ensures Answers(frame, token, route, flags)
    {
      BuiltFrameAnswers(reserved, flags, token, route, snrs);
    }
  }

  lemma AnswerIsBuilt(frame: Bytes, token: Token, route: Bytes, flags: TraceFlags)
    requires Wide(token) && Answers(frame, token, route, flags)
    ensures |route| < 256 && exists reserved: byte, snrs: seq<int8> ::
      |snrs| == Hops(route, flags) + 1 && frame == PushTrace(reserved, flags, token, route, snrs)
  {
    hide LE32, FromLE32, PushTrace, Hops;
    var snrs := UnpackSigned(frame[12 + |route|..]);
    UnpackPack(frame[12 + |route|..]);
    LE32Inverse(frame[4..8]);
    LE32Inverse(frame[8..12]);
    LayoutIsExact(frame, token, route, snrs);
    assert frame == PushTrace(frame[1], flags, token, route, snrs);
  }

  lemma BuiltFrameAnswers(reserved: byte, flags: TraceFlags, token: Token, route: Bytes, snrs: seq<int8>)
    requires Wide(token) && |route| < 256 && |snrs| == Hops(route, flags) + 1
    ensures Answers(PushTrace(reserved, flags, token, route, snrs), token, route, flags)
  {
    hide LE32, PushTrace;
    Layout(reserved, flags, token, route, snrs);
  }

  /** Decoding recovers exactly the SNRs sent, in quarters. */
  lemma TraceRoundTrip(reserved: byte, flags: TraceFlags, token: Token, route: Bytes, snrs: seq<int8>)
    requires Wide(token) && |route| < 256 && |snrs| == Hops(route, flags) + 1
    ensures var f := PushTrace(reserved, flags, token, route, snrs);
      && Answers(f, token, route, flags)
      && SnrsIn(f, route) == Quarters(snrs)
      && |SnrsIn(f, route)| == |snrs|
      && forall i :: 0 <= i < |snrs| ==> SnrsIn(f, route)[i] * 4.0 == snrs[i] as real
  {
    QuartersMeaning(snrs);
    BuiltFrameAnswers(reserved, flags, token, route, snrs);
    Layout(reserved, flags, token, route, snrs);
    PackUnpack(snrs);
  }

  /** A frame built for another tag, auth, flags or route answers nothing else. */
  lemma FramesNeverCross(reserved: byte, flags: byte, token: Token, route: Bytes, snrs: seq<int8>,
      token': Token, route': Bytes, flags': TraceFlags)
    requires Wide(token) && |route| < 256
    requires Answers(PushTrace(reserved, flags, token, route, snrs), token', route', flags')
    ensures token == token' && route == route' && flags == flags'
  {
    hide PushTrace, Hops;
    Layout(reserved, flags, token, route, snrs);
  }

  /**
   Byte by byte: a frame answers a probe exactly when it begins with 0x89, has the route's length, the
   flags, the two little-endian numbers and the route where they belong, and ends after one byte more
   than the route has hashes.
   */
  lemma AnswersInBytes(f: Bytes, token: Token, route: Bytes, flags: TraceFlags)
    ensures Answers(f, token, route, flags) <==>
              && |f| == 13 + |route| + |route| / (if flags == 0 then 1 else if flags == 1 then 2 else 4)
              && f[0] == 0x89 && f[2] == |route| && f[3] == flags
              && Number(f[4..8]) == token.tag
              && Number(f[8..12]) == token.auth
              && f[12..12 + |route|] == route
  {
    if |f| >= 13 {
      SpelledOut(f[4..8]);
      SpelledOut(f[8..12]);
    }
  }

  /** Four bytes, the lowest first. */
  function Number(b: Bytes): int
    requires |b| == 4
  {
    b[0] as int + 0x100 * b[1] as int + 0x1_0000 * b[2] as int + 0x100_0000 * b[3] as int
  }

  lemma SpelledOut(b: Bytes)
    requires |b| == 4
    ensures FromLE32(b) == Number(b)
  {
    assert b[..2] == [b[0], b[1]] && b[2..] == [b[2], b[3]];
  }
}
