/**
 The device-wide command slot (device.py): raw commands, library commands and pushes share one
 connection, and a response belongs to a command only because of the order it arrives in.
 Each step of the machine below is what runs between two `await`s.
 */
module CommandSlot {
  import opened Bytes

  const PUSH_CODE_MIN: byte := 0x80
  const RESP_CONTACT_START: byte := 0x02
  const RESP_CONTACT: byte := 0x03
  const CMD_GET_CONTACTS: byte := 4
  const CMD_REBOOT: byte := 19

  /** Frames of the contact list before the last one do not end a response. */
  predicate IsTerminal(cmd: byte, respCode: byte) {
    cmd == CMD_GET_CONTACTS ==> respCode != RESP_CONTACT_START && respCode != RESP_CONTACT
  }

  /** A response frame, as opposed to a push or an empty frame. */
  predicate IsResponse(frame: Bytes) {
    frame != [] && frame[0] < PUSH_CODE_MIN
  }

  function Code(frame: Bytes): int {
    if frame == [] then -1 else frame[0]
  }

  predicate AllResponses(frames: seq<Bytes>) {
    forall i :: 0 <= i < |frames| ==> IsResponse(frames[i])
  }

  /** The companion protocol's answers: nothing, one frame, or START CONTACT* terminator. */
  ghost predicate CompleteAnswer(cmd: Bytes, answer: seq<Bytes>)
    requires cmd != []
  {
    && AllResponses(answer)
    && if cmd[0] == CMD_REBOOT then answer == []
       else if cmd[0] == CMD_GET_CONTACTS then
         && answer != []
         && Code(answer[|answer| - 1]) !in {RESP_CONTACT_START as int, RESP_CONTACT as int}
         && (|answer| > 1 ==> Code(answer[0]) == RESP_CONTACT_START)
         && (forall i :: 1 <= i < |answer| - 1 ==> Code(answer[i]) == RESP_CONTACT)
       else |answer| == 1
  }

  /** The last frame of an answer, and no other, is the one the daemon stops at. */
  lemma TerminalIsLast(cmd: Bytes, answer: seq<Bytes>, i: nat)
    requires cmd != [] && CompleteAnswer(cmd, answer) && i < |answer|
    ensures IsResponse(answer[i])
    ensures IsTerminal(cmd[0], answer[i][0]) <==> i == |answer| - 1
  {
    assert IsResponse(answer[i]);
  }

  // ---------------------------------------------------------------- one raw command, as a loop

  datatype Outcome = Returned(frames: seq<Bytes>) | TimedOut | Raised

  datatype Refusal = EmptyFrame | DeviceUnavailable

  datatype Result = Refused(why: Refusal) | Ran(outcome: Outcome)

  /** The frames of `arrivals` that `_dispatch_frame` routes to a waiting raw command. */
  function Routed(arrivals: seq<Bytes>): seq<Bytes> {
    if arrivals == [] then []
    else (if IsResponse(arrivals[0]) then [arrivals[0]] else []) + Routed(arrivals[1..])
  }

  lemma {:induction false} RoutedAppend(a: seq<Bytes>, b: seq<Bytes>)
    ensures Routed(a + b) == Routed(a) + Routed(b)
  {
    hide IsResponse;
    if a == [] {
      assert a + b == b;
    } else {
      RoutedAppend(a[1..], b);
      assert (a + b)[1..] == a[1..] + b;
      var head := if IsResponse(a[0]) then [a[0]] else [];
      assert head + (Routed(a[1..]) + Routed(b)) == (head + Routed(a[1..])) + Routed(b);
    }
  }

  lemma RoutedHead(frames: seq<Bytes>, i: nat)
    requires i <= |frames|
    ensures Routed(frames[i..]) ==
      if i == |frames| then [] else Routed([frames[i]]) + Routed(frames[i + 1..])
  {
    if i < |frames| {
      assert frames[i..][1..] == frames[i + 1..];
      assert [frames[i]][1..] == frames[i..i];
      assert Routed([frames[i]]) == if IsResponse(frames[i]) then [frames[i]] else [];
    }
  }

  lemma {:induction false} RoutedAreResponses(arrivals: seq<Bytes>)
    ensures AllResponses(Routed(arrivals))
  {
    if arrivals != [] {
      RoutedAreResponses(arrivals[1..]);
    }
  }

  /** Where a command stops among the frames routed to it: after the first terminal one. */
  ghost predicate StopsAt(cmd: byte, frames: seq<Bytes>, n: nat)
    requires AllResponses(frames)
  {
    && 1 <= n <= |frames|
    && IsResponse(frames[n - 1]) && IsTerminal(cmd, frames[n - 1][0])
    && forall i :: 0 <= i < n - 1 ==> IsResponse(frames[i]) && !IsTerminal(cmd, frames[i][0])
  }

  ghost predicate NoneTerminal(cmd: byte, frames: seq<Bytes>) {
    forall i :: 0 <= i < |frames| ==> IsResponse(frames[i]) && !IsTerminal(cmd, frames[i][0])
  }

  lemma ResponsesAppend(a: seq<Bytes>, b: seq<Bytes>)
    requires AllResponses(a) && AllResponses(b)
    ensures AllResponses(a + b)
  {
  }

  /**
   The command streams what was routed to it, up to the first terminal frame, and returns that. It
   times out when no terminal frame is among the `patience` frames it gets to take before the
   deadline, and raises when it is cancelled, or the client's connection fails, after `failure`
   frames and before either.
   */
  ghost predicate Received(cmd: byte, routed: seq<Bytes>, patience: nat, failure: Option<nat>, r: Outcome,
      streamed: seq<Bytes>)
  {
    && AllResponses(routed)
    && match r
       case Returned(frames) =>
         && StopsAt(cmd, routed, |frames|) && |frames| <= patience && !FailsBefore(failure, |frames|)
         && frames == streamed == routed[..|frames|]
       case TimedOut =>
         streamed == AtMost(routed, patience) && NoneTerminal(cmd, streamed) && !FailsBefore(failure, |streamed|)
         && (|streamed| < patience ==> failure != Some(|streamed|))
       case Raised =>
         failure == Some(|streamed|) && |streamed| < patience && streamed <= routed && NoneTerminal(cmd, streamed)
  }

  predicate FailsBefore(failure: Option<nat>, n: nat) {
    failure.Some? && failure.value < n
  }

  function AtMost(frames: seq<Bytes>, n: nat): seq<Bytes> {
    if n < |frames| then frames[..n] else frames
  }

  /** The command has taken and streamed `frames` of those routed to it; `ahead` are the others. */
  ghost predicate Taking(cmd: byte, routed: seq<Bytes>, frames: seq<Bytes>, ahead: seq<Bytes>, patience: nat,
      failure: Option<nat>)
  {
    && AllResponses(routed) && frames + ahead == routed && NoneTerminal(cmd, frames)
    && |frames| <= patience && !FailsBefore(failure, |frames|)
  }

  lemma TakesFirst(cmd: byte, routed: seq<Bytes>, patience: nat, failure: Option<nat>)
    requires AllResponses(routed)
    ensures Taking(cmd, routed, [], routed, patience, failure)
  {
    assert [] + routed == routed;
  }

  lemma TakesNext(cmd: byte, routed: seq<Bytes>, frames: seq<Bytes>, ahead: seq<Bytes>, patience: nat,
      failure: Option<nat>)
    requires Taking(cmd, routed, frames, ahead, patience, failure) && ahead != []
    requires |frames| < patience && failure != Some(|frames|)
    ensures ahead[0] != []
    ensures var taken := frames + [ahead[0]];
      if IsTerminal(cmd, ahead[0][0]) then Received(cmd, routed, patience, failure, Returned(taken), taken)
      else Taking(cmd, routed, taken, ahead[1..], patience, failure)
  {
    hide IsTerminal;
    var taken := frames + [ahead[0]];
    assert routed[|frames|] == ahead[0] && IsResponse(ahead[0]);
    assert forall i :: 0 <= i < |frames| ==> routed[i] == frames[i];
    assert taken + ahead[1..] == routed && routed[..|taken|] == taken;
  }

  lemma TimesOut(cmd: byte, routed: seq<Bytes>, frames: seq<Bytes>, ahead: seq<Bytes>, patience: nat,
      failure: Option<nat>)
    requires Taking(cmd, routed, frames, ahead, patience, failure)
    requires |frames| == patience || (ahead == [] && failure != Some(|frames|))
    ensures Received(cmd, routed, patience, failure, TimedOut, frames)
  {
    assert ahead == [] ==> frames == routed;
    assert |frames| == patience ==> frames == AtMost(routed, patience);
  }

  lemma Raises(cmd: byte, routed: seq<Bytes>, frames: seq<Bytes>, ahead: seq<Bytes>, patience: nat,
      failure: Option<nat>)
    requires Taking(cmd, routed, frames, ahead, patience, failure)
    requires |frames| < patience && failure == Some(|frames|)
    ensures Received(cmd, routed, patience, failure, Raised, frames)
  {
  }

  /** A frame dispatched while the command waits only moves from what is to come into the queue. */
  lemma DispatchMoves(queue: seq<Bytes>, later: seq<Bytes>, next: nat)
    requires next < |later|
    ensures (queue + Routed([later[next]])) + Routed(later[next + 1..]) == queue + Routed(later[next..])
  {
    RoutedHead(later, next);
  }

  class DeviceManager {
    var rawQueue: Option<seq<Bytes>>

    constructor ()
      ensures rawQueue == None
    {
      rawQueue := None;
    }

    /** The routing part of `_dispatch_frame`; the listeners see every frame besides. */
    method DispatchFrame(frame: Bytes)
      modifies this
      ensures rawQueue ==
        if old(rawQueue).Some? then Some(old(rawQueue).value + Routed([frame])) else None
      ensures old(rawQueue).Some? && frame != [] && frame[0] < 0x80 ==>
        rawQueue == Some(old(rawQueue).value + [frame])
      ensures frame == [] || frame[0] >= 0x80 ==> rawQueue == old(rawQueue)
    {
      assert Routed([frame]) == (if IsResponse(frame) then [frame] else []);
      if frame != [] && frame[0] < PUSH_CODE_MIN && rawQueue.Some? {
        rawQueue := Some(rawQueue.value + [frame]);
      } else {
        assert rawQueue.Some? ==> rawQueue.value + [] == rawQueue.value;
      }
    }

    /** What the node sends while `send` has not returned. */
    method DispatchAll(frames: seq<Bytes>)
      requires rawQueue.Some?
      modifies this
      ensures rawQueue == Some(old(rawQueue.value) + Routed(frames))
    {
      ghost var queue := rawQueue.value;
      assert queue + Routed(frames[..0]) == queue;
      for i := 0 to |frames|
        invariant rawQueue == Some(queue + Routed(frames[..i]))
      {
        RoutedAppend(frames[..i], [frames[i]]);
        assert frames[..i + 1] == frames[..i] + [frames[i]];
        assert queue + Routed(frames[..i + 1]) == (queue + Routed(frames[..i])) + Routed([frames[i]]);
        DispatchFrame(frames[i]);
      }
      assert frames[..|frames|] == frames;
    }

    /**
     The receive loop: `later` is what the node sends from here to the deadline, `patience` how
     many frames a client that reads slowly lets pass before the deadline, and `failure` after how
     many an exception ends the wait for the next frame or its streaming.
     */
    method Receive(cmd: byte, later: seq<Bytes>, patience: nat, failure: Option<nat>)
      returns (r: Outcome, streamed: seq<Bytes>)
      requires rawQueue.Some? && AllResponses(rawQueue.value)
      modifies this
      ensures Received(cmd, old(rawQueue.value) + Routed(later), patience, failure, r, streamed)
    {
      hide Routed, Taking, Received, IsTerminal;
      var frames: seq<Bytes> := [];
      streamed := [];
      ghost var routed := rawQueue.value + Routed(later);
      RoutedAreResponses(later);
      ResponsesAppend(rawQueue.value, Routed(later));
      TakesFirst(cmd, routed, patience, failure);
      RoutedHead(later, |later|);
      hide AllResponses;
      var next := 0;
      assert later[0..] == later;
      while true
        invariant 0 <= next <= |later| && rawQueue.Some? && streamed == frames && |frames| <= patience
        invariant Taking(cmd, routed, frames, rawQueue.value + Routed(later[next..]), patience, failure)
        decreases |later| - next, |rawQueue.value|
      {
        ghost var ahead := rawQueue.value + Routed(later[next..]);
        if |frames| == patience {
          TimesOut(cmd, routed, frames, ahead, patience, failure);
          return TimedOut, streamed;
        }
        if failure == Some(|frames|) {
          Raises(cmd, routed, frames, ahead, patience, failure);
          return Raised, streamed;
        }
        if rawQueue.value == [] {
          if next == |later| {
            assert ahead == [];
            TimesOut(cmd, routed, frames, ahead, patience, failure);
            return TimedOut, streamed;
          }
          DispatchMoves(rawQueue.value, later, next);
          DispatchFrame(later[next]);
          next := next + 1;
          continue;
        }
        var resp := rawQueue.value[0];
        TakesNext(cmd, routed, frames, ahead, patience, failure);
        assert ahead[1..] == rawQueue.value[1..] + Routed(later[next..]);
        rawQueue := Some(rawQueue.value[1..]);
        frames := frames + [resp];
        streamed := streamed + [resp];
        if IsTerminal(cmd, resp[0]) {
          return Returned(frames), streamed;
        }
      }
    }

    /**
     `_raw_command_locked`: `early` is what the node sends before `send` returns and `later`
     what it sends between then and the deadline, pushes included; `sends` tells whether `send`
     returns or raises. The queue is uninstalled whatever happens.
     */
    method RawCommandLocked(cmd: Bytes, early: seq<Bytes>, later: seq<Bytes>, sends: bool, patience: nat,
        failure: Option<nat>)
      returns (r: Outcome, streamed: seq<Bytes>)
      requires cmd != []
      modifies this
      ensures rawQueue == None
      ensures !sends ==> r == Raised && streamed == []
      ensures sends && cmd[0] == CMD_REBOOT ==> r == Returned([]) && streamed == []
      ensures sends && cmd[0] != CMD_REBOOT ==>
        Received(cmd[0], Routed(early + later), patience, failure, r, streamed)
    {
      rawQueue := Some([]);
      DispatchAll(early);
      if !sends {
        r, streamed := Raised, [];
      } else if cmd[0] == CMD_REBOOT {
        r, streamed := Returned([]), [];
      } else {
        RoutedAreResponses(early);
        RoutedAppend(early, later);
        assert rawQueue.value == Routed(early);
        r, streamed := Receive(cmd[0], later, patience, failure);
      }
      rawQueue := None;
    }

    /** `raw_command`; `told` says whether the command listeners hear of it. */
    method RawCommand(cmd: Bytes, connected: bool, early: seq<Bytes>, later: seq<Bytes>, sends: bool, patience: nat,
        failure: Option<nat>)
      returns (result: Result, streamed: seq<Bytes>, told: bool)
      modifies this
      ensures cmd == [] ==> result == Refused(EmptyFrame)
      ensures cmd != [] && !connected ==> result == Refused(DeviceUnavailable)
      ensures result.Refused? ==> streamed == [] && rawQueue == old(rawQueue)
      ensures cmd != [] && connected ==>
        && result.Ran? && rawQueue == None
        && (if !sends then result.outcome == Raised && streamed == []
            else if cmd[0] == CMD_REBOOT then result.outcome == Returned([]) && streamed == []
            else Received(cmd[0], Routed(early + later), patience, failure, result.outcome, streamed))
      ensures told <==> result.Ran? && result.outcome.Returned?
      ensures forall answer :: cmd != [] && connected && sends && InBytes(cmd[0], answer)
                && Woven(early + later, answer) && |answer| <= patience && failure.None?
                ==> result == Ran(Returned(answer)) && streamed == answer
    {
      forall answer | cmd != [] && InBytes(cmd[0], answer) && Woven(early + later, answer) {
        BytesAreReturned(cmd, early + later, answer, patience);
      }
      streamed, told := [], false;
      if cmd == [] {
        return Refused(EmptyFrame), streamed, told;
      }
      if !connected {
        return Refused(DeviceUnavailable), streamed, told;
      }
      var r;
      r, streamed := RawCommandLocked(cmd, early, later, sends, patience, failure);
      return Ran(r), streamed, r.Returned?;
    }
  }

  /**
   When the node's complete answer is what gets routed, it is what is returned and streamed, unless
   the deadline or a failure comes first; then a part of it has been streamed and nothing is returned.
   */
  lemma AnswerIsReturned(cmd: Bytes, answer: seq<Bytes>, patience: nat, failure: Option<nat>, r: Outcome,
      streamed: seq<Bytes>)
    requires cmd != [] && cmd[0] != CMD_REBOOT && CompleteAnswer(cmd, answer)
    ensures Received(cmd[0], answer, patience, failure, r, streamed) <==>
              if FailsBefore(failure, if |answer| <= patience then |answer| else patience)
              then r == Raised && streamed == answer[..failure.value]
              else if |answer| <= patience then r == Returned(answer) && streamed == answer
              else r == TimedOut && streamed == answer[..patience]
  {
    forall i: nat | i < |answer|
      ensures IsResponse(answer[i]) && (IsTerminal(cmd[0], answer[i][0]) <==> i == |answer| - 1)
    {
      TerminalIsLast(cmd, answer, i);
    }
    var last := |answer| - 1;
    assert !NoneTerminal(cmd[0], answer) by {
      assert IsTerminal(cmd[0], answer[last][0]);
    }
    hide CompleteAnswer, IsTerminal, IsResponse;
    assert answer[..|answer|] == answer;
    if Received(cmd[0], answer, patience, failure, r, streamed) && r.Returned? {
      assert |r.frames| == |answer|;
    }
  }

  // ---------------------------------------------------------------- in the protocol's own numbers

  /**
   What the node answers on the wire: nothing to command 19; to command 4 frames that begin with 2, 3,
   3, ..., and last one that begins with neither, or that one alone; to any other command one frame.
   Response frames begin with a byte below 0x80.
   */
  ghost predicate InBytes(cmd: byte, answer: seq<Bytes>) {
    && (forall i :: 0 <= i < |answer| ==> answer[i] != [] && answer[i][0] < 0x80)
    && if cmd == 19 then answer == []
       else if cmd == 4 then
         && answer != []
         && answer[|answer| - 1][0] != 2 && answer[|answer| - 1][0] != 3
         && forall i :: 0 <= i < |answer| - 1 ==> answer[i][0] == if i == 0 then 2 else 3
       else |answer| == 1
  }

  /** The answer's frames in order, with pushes and empty frames anywhere between them. */
  ghost predicate Woven(arrivals: seq<Bytes>, answer: seq<Bytes>) {
    if arrivals == [] then answer == []
    else if arrivals[0] == [] || arrivals[0][0] >= 0x80 then Woven(arrivals[1..], answer)
    else answer != [] && arrivals[0] == answer[0] && Woven(arrivals[1..], answer[1..])
  }

  lemma {:induction false} WovenIsRouted(arrivals: seq<Bytes>, answer: seq<Bytes>)
    requires Woven(arrivals, answer)
    ensures Routed(arrivals) == answer
  {
    if arrivals != [] {
      if arrivals[0] == [] || arrivals[0][0] >= 0x80 {
        WovenIsRouted(arrivals[1..], answer);
      } else {
        WovenIsRouted(arrivals[1..], answer[1..]);
        assert answer == [answer[0]] + answer[1..];
      }
    }
  }

  lemma BytesAreComplete(cmd: Bytes, answer: seq<Bytes>)
    requires cmd != [] && InBytes(cmd[0], answer)
    ensures CompleteAnswer(cmd, answer)
    ensures cmd[0] == CMD_REBOOT <==> cmd[0] == 19
  {
    assert forall i :: 0 <= i < |answer| ==> IsResponse(answer[i]) && Code(answer[i]) == answer[i][0];
  }

  /** A whole answer on the wire, with pushes among it, is what a command returns and streams. */
  lemma BytesAreReturned(cmd: Bytes, arrivals: seq<Bytes>, answer: seq<Bytes>, patience: nat)
    requires cmd != [] && InBytes(cmd[0], answer) && Woven(arrivals, answer)
    ensures cmd[0] == CMD_REBOOT ==> answer == []
    ensures cmd[0] != CMD_REBOOT && |answer| <= patience ==>
              forall r, streamed :: Received(cmd[0], Routed(arrivals), patience, None, r, streamed) ==>
                r == Returned(answer) && streamed == answer
  {
    hide Received;
    WovenIsRouted(arrivals, answer);
    BytesAreComplete(cmd, answer);
    hide Routed, CompleteAnswer, InBytes;
    if cmd[0] != CMD_REBOOT && |answer| <= patience {
      forall r, streamed | Received(cmd[0], Routed(arrivals), patience, None, r, streamed)
        ensures r == Returned(answer) && streamed == answer
      {
        AnswerIsReturned(cmd, answer, patience, None, r, streamed);
      }
    }
  }

  // ---------------------------------------------------------------- all interleavings

  datatype Phase = Sending | Waiting | Streaming(resp: Bytes)

  /** Who holds the slot; `sent` says that the command has reached the node. */
  datatype Holder =
    | Raw(cmd: Bytes, phase: Phase, sent: bool, frames: seq<Bytes>, streamed: seq<Bytes>)
    | Library(sent: bool)

  /** A raw command that returned or was given up, beside the answer the node gave to it. */
  datatype Record =
    | Done(cmd: Bytes, answer: seq<Bytes>, returned: seq<Bytes>, streamed: seq<Bytes>)
    | GivenUp(cmd: Bytes, answer: seq<Bytes>, streamed: seq<Bytes>)

  /** `owed` is what the node still has to send, oldest first; `answer` its answer to the holder. */
  datatype State = State(
    holder: Option<Holder>,
    rawQueue: Option<seq<Bytes>>,
    owed: seq<Bytes>,
    answer: seq<Bytes>,
    log: seq<Record>)

  datatype Step =
    | AcquireRaw(cmd: Bytes)          // a raw command gets the lock and installs its queue
    | AcquireLibrary                  // a library command gets the lock
    | Transmit(answer: seq<Bytes>)    // the holder's frame reaches the node, which decides its answer
    | Emit                            // the node's next response frame is dispatched
    | Push(frame: Bytes)              // an unsolicited frame is dispatched
    | SendReturns                     // the raw command's `send` returns
    | Take                            // its `queue.get` returns
    | Streamed                        // its `on_frame` returns
    | LibraryReturns                  // the library command returns and releases the lock
    | Abandon                         // timeout, client write error or cancellation: lock released

  const INIT := State(None, None, [], [], [])

  ghost predicate Enabled(s: State, step: Step) {
    match step
    case AcquireRaw(cmd) => cmd != [] && s.holder.None?
    case AcquireLibrary => s.holder.None?
    case Transmit(answer) =>
      s.holder.Some? && !s.holder.value.sent && (
        if s.holder.value.Raw? then s.holder.value.cmd != [] && CompleteAnswer(s.holder.value.cmd, answer)
        else AllResponses(answer))
    case Emit => s.owed != []
    case Push(frame) => !IsResponse(frame)
    case SendReturns =>
      s.holder.Some? && s.holder.value.Raw? && s.holder.value.sent && s.holder.value.phase == Sending
    case Take =>
      && s.holder.Some? && s.holder.value.Raw? && s.holder.value.phase == Waiting
      && s.rawQueue.Some? && s.rawQueue.value != []
    case Streamed =>
      s.holder.Some? && s.holder.value.Raw? && s.holder.value.phase.Streaming?
    case LibraryReturns =>
      s.holder.Some? && s.holder.value == Library(true) && s.owed == []
    case Abandon => s.holder.Some?
  }

  function Dispatch(s: State, frame: Bytes): State {
    if IsResponse(frame) && s.rawQueue.Some? then s.(rawQueue := Some(s.rawQueue.value + [frame])) else s
  }

  function Release(s: State): State {
    s.(holder := None, rawQueue := None, answer := [])
  }

  ghost function Next(s: State, step: Step): State
    requires Enabled(s, step)
  {
    match step
    case AcquireRaw(cmd) => s.(holder := Some(Raw(cmd, Sending, false, [], [])), rawQueue := Some([]))
    case AcquireLibrary => s.(holder := Some(Library(false)))
    case Transmit(answer) =>
      s.(holder := Some(s.holder.value.(sent := true)), owed := s.owed + answer, answer := answer)
    case Emit => Dispatch(s.(owed := s.owed[1..]), s.owed[0])
    case Push(frame) => Dispatch(s, frame)
    case SendReturns =>
      var h := s.holder.value;
      if h.cmd != [] && h.cmd[0] == CMD_REBOOT then Finish(s, h) else s.(holder := Some(h.(phase := Waiting)))
    case Take =>
      var h, resp := s.holder.value, s.rawQueue.value[0];
      s.(holder := Some(h.(phase := Streaming(resp), frames := h.frames + [resp])),
         rawQueue := Some(s.rawQueue.value[1..]))
    case Streamed =>
      var h := s.holder.value;
      var h' := h.(phase := Waiting, streamed := h.streamed + [h.phase.resp]);
      if h.cmd != [] && h.phase.resp != [] && !IsTerminal(h.cmd[0], h.phase.resp[0])
      then s.(holder := Some(h')) else Finish(s, h')
    case LibraryReturns => Release(s)
    case Abandon =>
      var h := s.holder.value;
      if h.Raw? then Release(s).(log := s.log + [GivenUp(h.cmd, s.answer, h.streamed)]) else Release(s)
  }

  function Finish(s: State, h: Holder): State
    requires h.Raw?
  {
    Release(s).(log := s.log + [Done(h.cmd, s.answer, h.frames, h.streamed)])
  }

  ghost predicate Run(s: State, steps: seq<Step>, t: State)
    decreases |steps|
  {
    if steps == [] then s == t
    else Enabled(s, steps[0]) && Run(Next(s, steps[0]), steps[1..], t)
  }

  /** No command is given up while the node still owes response frames. */
  ghost predicate AbandonsOnlyWhenIdle(s: State, steps: seq<Step>)
    decreases |steps|
  {
    steps != [] && Enabled(s, steps[0]) ==>
      && (steps[0].Abandon? ==> s.owed == [])
      && AbandonsOnlyWhenIdle(Next(s, steps[0]), steps[1..])
  }

  /** A library command holds the slot, without a raw queue, from when it gets it until it has been answered. */
  lemma LibraryHoldsTheSlot(s: State, step: Step)
    requires Enabled(s, step)
    ensures step.AcquireLibrary? ==> s.holder == None && Next(s, step) == s.(holder := Some(Library(false)))
    ensures step.LibraryReturns? ==>
              && s.holder == Some(Library(true)) && s.owed == []
              && Next(s, step) == s.(holder := None, rawQueue := None, answer := [])
    ensures s.holder.Some? && s.holder.value.Library? ==>
              && !step.AcquireRaw? && !step.AcquireLibrary?
              && (Next(s, step).holder.None? <==> step.LibraryReturns? || step.Abandon?)
              && Next(s, step).log == s.log
  {
  }

  /** A command given up leaves the slot free, the node owing what it owes, and a record of what was streamed. */
  lemma GivenUpIsRecorded(s: State)
    requires s.holder.Some?
    ensures Enabled(s, Abandon)
    ensures var t := Next(s, Abandon);
      && t.holder == None && t.rawQueue == None && t.answer == [] && t.owed == s.owed
      && t.log == s.log
                  + if s.holder.value.Raw? then [GivenUp(s.holder.value.cmd, s.answer, s.holder.value.streamed)] else []
  {
  }

  // ---------------------------------------------------------------- the invariant

  ghost predicate RawConsistent(h: Holder, queue: seq<Bytes>, owed: seq<Bytes>, answer: seq<Bytes>)
    requires h.Raw?
  {
    && h.cmd != []
    && (!h.sent ==> h.phase == Sending && owed == [] && queue == [])
    && (h.sent ==> CompleteAnswer(h.cmd, answer) && h.frames + queue + owed == answer)
    && match h.phase
       case Sending => h.frames == [] && h.streamed == []
       case Waiting => h.cmd[0] != CMD_REBOOT && h.streamed == h.frames && |h.frames| < |answer|
       case Streaming(resp) => h.cmd[0] != CMD_REBOOT && h.frames == h.streamed + [resp]
  }

  /** Nobody got anything but the answer to his own command: all of it, or a first part if it was given up. */
  ghost predicate Faithful(r: Record) {
    match r
    case Done(cmd, answer, returned, streamed) =>
      cmd != [] && CompleteAnswer(cmd, answer) && returned == answer && streamed == answer
    case GivenUp(_, answer, streamed) => streamed <= answer
  }

  ghost predicate Inv(s: State) {
    && (s.rawQueue.Some? <==> s.holder.Some? && s.holder.value.Raw?)
    && AllResponses(s.owed)
    && (forall i :: 0 <= i < |s.log| ==> Faithful(s.log[i]))
    && match s.holder
       case None => s.owed == []
       case Some(h) =>
         if h.Raw? then RawConsistent(h, s.rawQueue.value, s.owed, s.answer)
         else !h.sent ==> s.owed == []
  }

  lemma StepKeepsInv(s: State, step: Step)
    requires Inv(s) && Enabled(s, step) && (step.Abandon? ==> s.owed == [])
    ensures Inv(Next(s, step))
  {
    hide Inv, Next;
    match step {
      case Streamed => StreamedKeepsInv(s);
      case Emit => EmitKeepsInv(s);
      case Take => TakeKeepsInv(s);
      case Abandon => AbandonKeepsInv(s);
      case Transmit(answer) => TransmitKeepsInv(s, answer);
      case SendReturns => SendReturnsKeepsInv(s);
      case _ => OthersKeepInv(s, step);
    }
  }

  lemma AbandonKeepsInv(s: State)
    requires Inv(s) && s.holder.Some? && s.owed == []
    ensures Inv(Next(s, Abandon))
  {
    hide CompleteAnswer, AllResponses;
    var h := s.holder.value;
    if h.Raw? && h.sent {
      assert h.frames <= s.answer;
    }
  }

  lemma TransmitKeepsInv(s: State, answer: seq<Bytes>)
    requires Inv(s) && Enabled(s, Transmit(answer))
    ensures Inv(Next(s, Transmit(answer)))
  {
    assert s.owed + answer == answer;
  }

  lemma SendReturnsKeepsInv(s: State)
    requires Inv(s) && Enabled(s, SendReturns)
    ensures Inv(Next(s, SendReturns))
  {
  }

  lemma OthersKeepInv(s: State, step: Step)
    requires Inv(s) && Enabled(s, step)
    requires step.AcquireRaw? || step.AcquireLibrary? || step.Push? || step.LibraryReturns?
    ensures Inv(Next(s, step))
  {
    hide CompleteAnswer;
  }

  lemma EmitKeepsInv(s: State)
    requires Inv(s) && Enabled(s, Emit)
    ensures Inv(Next(s, Emit))
  {
    hide CompleteAnswer;
    assert s.owed == [s.owed[0]] + s.owed[1..];
    if s.rawQueue.Some? {
      var frames, queue, owed := s.holder.value.frames, s.rawQueue.value, s.owed;
      assert frames + (queue + [owed[0]]) + owed[1..] == frames + queue + owed;
    }
  }

  lemma TakeKeepsInv(s: State)
    requires Inv(s) && Enabled(s, Take)
    ensures Inv(Next(s, Take))
  {
    hide CompleteAnswer;
    var frames, queue, owed := s.holder.value.frames, s.rawQueue.value, s.owed;
    assert (frames + [queue[0]]) + queue[1..] + owed == frames + queue + owed;
  }

  lemma StreamedKeepsInv(s: State)
    requires Inv(s) && Enabled(s, Streamed)
    ensures Inv(Next(s, Streamed))
  {
    var h := s.holder.value;
    var n := |h.streamed|;
    assert h.frames[n] == s.answer[n] == h.phase.resp;
    TerminalIsLast(h.cmd, s.answer, n);
    if n == |s.answer| - 1 {
      assert s.answer == h.frames;
    }
  }

  lemma {:induction false} RunKeepsInv(s: State, steps: seq<Step>, t: State)
    requires Inv(s) && Run(s, steps, t) && AbandonsOnlyWhenIdle(s, steps)
    ensures Inv(t)
    decreases |steps|
  {
    if steps != [] {
      StepKeepsInv(s, steps[0]);
      RunKeepsInv(Next(s, steps[0]), steps[1..], t);
    }
  }

  /**
   In every interleaving of raw commands, library commands and pushes, every raw command that
   returned has returned and streamed exactly the node's complete answer to it, and one that is in
   flight or was given up has streamed a first part of its answer; a raw queue is installed exactly
   while a raw command holds the slot; and a command that waits has a frame coming or in its queue.
   */
  lemma EveryRawCommandGetsItsAnswer(steps: seq<Step>, t: State)
    requires Run(INIT, steps, t) && AbandonsOnlyWhenIdle(INIT, steps)
    ensures forall i :: 0 <= i < |t.log| ==> Faithful(t.log[i])
    ensures t.holder.Some? && t.holder.value.Raw? ==> t.holder.value.streamed <= t.answer
    ensures t.rawQueue.Some? <==> t.holder.Some? && t.holder.value.Raw?
    ensures t.holder.Some? && t.holder.value.Raw? && t.holder.value.phase == Waiting ==>
              t.owed != [] || t.rawQueue.value != []
  {
    RunKeepsInv(INIT, steps, t);
  }

  // ---------------------------------------------------------------- the assumption is needed

  ghost predicate SingleFrame(cmd: Bytes) {
    cmd != [] && cmd[0] != CMD_REBOOT && cmd[0] != CMD_GET_CONTACTS
  }

  /** What the next raw command does: it gets the slot and is answered with `answer`. */
  function OneCommand(cmd: Bytes, answer: seq<Bytes>): seq<Step> {
    [AcquireRaw(cmd), Transmit(answer), Emit, SendReturns, Take, Streamed]
  }

  /** The slot while the next command, of one frame, holds it. */
  function Holding(s: State, cmd: Bytes, phase: Phase, sent: bool, frames: seq<Bytes>, queue: seq<Bytes>): State {
    s.(holder := Some(Raw(cmd, phase, sent, frames, [])), rawQueue := Some(queue))
  }

  lemma OwedFrameIsQueued(s: State, cmd: Bytes, answer: seq<Bytes>)
    requires s.holder.None? && s.rawQueue.None? && s.owed != [] && IsResponse(s.owed[0])
    requires SingleFrame(cmd) && CompleteAnswer(cmd, answer)
    ensures var s1 := Holding(s, cmd, Sending, false, [], []);
      var s2 := Holding(s, cmd, Sending, true, [], []).(owed := s.owed + answer, answer := answer);
      && Enabled(s, AcquireRaw(cmd)) && s1 == Next(s, AcquireRaw(cmd))
      && Enabled(s1, Transmit(answer)) && s2 == Next(s1, Transmit(answer))
      && Enabled(s2, Emit)
      && Next(s2, Emit)
         == Holding(s, cmd, Sending, true, [], [s.owed[0]]).(owed := s.owed[1..] + answer, answer := answer)
  {
    hide CompleteAnswer;
    var none: seq<Bytes> := [];
    assert (s.owed + answer)[1..] == s.owed[1..] + answer && none + [s.owed[0]] == [s.owed[0]];
  }

  lemma QueuedFrameIsReturned(s: State, cmd: Bytes, x: Bytes)
    requires SingleFrame(cmd) && IsResponse(x)
    ensures var s3, s4 := Holding(s, cmd, Sending, true, [], [x]), Holding(s, cmd, Waiting, true, [], [x]);
      var s5 := Holding(s, cmd, Streaming(x), true, [x], []);
      && Enabled(s3, SendReturns) && s4 == Next(s3, SendReturns)
      && Enabled(s4, Take) && s5 == Next(s4, Take)
      && Enabled(s5, Streamed)
      && Next(s5, Streamed)
         == s.(holder := None, rawQueue := None, answer := [], log := s.log + [Done(cmd, s.answer, [x], [x])])
  {
    var none: seq<Bytes> := [];
    assert none + [x] == [x] && [x][1..] == none;
  }

  /** After a command given up too early, the next one returns the frame still owed, not its own. */
  lemma OwedFrameIsMisattributed(s: State, cmd: Bytes, answer: seq<Bytes>)
    requires s.holder.None? && s.rawQueue.None? && s.owed != [] && IsResponse(s.owed[0])
    requires SingleFrame(cmd) && CompleteAnswer(cmd, answer)
    ensures exists t ::
      && Run(s, OneCommand(cmd, answer), t)
      && t.log == s.log + [Done(cmd, answer, [s.owed[0]], [s.owed[0]])]
      && t.owed == s.owed[1..] + answer
  {
    hide Enabled, Next, Run, CompleteAnswer;
    OwedFrameIsQueued(s, cmd, answer);
    var s1 := Next(s, AcquireRaw(cmd));
    var s2 := Next(s1, Transmit(answer));
    var s3 := Next(s2, Emit);
    QueuedFrameIsReturned(s.(owed := s.owed[1..] + answer, answer := answer), cmd, s.owed[0]);
    var s4 := Next(s3, SendReturns);
    var s5 := Next(s4, Take);
    RunOf6(s, OneCommand(cmd, answer), s1, s2, s3, s4, s5, Next(s5, Streamed));
  }

  ghost predicate AllFaithful(log: seq<Record>) {
    forall i :: 0 <= i < |log| ==> Faithful(log[i])
  }

  /** From here on, with nothing else given up too early, no client ever gets a wrong answer. */
  ghost predicate NeverMisattributes(s: State) {
    forall steps, t :: Run(s, steps, t) && AbandonsOnlyWhenIdle(s, steps) ==> AllFaithful(t.log)
  }

  /**
   Giving a command up can be followed by a command that returns another answer than the node gave
   to it if and only if the node still owes frames.
   */
  lemma AbandonIsSafeExactlyWhenIdle(s: State)
    requires Inv(s) && s.holder.Some?
    ensures NeverMisattributes(Next(s, Abandon)) <==> s.owed == []
  {
    var u := Next(s, Abandon);
    if s.owed == [] {
      StepKeepsInv(s, Abandon);
      forall steps, t | Run(u, steps, t) && AbandonsOnlyWhenIdle(u, steps)
        ensures AllFaithful(t.log)
      {
        RunKeepsInv(u, steps, t);
      }
    } else {
      assert IsResponse(s.owed[0]);
      NextCommandIsUnfaithful(u);
    }
  }

  lemma NextCommandIsUnfaithful(s: State)
    requires s.holder.None? && s.rawQueue.None? && s.owed != [] && IsResponse(s.owed[0])
    ensures !NeverMisattributes(s)
  {
    var other: Bytes := if s.owed[0] == [0] then [1] else [0];
    var cmd: Bytes, answer := [1], [other];
    OwedFrameIsMisattributed(s, cmd, answer);
    NothingAbandoned(s, OneCommand(cmd, answer));
    hide Run, AbandonsOnlyWhenIdle, OneCommand;
    var t :| Run(s, OneCommand(cmd, answer), t) && t.log == s.log + [Done(cmd, answer, [s.owed[0]], [s.owed[0]])];
    assert [s.owed[0]][0] != answer[0];
    assert !Faithful(t.log[|s.log|]);
  }

  lemma {:induction false} NothingAbandoned(s: State, steps: seq<Step>)
    requires forall i :: 0 <= i < |steps| ==> !steps[i].Abandon?
    ensures AbandonsOnlyWhenIdle(s, steps)
    decreases |steps|
  {
    hide Next, Enabled;
    if steps != [] && Enabled(s, steps[0]) {
      NothingAbandoned(Next(s, steps[0]), steps[1..]);
    }
  }

  lemma RunOf6(s: State, steps: seq<Step>, s1: State, s2: State, s3: State, s4: State, s5: State, t: State)
    requires |steps| == 6
    requires Enabled(s, steps[0]) && s1 == Next(s, steps[0])
    requires Enabled(s1, steps[1]) && s2 == Next(s1, steps[1])
    requires Enabled(s2, steps[2]) && s3 == Next(s2, steps[2])
    requires Enabled(s3, steps[3]) && s4 == Next(s3, steps[3])
    requires Enabled(s4, steps[4]) && s5 == Next(s4, steps[4])
    requires Enabled(s5, steps[5]) && t == Next(s5, steps[5])
    ensures Run(s, steps, t)
  {
    assert Run(t, steps[6..], t);
    assert steps[5..][1..] == steps[6..] && steps[5..][0] == steps[5];
    assert Run(s5, steps[5..], t);
    assert steps[4..][1..] == steps[5..] && steps[4..][0] == steps[4];
    assert Run(s4, steps[4..], t);
    assert steps[3..][1..] == steps[4..] && steps[3..][0] == steps[3];
    assert Run(s3, steps[3..], t);
    assert steps[2..][1..] == steps[3..] && steps[2..][0] == steps[2];
    assert Run(s2, steps[2..], t);
    assert steps[1..][1..] == steps[2..] && steps[1..][0] == steps[1];
    assert Run(s1, steps[1..], t);
  }
}
