/**
 `PingManager` (ping.py): any number of concurrent probes share one table of pending tokens, and
 frames complete them. Time is an arbitrary non-decreasing clock.
 */
module TracePing {
  import opened Bytes
  import opened TraceFrames

  const PING_TIMEOUT := 5.0

  datatype Future = Waiting | Done(received: real, snrs: seq<real>)

  datatype Pending = Pending(route: Bytes, flags: TraceFlags, deadline: real, future: Future)

  type Table = map<Token, Pending>

  /** What `_on_frame` makes of the table. */
  function Heard(pending: Table, frame: Bytes, now: real): Table {
    match TokenOf(frame)
    case None => pending
    case Some(token) =>
      if token !in pending then pending
      else
        var p := pending[token];
        if !Fits(frame, p.route, p.flags) || p.future.Done? || now >= p.deadline then pending
        else pending[token := p.(future := Done(now, SnrsIn(frame, p.route)))]
  }

  /** The entry of a probe that started then. */
  function Entry(route: Bytes, flags: TraceFlags, started: real): Pending {
    Pending(route, flags, started + PING_TIMEOUT, Waiting)
  }

  class PingManager {
    var pending: Table

    constructor ()
      ensures pending == map[]
    {
      pending := map[];
    }

    method OnFrame(frame: Bytes, now: real)
      modifies this
      ensures pending == Heard(old(pending), frame, now)
    {
      if |frame| < 13 || frame[0] != PUSH_TRACE {
        return;
      }
      var token := Token(FromLE32(frame[4..8]), FromLE32(frame[8..12]));
      if token !in pending {
        return;
      }
      var p := pending[token];
      if frame[2] != |p.route| || frame[3] != p.flags
        || |frame| != 13 + |p.route| + Hops(p.route, p.flags)
        || frame[12..12 + |p.route|] != p.route || p.future.Done? || now >= p.deadline
      {
        return;
      }
      pending := pending[token := p.(future := Done(now, SnrsIn(frame, p.route)))];
    }

    /** Random draws are repeated until one is free; `None` stands for running out of draws. */
    method DrawToken(draws: seq<Token>) returns (token: Option<Token>)
      ensures match token
        case Some(t) =>
          && t !in pending
          && exists i :: 0 <= i < |draws| && draws[i] == t && forall j :: 0 <= j < i ==> draws[j] in pending
        case None => forall j :: 0 <= j < |draws| ==> draws[j] in pending
    {
      var i := 0;
      while i < |draws| && draws[i] in pending
        invariant 0 <= i <= |draws|
        invariant forall j :: 0 <= j < i ==> draws[j] in pending
      {
        i := i + 1;
      }
      return if i < |draws| then Some(draws[i]) else None;
    }

    /** The frames dispatched while a probe waits. */
    method OnFrames(events: seq<Event>)
      modifies this
      ensures pending == HeardAll(old(pending), events)
    {
      ghost var before := pending;
      for i := 0 to |events|
        invariant pending == HeardAll(before, events[..i])
      {
        assert events[..i + 1][..i] == events[..i];
        OnFrame(events[i].frame, events[i].at);
      }
      assert events[..|events|] == events;
    }

    /**
     `ping`, for the contact found and enough random draws: `early` are the frames dispatched until
     the command ends in `sent`, `later` those from then until the probe ends in `ending`. It returns
     exactly when it resumes in time after a frame answered it; it then reports the first frame that
     did. However it ends, its entry is gone, and the table is what the frames would have made of it
     without the probe.
     */
    method Ping(contact: Option<Contact>, width: int, started: real, draws: seq<Token>, early: seq<Event>, sent: Sent,
        later: seq<Event>, ending: Ending)
      returns (result: Result, ghost token: Token)
      requires exists i :: 0 <= i < |draws| && draws[i] !in pending
      modifies this
      ensures result.Invalid? <==> contact.None? || TraceRoute(contact.value, width).Error?
      ensures result.Invalid? ==> pending == old(pending)
      ensures !result.Invalid? ==>
        && token in draws && token !in old(pending)
        && pending == HeardAll(old(pending), if sent.Accepted? then early + later else early)
      ensures !result.Invalid? && !sent.Accepted? ==>
        result.outcome == if sent.Refused? then Rejected else if sent.expired then TimedOut else Stopped
      ensures !result.Invalid? && sent.Accepted? ==>
        var own := Entry(TraceRoute(contact.value, width).route, FlagsFor(width).value, started);
        var heard := early + later;
        && (ending.Cancelled? ==> result.outcome == Stopped)
        && (ending.Expires? ==> result.outcome == TimedOut)
        && (ending.Resumes? && (ending.at >= own.deadline || Unanswered(heard, token, own)) ==>
              result.outcome == TimedOut)
        && (ending.Resumes? && ending.at < own.deadline ==>
              forall n: nat :: FirstAnswer(heard, token, own, n) ==>
                result.outcome == Returned((heard[n].at - started) * 1000.0, SnrsIn(heard[n].frame, own.route)))
    {
      hide Heard, HeardAll, SnrsIn, Answers, Unanswered, FirstAnswer;
      token := draws[0];
      if contact.None? {
        return Invalid, token;
      }
      var route := TraceRoute(contact.value, width);
      if route.Error? {
        return Invalid, token;
      }
      var drawn := DrawToken(draws);
      var own := Entry(route.route, FlagsFor(width).value, started);
      ghost var others := pending;
      token := drawn.value;
      pending := pending[drawn.value := own];
      OnFrames(early);
      if sent.Accepted? {
        OnFrames(later);
        HeardAllAppends(others[token := own], early, later);
      }
      ghost var heard := if sent.Accepted? then early + later else early;
      HeardAllOwn(others[token := own], token, heard);
      HeardAllOthers(others, token, own, heard);
      var future := pending[drawn.value].future;
      pending := pending - {drawn.value};
      match sent {
        case Refused => return Probed(Rejected), token;
        case Interrupted(expired) => return Probed(if expired then TimedOut else Stopped), token;
        case Accepted =>
      }
      match ending {
        case Cancelled => return Probed(Stopped), token;
        case Expires => return Probed(TimedOut), token;
        case Resumes(at) =>
          if future.Waiting? || at >= started + PING_TIMEOUT {
            return Probed(TimedOut), token;
          }
          return Probed(Returned((future.received - started) * 1000.0, future.snrs)), token;
      }
    }
  }

  /** How the trace command ends: taken by the node, refused, or cut short by the deadline or otherwise. */
  datatype Sent = Accepted | Refused | Interrupted(expired: bool)

  /** How the wait for the answer ends; a probe can only resume before its deadline if it was answered. */
  datatype Ending = Resumes(at: real) | Expires | Cancelled

  datatype Result = Invalid | Probed(outcome: Outcome)

  // ---------------------------------------------------------------- a probe among other entries

  function HeardAll(pending: Table, events: seq<Event>): Table {
    if events == [] then pending
    else
      var last := events[|events| - 1];
      Heard(HeardAll(pending, events[..|events| - 1]), last.frame, last.at)
  }

  ghost predicate AnswersInTime(e: Event, token: Token, p: Pending) {
    e.at < p.deadline && Answers(e.frame, token, p.route, p.flags)
  }

  ghost predicate Unanswered(events: seq<Event>, token: Token, p: Pending) {
    forall i :: 0 <= i < |events| ==> !AnswersInTime(events[i], token, p)
  }

  ghost predicate FirstAnswer(events: seq<Event>, token: Token, p: Pending, n: nat) {
    n < |events| && AnswersInTime(events[n], token, p) && Unanswered(events[..n], token, p)
  }

  /** Among frames that answer an entry one is the first, and only one. */
  lemma {:induction false} AnsweredHasAFirst(events: seq<Event>, token: Token, p: Pending)
    ensures !Unanswered(events, token, p) <==> exists n: nat :: FirstAnswer(events, token, p, n)
    ensures forall n: nat, m: nat :: FirstAnswer(events, token, p, n) && FirstAnswer(events, token, p, m) ==> n == m
  {
    hide AnswersInTime;
    if events != [] {
      var before, last := events[..|events| - 1], events[|events| - 1];
      AnsweredHasAFirst(before, token, p);
      assert events == before + [last];
      AnswersSnoc(before, last, token, p);
      hide FirstAnswer, Unanswered;
      if !Unanswered(before, token, p) {
        var n: nat :| FirstAnswer(before, token, p, n);
        assert FirstAnswer(events, token, p, n);
      } else if AnswersInTime(last, token, p) {
        assert FirstAnswer(events, token, p, |before|);
      }
    }
  }

  lemma {:induction false} HeardAllAppends(pending: Table, a: seq<Event>, b: seq<Event>)
    ensures HeardAll(pending, a + b) == HeardAll(HeardAll(pending, a), b)
    decreases |b|
  {
    hide Heard;
    if b == [] {
      assert a + b == a;
    } else {
      HeardAllAppends(pending, a, b[..|b| - 1]);
      assert (a + b)[..|a + b| - 1] == a + b[..|b| - 1];
    }
  }

  lemma AnswersSnoc(events: seq<Event>, last: Event, token: Token, p: Pending)
    ensures Unanswered(events + [last], token, p) <==> Unanswered(events, token, p) && !AnswersInTime(last, token, p)
    ensures forall n: nat :: FirstAnswer(events + [last], token, p, n) <==>
              || FirstAnswer(events, token, p, n)
              || (n == |events| && Unanswered(events, token, p) && AnswersInTime(last, token, p))
  {
    hide AnswersInTime;
    var all := events + [last];
    assert forall i :: 0 <= i < |events| ==> all[i] == events[i];
    assert all[|events|] == last;
    assert forall n :: 0 <= n <= |events| ==> all[..n] == events[..n];
    assert events[..|events|] == events;
  }

  lemma HeardOwn(pending: Table, token: Token, e: Event)
    requires token in pending
    ensures var p, after := pending[token], Heard(pending, e.frame, e.at);
      && token in after
      && after[token] == if p.future.Waiting? && AnswersInTime(e, token, p)
                         then p.(future := Done(e.at, SnrsIn(e.frame, p.route))) else p
  {
    hide Fits, SnrsIn;
  }

  /** The frame numbered `n` is what completed the entry. */
  ghost predicate CompletedBy(events: seq<Event>, p: Pending, f: Future, n: nat) {
    && n < |events| && |events[n].frame| >= 12 + |p.route|
    && f == Done(events[n].at, SnrsIn(events[n].frame, p.route))
  }

  lemma AnswerIsLongEnough(e: Event, token: Token, p: Pending)
    requires AnswersInTime(e, token, p)
    ensures |e.frame| >= 12 + |p.route|
  {
  }

  /** A waiting entry is completed by the first frame that answers it in time, and by no other. */
  lemma {:induction false} HeardAllOwn(pending: Table, token: Token, events: seq<Event>)
    requires token in pending && pending[token].future.Waiting?
    ensures token in HeardAll(pending, events)
    ensures var p, e := pending[token], HeardAll(pending, events)[token];
      && e == p.(future := e.future)
      && (e.future.Waiting? <==> Unanswered(events, token, p))
      && forall n: nat :: FirstAnswer(events, token, p, n) ==> CompletedBy(events, p, e.future, n)
  {
    if events == [] {
    } else {
      var before, last, p := events[..|events| - 1], events[|events| - 1], pending[token];
      HeardAllOwn(pending, token, before);
      HeardOwn(HeardAll(pending, before), token, last);
      assert events == before + [last];
      AnswersSnoc(before, last, token, p);
      hide Heard, SnrsIn, Unanswered;
      var e := HeardAll(pending, events)[token];
      forall n: nat | FirstAnswer(events, token, p, n)
        ensures CompletedBy(events, p, e.future, n)
      {
        AnswerIsLongEnough(events[n], token, p);
        if n < |before| {
          assert FirstAnswer(before, token, p, n);
          assert CompletedBy(before, p, e.future, n);
        }
      }
    }
  }

  /** What frames make of the other entries does not depend on this one. */
  lemma {:induction false} HeardAllOthers(pending: Table, token: Token, own: Pending, events: seq<Event>)
    requires token !in pending
    ensures HeardAll(pending[token := own], events) - {token} == HeardAll(pending, events)
    ensures HeardAll(pending, events).Keys == pending.Keys
  {
    hide Fits, SnrsIn, TokenOf;
    if events == [] {
      assert pending[token := own] - {token} == pending;
    } else {
      var before, last := events[..|events| - 1], events[|events| - 1];
      HeardAllOthers(pending, token, own, before);
      HeardOthers(HeardAll(pending[token := own], before), token, last.frame, last.at);
    }
  }

  lemma HeardOthers(pending: Table, token: Token, frame: Bytes, now: real)
    ensures Heard(pending, frame, now) - {token} == Heard(pending - {token}, frame, now)
    ensures Heard(pending - {token}, frame, now).Keys == pending.Keys - {token}
  {
  }

  // ---------------------------------------------------------------- all interleavings

  datatype Outcome =
    | Returned(elapsed: real, snrs: seq<real>)
    | Rejected     // the trace command was not accepted
    | TimedOut
    | Stopped      // cancelled, or the command raised

  datatype Phase = Sending | Awaiting | Ended(outcome: Outcome)

  /** `accepted` says that the node took the trace command. */
  datatype Ping = Ping(token: Token, route: Bytes, flags: TraceFlags, started: real, accepted: bool, phase: Phase)

  /** A frame with the time it was dispatched. */
  datatype Event = Event(at: real, frame: Bytes)

  /** `events` are the frames heard so far; `completedBy` tells which of them completed a probe. */
  datatype State = State(
    now: real,
    pending: Table,
    pings: map<nat, Ping>,
    events: seq<Event>,
    completedBy: map<nat, nat>)

  datatype Step =
    | Tick(now: real)
    | Begin(id: nat, token: Token, route: Bytes, flags: TraceFlags, started: real)
    | Hear(frame: Bytes)
    | CommandReturns(id: nat, accepted: bool)
    | Resume(id: nat)    // the awaited future is done
    | Expire(id: nat)    // the deadline's timeout cancels the probe
    | Stop(id: nat)      // anything else ends it

  const START := State(0.0, map[], map[], [], map[])

  predicate Live(p: Ping) {
    !p.phase.Ended?
  }

  predicate Enabled(s: State, step: Step) {
    match step
    case Tick(now) => now >= s.now
    case Begin(id, token, _, _, started) => id !in s.pings && token !in s.pending && started <= s.now
    case Hear(_) => true
    case CommandReturns(id, _) => id in s.pings && s.pings[id].phase == Sending
    case Resume(id) =>
      && id in s.pings && s.pings[id].phase == Awaiting
      && s.pings[id].token in s.pending && s.pending[s.pings[id].token].future.Done?
    case Expire(id) => id in s.pings && Live(s.pings[id])
    case Stop(id) => id in s.pings && Live(s.pings[id])
  }

  /** The `finally` of `ping`. */
  function Finish(s: State, id: nat, outcome: Outcome): State
    requires id in s.pings
  {
    var p := s.pings[id];
    s.(pings := s.pings[id := p.(phase := Ended(outcome))], pending := s.pending - {p.token})
  }

  /** The probe that a table entry belongs to. */
  ghost predicate Owner(s: State, token: Token, id: nat) {
    id in s.pings && Live(s.pings[id]) && s.pings[id].token == token
  }

  ghost function HearStep(s: State, frame: Bytes): State {
    var pending, token := Heard(s.pending, frame, s.now), TokenOf(frame);
    var s' := s.(pending := pending, events := s.events + [Event(s.now, frame)]);
    if pending != s.pending && token.Some? && exists id: nat :: Owner(s, token.value, id) then
      var id: nat :| Owner(s, token.value, id);
      s'.(completedBy := s.completedBy[id := |s.events|])
    else s'
  }

  ghost function Next(s: State, step: Step): State
    requires Enabled(s, step)
  {
    match step
    case Tick(now) => s.(now := now)
    case Begin(id, token, route, flags, started) =>
      s.(pings := s.pings[id := Ping(token, route, flags, started, false, Sending)],
         pending := s.pending[token := Entry(route, flags, started)])
    case Hear(frame) => HearStep(s, frame)
    case CommandReturns(id, accepted) =>
      if accepted then s.(pings := s.pings[id := s.pings[id].(accepted := true, phase := Awaiting)])
      else Finish(s, id, Rejected)
    case Resume(id) =>
      var p := s.pings[id];
      var f := s.pending[p.token].future;
      Finish(s, id,
             if s.now >= p.started + PING_TIMEOUT then TimedOut
             else Returned((f.received - p.started) * 1000.0, f.snrs))
    case Expire(id) => Finish(s, id, TimedOut)
    case Stop(id) => Finish(s, id, Stopped)
  }

  ghost predicate Run(s: State, steps: seq<Step>, t: State)
    decreases |steps|
  {
    if steps == [] then s == t
    else Enabled(s, steps[0]) && Run(Next(s, steps[0]), steps[1..], t)
  }

  /** A probe begins unaccepted, under a token that is free, and any number of them may. */
  lemma ProbesBegin(s: State, id: nat, token: Token, route: Bytes, flags: TraceFlags, started: real)
    ensures Enabled(s, Begin(id, token, route, flags, started)) <==>
              id !in s.pings && token !in s.pending && s.now >= started
    ensures id !in s.pings && token !in s.pending && s.now >= started ==>
              var t := Next(s, Begin(id, token, route, flags, started));
              && t.pings == s.pings[id := Ping(token, route, flags, started, false, Sending)]
              && t.pending == s.pending[token := Pending(route, flags, started + 5.0, Waiting)]
              && t.events == s.events && t.now == s.now && t.completedBy == s.completedBy
  {
  }

  /** A command that the node takes leaves its probe waiting for the answer; one that it refuses ends it. */
  lemma CommandsEnd(s: State, id: nat, accepted: bool)
    requires id in s.pings && s.pings[id].phase == Sending
    ensures Enabled(s, CommandReturns(id, accepted))
    ensures var p := s.pings[id];
      Next(s, CommandReturns(id, accepted)) ==
      if accepted then s.(pings := s.pings[id := p.(accepted := true, phase := Awaiting)])
      else s.(pings := s.pings[id := p.(phase := Ended(Rejected))], pending := s.pending - {p.token})
  {
  }

  /** Time passes at will, and any frame may be heard at any time. */
  lemma FramesAndClocks(s: State, now: real, frame: Bytes)
    ensures Enabled(s, Tick(now)) <==> s.now <= now
    ensures now >= s.now ==> Next(s, Tick(now)) == s.(now := now)
    ensures Enabled(s, Hear(frame))
    ensures var t := Next(s, Hear(frame));
      t.events == s.events + [Event(s.now, frame)] && t.pending == Heard(s.pending, frame, s.now)
      && t.pings == s.pings && t.now == s.now
  {
  }

  // ---------------------------------------------------------------- the invariant

  /** `events[n]` answers the probe, in time, with this result. */
  ghost predicate AnsweredBy(events: seq<Event>, p: Ping, received: real, snrs: seq<real>, n: nat) {
    && n < |events|
    && events[n].at == received
    && p.started <= received < p.started + PING_TIMEOUT
    && Answers(events[n].frame, p.token, p.route, p.flags)
    && snrs == SnrsIn(events[n].frame, p.route)
  }

  predicate Mirrors(p: Ping, e: Pending) {
    e.route == p.route && e.flags == p.flags && e.deadline == p.started + PING_TIMEOUT
  }

  /** A live probe has its own entry, completed or not; a probe that returned was answered in time. */
  ghost predicate PingSound(s: State, id: nat)
    requires id in s.pings
  {
    var p := s.pings[id];
    match p.phase
    case Ended(Returned(elapsed, snrs)) =>
      && p.accepted
      && 0.0 <= elapsed < 5000.0
      && id in s.completedBy
      && AnsweredBy(s.events, p, p.started + elapsed / 1000.0, snrs, s.completedBy[id])
    case Ended(_) => true
    case _ =>
      && p.started <= s.now
      && (p.phase == Awaiting ==> p.accepted)
      && p.token in s.pending
      && Mirrors(p, s.pending[p.token])
      && match s.pending[p.token].future
         case Waiting => id !in s.completedBy
         case Done(received, snrs) =>
           id in s.completedBy && AnsweredBy(s.events, p, received, snrs, s.completedBy[id])
  }

  ghost predicate OneOwnerEach(s: State) {
    && (forall token :: token in s.pending ==> exists id: nat :: Owner(s, token, id))
    && (forall token, i: nat, j: nat :: Owner(s, token, i) && Owner(s, token, j) ==> i == j)
  }

  ghost predicate CompletionsSound(s: State) {
    && (forall id :: id in s.completedBy ==> id in s.pings && s.completedBy[id] < |s.events|)
    && (forall i, j :: i in s.completedBy && j in s.completedBy && s.completedBy[i] == s.completedBy[j] ==> i == j)
  }

  ghost predicate Inv(s: State) {
    && (forall id :: id in s.pings ==> PingSound(s, id))
    && OneOwnerEach(s)
    && CompletionsSound(s)
  }

  // ---------------------------------------------------------------- each step keeps it

  lemma AnswerStays(events: seq<Event>, later: seq<Event>, p: Ping, q: Ping, received: real, snrs: seq<real>, n: nat)
    requires AnsweredBy(events, p, received, snrs, n) && events <= later
    requires q.token == p.token && q.route == p.route && q.flags == p.flags && q.started == p.started
    ensures AnsweredBy(later, q, received, snrs, n)
  {
  }

  /** What a probe's soundness depends on. */
  lemma PingStays(s: State, t: State, k: nat)
    requires k in s.pings && PingSound(s, k) && k in t.pings && t.pings[k] == s.pings[k]
    requires s.now <= t.now && s.events <= t.events
    requires Live(s.pings[k]) ==>
               s.pings[k].token in t.pending && t.pending[s.pings[k].token] == s.pending[s.pings[k].token]
    requires k in t.completedBy <==> k in s.completedBy
    requires k in s.completedBy ==> t.completedBy[k] == s.completedBy[k]
    ensures PingSound(t, k)
  {
    hide AnsweredBy;
    var p := s.pings[k];
    match p.phase {
      case Ended(Returned(elapsed, snrs)) =>
        AnswerStays(s.events, t.events, p, p, p.started + elapsed / 1000.0, snrs, s.completedBy[k]);
      case Ended(_) =>
      case _ =>
        match s.pending[p.token].future {
          case Waiting =>
          case Done(received, snrs) => AnswerStays(s.events, t.events, p, p, received, snrs, s.completedBy[k]);
        }
    }
  }

  /** Nothing but probe `id` and its table entry differs, apart from later time and frames. */
  ghost predicate SameElsewhere(s: State, t: State, id: nat) {
    && id in t.pings
    && s.now <= t.now && s.events <= t.events
    && (forall k :: k != id ==> (k in t.pings <==> k in s.pings) && (k in s.pings ==> t.pings[k] == s.pings[k]))
    && (forall k :: k != id ==>
          && (k in t.completedBy <==> k in s.completedBy)
          && (k in s.completedBy ==> t.completedBy[k] == s.completedBy[k]))
    && (forall token :: token != t.pings[id].token ==>
          (token in t.pending <==> token in s.pending) && (token in s.pending ==> t.pending[token] == s.pending[token]))
  }

  /** The probe's token is in the table exactly while it is live, and no other live probe has it. */
  ghost predicate OwnsItsToken(s: State, t: State, id: nat)
    requires id in t.pings
  {
    && (t.pings[id].token in t.pending <==> Live(t.pings[id]))
    && (forall k: nat :: k != id ==> !Owner(s, t.pings[id].token, k))
  }

  lemma OthersStaySound(s: State, t: State, id: nat)
    requires forall k :: k in s.pings ==> PingSound(s, k)
    requires SameElsewhere(s, t, id) && OwnsItsToken(s, t, id)
    ensures forall k :: k in t.pings && k != id ==> PingSound(t, k)
  {
    forall k | k in t.pings && k != id
      ensures PingSound(t, k)
    {
      assert PingSound(s, k);
      if Live(s.pings[k]) {
        assert Owner(s, s.pings[k].token, k);
      }
      hide PingSound;
      LiveIsListed(s, k);
      PingStays(s, t, k);
    }
  }

  lemma LiveIsListed(s: State, k: nat)
    requires k in s.pings && PingSound(s, k)
    ensures Live(s.pings[k]) ==> s.pings[k].token in s.pending
  {
  }

  lemma OwnersStay(s: State, t: State, id: nat)
    requires OneOwnerEach(s) && SameElsewhere(s, t, id) && OwnsItsToken(s, t, id)
    requires id in s.pings ==> s.pings[id].token == t.pings[id].token
    ensures OneOwnerEach(t)
  {
    var mine := t.pings[id].token;
    assert forall token, k: nat :: k != id ==> (Owner(t, token, k) <==> Owner(s, token, k));
    assert forall token :: Owner(t, token, id) ==> token == mine;
    forall token | token in t.pending
      ensures exists k: nat :: Owner(t, token, k)
    {
      if token == mine {
        assert Owner(t, token, id);
      } else {
        var k: nat :| Owner(s, token, k);
        assert Owner(t, token, k);
      }
    }
  }

  lemma TickKeepsInv(s: State, now: real)
    requires Inv(s) && Enabled(s, Tick(now))
    ensures Inv(Next(s, Tick(now)))
  {
    var t := Next(s, Tick(now));
    OwnersDependOnPings(s, t);
    forall k | k in t.pings
      ensures PingSound(t, k)
    {
      assert PingSound(s, k);
      hide PingSound;
      LiveIsListed(s, k);
      PingStays(s, t, k);
    }
  }

  lemma OwnersDependOnPings(s: State, t: State)
    requires OneOwnerEach(s) && t.pings == s.pings && t.pending.Keys == s.pending.Keys
    ensures OneOwnerEach(t)
  {
    assert forall token, k: nat :: Owner(t, token, k) <==> Owner(s, token, k);
    forall token | token in t.pending
      ensures exists k: nat :: Owner(t, token, k)
    {
      assert token in s.pending;
    }
  }

  lemma FreeTokenHasNoOwner(s: State, token: Token)
    requires Inv(s) && token !in s.pending
    ensures forall k: nat :: !Owner(s, token, k)
  {
    forall k: nat
      ensures !Owner(s, token, k)
    {
      if Owner(s, token, k) {
        WaitingIsNotCompleted(s, k);
        assert false;
      }
    }
  }

  lemma NewProbeIsSound(s: State, step: Step)
    requires Inv(s) && Enabled(s, step) && step.Begin?
    ensures PingSound(Next(s, step), step.id)
  {
    hide PingSound, OneOwnerEach;
    var t := Next(s, step);
    assert step.id !in t.completedBy;
    FreshIsSound(t, step.id);
  }

  lemma FreshIsSound(t: State, id: nat)
    requires id in t.pings && t.pings[id].phase == Sending && t.pings[id].started <= t.now && id !in t.completedBy
    requires t.pings[id].token in t.pending
    requires t.pending[t.pings[id].token] == Entry(t.pings[id].route, t.pings[id].flags, t.pings[id].started)
    ensures PingSound(t, id)
  {
  }

  lemma BeginKeepsInv(s: State, step: Step)
    requires Inv(s) && Enabled(s, step) && step.Begin?
    ensures Inv(Next(s, step))
  {
    FreeTokenHasNoOwner(s, step.token);
    NewProbeIsSound(s, step);
    hide PingSound;
    OthersStaySound(s, Next(s, step), step.id);
    OwnersStay(s, Next(s, step), step.id);
  }

  lemma CommandAcceptedKeepsInv(s: State, id: nat)
    requires Inv(s) && Enabled(s, CommandReturns(id, true))
    ensures Inv(Next(s, CommandReturns(id, true)))
  {
    var t := Next(s, CommandReturns(id, true));
    assert PingSound(s, id);
    assert Owner(s, s.pings[id].token, id);
    OthersStaySound(s, t, id);
    OwnersStay(s, t, id);
    var f := s.pending[s.pings[id].token].future;
    if f.Done? {
      AnswerStays(s.events, t.events, s.pings[id], t.pings[id], f.received, f.snrs, s.completedBy[id]);
    }
  }

  lemma EndedIsSound(t: State, id: nat)
    requires id in t.pings && t.pings[id].phase.Ended?
    ensures var p := t.pings[id];
      PingSound(t, id) <==> match p.phase.outcome
        case Returned(elapsed, snrs) =>
          && p.accepted && 0.0 <= elapsed < 5000.0 && id in t.completedBy
          && AnsweredBy(t.events, p, p.started + elapsed / 1000.0, snrs, t.completedBy[id])
        case _ => true
  {
  }

  lemma FinishKeepsInv(s: State, id: nat, outcome: Outcome)
    requires Inv(s) && id in s.pings && Live(s.pings[id])
    requires outcome.Returned? ==>
      var p := s.pings[id];
      && p.accepted && 0.0 <= outcome.elapsed < 5000.0 && id in s.completedBy
      && AnsweredBy(s.events, p, p.started + outcome.elapsed / 1000.0, outcome.snrs, s.completedBy[id])
    ensures Inv(Finish(s, id, outcome))
  {
    hide AnsweredBy, PingSound;
    var t := Finish(s, id, outcome);
    assert Owner(s, s.pings[id].token, id);
    OthersStaySound(s, t, id);
    OwnersStay(s, t, id);
    EndedIsSound(t, id);
    if outcome.Returned? {
      AnswerStays(s.events, t.events, s.pings[id], t.pings[id], s.pings[id].started + outcome.elapsed / 1000.0,
                  outcome.snrs, s.completedBy[id]);
    }
  }

  /** A probe whose future is done returns before its deadline, or times out. */
  lemma ResumeKeepsInv(s: State, id: nat)
    requires Inv(s) && Enabled(s, Resume(id))
    ensures Inv(Next(s, Resume(id)))
  {
    hide Inv, PingSound, AnsweredBy;
    var p := s.pings[id];
    DoneWasAnswered(s, id);
    var f := s.pending[p.token].future;
    InTime(s.events, p, f.received, f.snrs, s.completedBy[id]);
    Milliseconds(p.started, f.received);
    FinishKeepsInv(s, id,
      if s.now >= p.started + PING_TIMEOUT then TimedOut else Returned((f.received - p.started) * 1000.0, f.snrs));
  }

  lemma DoneWasAnswered(s: State, id: nat)
    requires Inv(s) && Enabled(s, Resume(id))
    ensures var p := s.pings[id];
      var f := s.pending[p.token].future;
      p.accepted && id in s.completedBy && AnsweredBy(s.events, p, f.received, f.snrs, s.completedBy[id])
  {
    assert PingSound(s, id);
  }

  lemma InTime(events: seq<Event>, p: Ping, received: real, snrs: seq<real>, n: nat)
    requires AnsweredBy(events, p, received, snrs, n)
    ensures p.started <= received < p.started + PING_TIMEOUT
  {
  }

  lemma Milliseconds(started: real, received: real)
    requires started <= received < started + PING_TIMEOUT
    ensures 0.0 <= (received - started) * 1000.0 < 5000.0
    ensures started + (received - started) * 1000.0 / 1000.0 == received
  {
  }

  /** A frame built for this entry, heard in time. */
  ghost predicate IsAnswer(p: Pending, token: Token, frame: Bytes, now: real)
    requires Wide(token)
  {
    && p.future.Waiting? && now < p.deadline
    && exists reserved: byte, snrs: seq<int8> ::
         && |p.route| < 256 && |snrs| == Hops(p.route, p.flags) + 1
         && frame == PushTrace(reserved, p.flags, token, p.route, snrs)
  }

  /**
   In terms of the air: an entry is completed exactly by a PUSH_TRACE frame that was built for its
   token, flags and route and heard while it waits within its deadline; it then has the frame's time
   and SNRs, and no other entry is touched.
   */
  lemma CompletesExactlyWhen(pending: Table, token: Token, frame: Bytes, now: real)
    requires token in pending && Wide(token)
    ensures var p, after := pending[token], Heard(pending, frame, now);
      && after.Keys == pending.Keys
      && (after[token] != p <==> IsAnswer(p, token, frame, now))
      && (after[token] != p ==> forall other :: other in pending && other != token ==> after[other] == pending[other])
  {
    hide Fits, SnrsIn, PushTrace, Hops, Wide;
    HeardMeaning(pending, frame, now);
    AnswersExactlyWhen(frame, token, pending[token].route, pending[token].flags);
  }

  lemma CompletesWithItsSnrs(pending: Table, token: Token, reserved: byte, snrs: seq<int8>, now: real)
    requires token in pending && Wide(token) && pending[token].future.Waiting? && now < pending[token].deadline
    requires |pending[token].route| < 256 && |snrs| == Hops(pending[token].route, pending[token].flags) + 1
    ensures var p := pending[token];
      Heard(pending, PushTrace(reserved, p.flags, token, p.route, snrs), now)
      == pending[token := p.(future := Done(now, Quarters(snrs)))]
  {
    hide Fits, SnrsIn, PushTrace, Hops, Wide, Quarters;
    var p := pending[token];
    var frame := PushTrace(reserved, p.flags, token, p.route, snrs);
    TraceRoundTrip(reserved, p.flags, token, p.route, snrs);
    HeardMeaning(pending, frame, now);
  }

  /** A frame touches at most the entry of the token it carries, and only if it answers it in time. */
  lemma HeardMeaning(pending: Table, frame: Bytes, now: real)
    ensures var after, token := Heard(pending, frame, now), TokenOf(frame);
      if token.Some? && token.value in pending && pending[token.value].future.Waiting?
        && Fits(frame, pending[token.value].route, pending[token.value].flags) && now < pending[token.value].deadline
      then
        var p := pending[token.value];
        after == pending[token.value := p.(future := Done(now, SnrsIn(frame, p.route)))] && after != pending
      else after == pending
  {
    var token := TokenOf(frame);
    if token.Some? && token.value in pending && pending[token.value].future.Waiting?
      && Fits(frame, pending[token.value].route, pending[token.value].flags) && now < pending[token.value].deadline
    {
      assert Heard(pending, frame, now)[token.value].future.Done?;
    }
  }

  lemma HearKeepsInv(s: State, frame: Bytes)
    requires Inv(s)
    ensures Inv(HearStep(s, frame))
  {
    HeardMeaning(s.pending, frame, s.now);
    var t, token := HearStep(s, frame), TokenOf(frame);
    if t.pending == s.pending {
      UnansweredKeepsInv(s, t);
    } else {
      assert exists id: nat :: Owner(s, token.value, id);
      var id: nat :| Owner(s, token.value, id) && t.completedBy == s.completedBy[id := |s.events|];
      AnsweredKeepsInv(s, frame, id, t);
    }
  }

  lemma UnansweredKeepsInv(s: State, t: State)
    requires Inv(s)
    requires s.events <= t.events && t == s.(events := t.events)
    ensures Inv(t)
  {
    OwnersDependOnPings(s, t);
    forall k | k in t.pings
      ensures PingSound(t, k)
    {
      assert PingSound(s, k);
      hide PingSound;
      LiveIsListed(s, k);
      PingStays(s, t, k);
    }
  }

  lemma AnsweredKeepsInv(s: State, frame: Bytes, id: nat, t: State)
    requires Inv(s) && TokenOf(frame).Some? && Owner(s, TokenOf(frame).value, id)
    requires TokenOf(frame).value in s.pending
    requires var e := s.pending[TokenOf(frame).value];
      && e.future.Waiting? && Fits(frame, e.route, e.flags) && s.now < e.deadline
      && t == s.(pending := s.pending[TokenOf(frame).value := e.(future := Done(s.now, SnrsIn(frame, e.route)))],
                 events := s.events + [Event(s.now, frame)],
                 completedBy := s.completedBy[id := |s.events|])
    ensures Inv(t)
  {
    hide Fits, SnrsIn, AnsweredBy, PingSound, TokenOf;
    assert PingSound(s, id);
    NewAnswer(s, frame, id);
    OthersStaySound(s, t, id);
    OwnersDependOnPings(s, t);
    AnsweredIsSound(s, t, id);
  }

  lemma AnsweredIsSound(s: State, t: State, id: nat)
    requires id in s.pings && PingSound(s, id) && Live(s.pings[id])
    requires t.pings == s.pings && t.now == s.now && id in t.completedBy && s.pings[id].token in t.pending
    requires var e := t.pending[s.pings[id].token];
      && Mirrors(s.pings[id], e) && e.future.Done?
      && AnsweredBy(t.events, s.pings[id], e.future.received, e.future.snrs, t.completedBy[id])
    ensures PingSound(t, id)
  {
    hide AnsweredBy;
  }

  lemma NewAnswer(s: State, frame: Bytes, id: nat)
    requires id in s.pings && PingSound(s, id) && Live(s.pings[id])
    requires TokenOf(frame) == Some(s.pings[id].token) && s.pings[id].token in s.pending
    requires var e := s.pending[s.pings[id].token];
      e.future.Waiting? && Fits(frame, e.route, e.flags) && s.now < e.deadline
    ensures Mirrors(s.pings[id], s.pending[s.pings[id].token])
    ensures AnsweredBy(s.events + [Event(s.now, frame)], s.pings[id], s.now, SnrsIn(frame, s.pings[id].route),
                       |s.events|)
  {
  }

  lemma StepKeepsInv(s: State, step: Step)
    requires Inv(s) && Enabled(s, step)
    ensures Inv(Next(s, step))
  {
    hide Inv, HearStep;
    match step {
      case Tick(now) => TickKeepsInv(s, now);
      case Begin(_, _, _, _, _) => BeginKeepsInv(s, step);
      case Hear(frame) => HearKeepsInv(s, frame);
      case CommandReturns(id, accepted) =>
        if accepted { CommandAcceptedKeepsInv(s, id); } else { FinishKeepsInv(s, id, Rejected); }
      case Resume(id) => ResumeKeepsInv(s, id);
      case Expire(id) => FinishKeepsInv(s, id, TimedOut);
      case Stop(id) => FinishKeepsInv(s, id, Stopped);
    }
  }

  lemma {:induction false} RunKeepsInv(s: State, steps: seq<Step>, t: State)
    requires Inv(s) && Run(s, steps, t)
    ensures Inv(t)
    decreases |steps|
  {
    hide Inv, Next, Enabled;
    if steps != [] {
      StepKeepsInv(s, steps[0]);
      RunKeepsInv(Next(s, steps[0]), steps[1..], t);
    }
  }

  // ---------------------------------------------------------------- over every run

  /** The table's keys are exactly the tokens of the live probes, all different; no entry outlives its probe. */
  lemma PendingIsLive(steps: seq<Step>, t: State)
    requires Run(START, steps, t)
    ensures forall token :: token in t.pending <==> exists id: nat :: Owner(t, token, id)
    ensures forall token, i: nat, j: nat :: Owner(t, token, i) && Owner(t, token, j) ==> i == j
  {
    RunKeepsInv(START, steps, t);
    forall token, id: nat | Owner(t, token, id)
      ensures token in t.pending
    {
      assert PingSound(t, id);
    }
  }

  /**
   A probe returns only if its command was accepted and a frame with its tag, auth, flags, route and
   exact length arrived after it started and before its deadline; it reports that frame's SNRs and
   the time until it arrived, less than five seconds.
   */
  lemma ReturnsOnlyWhenAnswered(steps: seq<Step>, t: State, id: nat, elapsed: real, snrs: seq<real>)
    requires Run(START, steps, t) && id in t.pings && t.pings[id].phase == Ended(Returned(elapsed, snrs))
    ensures var p := t.pings[id];
      && p.accepted
      && 0.0 <= elapsed < 5000.0
      && id in t.completedBy
      && AnsweredBy(t.events, p, p.started + elapsed / 1000.0, snrs, t.completedBy[id])
  {
    RunKeepsInv(START, steps, t);
    assert PingSound(t, id);
  }

  /** Frame number `n` answers probe `p` in time, with what the probe returned. */
  ghost predicate AnswersProbe(t: State, p: Ping, n: nat) {
    && p.phase.Ended? && p.phase.outcome.Returned?
    && AnsweredBy(t.events, p, p.started + p.phase.outcome.elapsed / 1000.0, p.phase.outcome.snrs, n)
  }

  /** Two probes that returned were answered by two different frames. */
  lemma FramesCompleteOneProbe(steps: seq<Step>, t: State, i: nat, j: nat)
    requires Run(START, steps, t) && i in t.pings && j in t.pings && i != j
    requires t.pings[i].phase.Ended? && t.pings[i].phase.outcome.Returned?
    requires t.pings[j].phase.Ended? && t.pings[j].phase.outcome.Returned?
    ensures exists n, m :: n != m && AnswersProbe(t, t.pings[i], n) && AnswersProbe(t, t.pings[j], m)
  {
    hide AnsweredBy;
    ReturnsOnlyWhenAnswered(steps, t, i, t.pings[i].phase.outcome.elapsed, t.pings[i].phase.outcome.snrs);
    ReturnsOnlyWhenAnswered(steps, t, j, t.pings[j].phase.outcome.elapsed, t.pings[j].phase.outcome.snrs);
    CompletedByIsInjective(steps, t);
    var n, m := t.completedBy[i], t.completedBy[j];
    assert AnswersProbe(t, t.pings[i], n) && AnswersProbe(t, t.pings[j], m);
  }

  lemma CompletedByIsInjective(steps: seq<Step>, t: State)
    requires Run(START, steps, t)
    ensures forall i, j :: i in t.completedBy && j in t.completedBy && t.completedBy[i] == t.completedBy[j] ==> i == j
  {
    RunKeepsInv(START, steps, t);
  }

  /** Once completed, a probe keeps the frame that completed it: none completes it again. */
  lemma CompletedOnce(s: State, step: Step)
    requires Inv(s) && Enabled(s, step)
    ensures forall id :: id in s.completedBy ==>
      id in Next(s, step).completedBy && Next(s, step).completedBy[id] == s.completedBy[id]
  {
    hide Inv, Heard;
    if step.Hear? {
      HeardMeaning(s.pending, step.frame, s.now);
      var token := TokenOf(step.frame);
      hide TokenOf, Fits, SnrsIn;
      forall id: nat | token.Some? && Owner(s, token.value, id) && HearStep(s, step.frame).pending != s.pending
        ensures id !in s.completedBy
      {
        WaitingIsNotCompleted(s, id);
      }
    }
  }

  lemma WaitingIsNotCompleted(s: State, id: nat)
    requires Inv(s) && id in s.pings && Live(s.pings[id])
    ensures s.pings[id].token in s.pending
    ensures s.pending[s.pings[id].token].future.Waiting? ==> id !in s.completedBy
  {
    assert PingSound(s, id);
  }
}
