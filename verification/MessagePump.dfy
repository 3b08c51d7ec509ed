/**
 The message pump's wake-up protocol (device.py `_message_pump`, proxy.py client bookkeeping).
 The node queues messages; the pump sleeps on an event flag and drains the queue when the node is
 connected and fetching is allowed. Each step is what runs between two `await`s.
 */
module MessagePump {

  datatype FetchMode = Auto | Always | Never

  /** Where the pump stands. */
  datatype Pump =
    | Sleeping                  // awaiting the flag
    | Asking                    // awaiting `get_msg`, which the node has not answered
    | Answered(reply: Reply)    // the node has answered, the pump has not resumed
    | Resting                   // the pause after a fetched message
    | Stopped

  datatype Reply = Message | NoMoreMessages | Error

  /**
   `queued` is the number of messages on the node. `clients` counts the proxy's client set and
   `leaving` the handlers whose client `stop` has already removed from that set. `faulted` records
   that the pump gave up on an error since the flag was last set.
   */
  datatype State = State(
    mode: FetchMode,
    queued: nat,
    flag: bool,
    connected: bool,
    stopping: bool,
    clients: nat,
    leaving: nat,
    pump: Pump,
    faulted: bool)

  predicate FetchAllowed(s: State) {
    match s.mode
    case Always => true
    case Never => false
    case Auto => s.clients == 0
  }

  datatype Step =
    | Arrive            // a message reaches the node; MESSAGES_WAITING is seen if connected
    | ClientFetch       // a proxied client takes a message
    | Connect
    | Disconnect
    | Join              // a proxy client is accepted
    | Leave(member: bool) // a client handler ends; its client may be in the set or already removed
    | ProxyStop         // the proxy empties its client set
    | StopDaemon
    | Wake              // the pump sees the flag
    | NodeReplies(error: bool)
    | Resume            // the pump gets the reply
    | Raise             // `get_msg` raises instead
    | Rested            // the pause is over

  ghost predicate Enabled(s: State, step: Step) {
    match step
    case Arrive | Disconnect | Join | ProxyStop | StopDaemon => true
    case Connect => !s.connected
    case ClientFetch => s.queued > 0
    case Leave(member) => if member then s.clients > 0 else s.leaving > 0
    case Wake => s.pump.Sleeping? && s.flag
    case NodeReplies(_) => s.pump.Asking?
    case Resume => s.pump.Answered?
    case Raise => s.pump.Asking? || s.pump.Answered?
    case Rested => s.pump.Resting?
  }

  function SetFlag(s: State): State {
    s.(flag := true, faulted := false)
  }

  /** The head of the drain loop: ask for a message or fall back to sleep. */
  function Drain(s: State): State {
    s.(pump := if s.connected && FetchAllowed(s) then Asking else Sleeping)
  }

  /** Leaving the drain loop on an error. */
  function GiveUp(s: State): State {
    s.(pump := Sleeping, faulted := !s.flag)
  }

  function Next(s: State, step: Step): State
    requires Enabled(s, step)
  {
    match step
    case Arrive =>
      var s' := s.(queued := s.queued + 1);
      if s.connected then SetFlag(s') else s'
    case ClientFetch => s.(queued := s.queued - 1)
    case Connect => SetFlag(s.(connected := true))
    case Disconnect => s.(connected := false)
    case Join => s.(clients := s.clients + 1)
    case Leave(member) =>
      var s' := if member then s.(clients := s.clients - 1) else s.(leaving := s.leaving - 1);
      if s'.clients == 0 then SetFlag(s') else s'
    case ProxyStop => s.(clients := 0, leaving := s.leaving + s.clients)
    case StopDaemon => SetFlag(s.(stopping := true))
    case Wake =>
      var s' := s.(flag := false);
      if s.stopping then s'.(pump := Stopped) else Drain(s')
    case NodeReplies(error) =>
      if error then s.(pump := Answered(Error))
      else if s.queued == 0 then s.(pump := Answered(NoMoreMessages))
      else s.(pump := Answered(Message), queued := s.queued - 1)
    case Resume =>
      (match s.pump.reply
       case Message => s.(pump := Resting)
       case NoMoreMessages => s.(pump := Sleeping)
       case Error => GiveUp(s))
    case Raise => GiveUp(s)
    case Rested => Drain(s)
  }

  /** What may happen around the pump, and when the flag is raised for it. */
  lemma AroundThePump(s: State)
    ensures Next(s, Arrive) == s.(queued := s.queued + 1, flag := s.flag || s.connected,
                                  faulted := s.faulted && !s.connected)
    ensures Enabled(s, Connect) <==> !s.connected
    ensures !s.connected ==> Next(s, Connect) == s.(connected := true, flag := true, faulted := false)
    ensures Next(s, Disconnect) == s.(connected := false)
    ensures Next(s, Join) == s.(clients := s.clients + 1)
    ensures Enabled(s, ClientFetch) <==> s.queued >= 1
    ensures Enabled(s, Leave(true)) <==> s.clients >= 1
    ensures Enabled(s, Leave(false)) <==> s.leaving >= 1
    ensures s.clients >= 1 ==>
              Next(s, Leave(true)) == s.(clients := s.clients - 1, flag := s.flag || s.clients == 1,
                                         faulted := s.faulted && s.clients != 1)
    ensures s.leaving >= 1 ==>
              Next(s, Leave(false)) == s.(leaving := s.leaving - 1, flag := s.flag || s.clients == 0,
                                          faulted := s.faulted && s.clients != 0)
    ensures Next(s, StopDaemon) == s.(stopping := true, flag := true, faulted := false)
  {
  }

  /** Waking up takes the flag down; an error or an exception, wherever in a request, sends the pump to sleep. */
  lemma PumpFallsAsleep(s: State, step: Step)
    requires Enabled(s, step)
    ensures step.Wake? ==> s.pump == Sleeping && s.flag && !Next(s, step).flag
    ensures step.Wake? && s.stopping ==> Next(s, step).pump == Stopped
    ensures step.Resume? && s.pump == Answered(Error) ==> Next(s, step) == s.(pump := Sleeping, faulted := !s.flag)
    ensures step.Raise? ==> Next(s, step) == s.(pump := Sleeping, faulted := !s.flag)
    ensures s.pump.Asking? || s.pump.Answered? ==> Enabled(s, Raise)
  {
  }

  /** The steps of fetching `n` messages, and then hearing that there are no more. */
  function Fetching(n: nat): seq<Step> {
    if n == 0 then [NodeReplies(false), Resume] else [NodeReplies(false), Resume, Rested] + Fetching(n - 1)
  }

  /** Undisturbed, a pump that asks a node for messages that are its to fetch takes them all and falls asleep. */
  lemma {:induction false} UndisturbedFetch(s: State)
    requires s.pump == Asking && s.connected && FetchAllowed(s)
    ensures Run(s, Fetching(s.queued), s.(queued := 0, pump := Sleeping))
    decreases s.queued
  {
    var told := Next(s, NodeReplies(false));
    var resumed := Next(told, Resume);
    if s.queued == 0 {
      assert [NodeReplies(false), Resume][1..] == [Resume] && [Resume][1..] == [];
      assert Run(told, [Resume], resumed);
    } else {
      var rested := Next(resumed, Rested);
      UndisturbedFetch(rested);
      var rest := Fetching(s.queued - 1);
      var steps := [NodeReplies(false), Resume, Rested] + rest;
      assert steps[1..] == [Resume, Rested] + rest && ([Resume, Rested] + rest)[1..] == [Rested] + rest;
      assert ([Rested] + rest)[1..] == rest;
      assert Run(resumed, [Rested] + rest, s.(queued := 0, pump := Sleeping));
      assert Run(told, [Resume, Rested] + rest, s.(queued := 0, pump := Sleeping));
    }
  }

  /** So a wake-up that nothing disturbs empties the node's queue, and leaves the flag down and the pump asleep. */
  lemma UndisturbedTurn(s: State)
    requires s.pump == Sleeping && s.flag && !s.stopping && s.connected
    requires s.mode.Always? || (s.mode.Auto? && s.clients == 0)
    ensures Run(s, [Wake] + Fetching(s.queued), s.(queued := 0, flag := false))
  {
    var woken := Next(s, Wake);
    UndisturbedFetch(woken);
    assert ([Wake] + Fetching(s.queued))[1..] == Fetching(s.queued);
  }

  // ---------------------------------------------------------------- the pump as a loop

  datatype GetMsg = Gives(reply: Reply) | Raises

  /** A check of the drain loop's condition, and what `get_msg` does if it holds. */
  datatype Round = Round(open: bool, answer: GetMsg)

  /** The loop goes on. */
  predicate Drains(r: Round) {
    r.open && r.answer == Gives(Message)
  }

  /** `DeviceManager`'s part of the pump's state. */
  class Device {
    var flag: bool
    var stopping: bool

    constructor ()
      ensures !flag && !stopping
    {
      flag, stopping := false, false;
    }

    /**
     One turn of the pump. `rounds` is what its drain loop meets, one entry for each check of its
     condition, with connection losses, clients that join and failures wherever they fall; when the
     entries run out the pump is still draining.
     */
    method PumpTurn(rounds: seq<Round>) returns (fetched: nat, asked: nat, over: bool)
      requires flag
      modifies this`flag
      ensures !flag
      ensures stopping ==> fetched == 0 && asked == 0 && over
      ensures !stopping ==>
        && fetched <= |rounds|
        && (forall i :: 0 <= i < fetched ==> Drains(rounds[i]))
        && (over <==> fetched < |rounds|)
        && (over ==> !Drains(rounds[fetched]))
        && asked == fetched + (if over && rounds[fetched].open then 1 else 0)
    {
      flag := false;
      fetched, asked, over := 0, 0, true;
      if stopping {
        return;
      }
      while fetched < |rounds| && rounds[fetched].open
        invariant fetched <= |rounds| && asked == fetched
        invariant forall i :: 0 <= i < fetched ==> Drains(rounds[i])
      {
        asked := asked + 1;
        if rounds[fetched].answer != Gives(Message) {
          return;
        }
        fetched := fetched + 1;
      }
      over := fetched < |rounds|;
    }
  }

  // ---------------------------------------------------------------- no lost wake-up

  /** There are messages that the daemon could and should fetch. */
  predicate MessagesFetchable(s: State) {
    s.queued > 0 && s.connected && FetchAllowed(s) && !s.stopping
  }

  /** The pump will ask the node again without being woken. */
  predicate Draining(s: State) {
    s.pump.Asking? || s.pump == Answered(Message) || s.pump.Resting?
  }

  /** Messages wait and nothing that the daemon still has to do would fetch them. */
  predicate Stranded(s: State) {
    MessagesFetchable(s) && !s.flag && !Draining(s)
  }

  /** The only ways to be stranded: an error made the pump give up, or the proxy is being stopped. */
  predicate Excused(s: State) {
    s.faulted || s.pump == Answered(Error) || (s.mode.Auto? && s.leaving > 0)
  }

  ghost predicate Inv(s: State) {
    && (s.pump.Stopped? ==> s.stopping)
    && (s.flag ==> !s.faulted)
    && (Stranded(s) ==> Excused(s))
  }

  /** A daemon that has not connected yet, without clients. */
  predicate Start(s: State) {
    !s.flag && !s.connected && !s.stopping && s.clients == 0 && s.leaving == 0 && s.pump.Sleeping? && !s.faulted
  }

  ghost predicate Run(s: State, steps: seq<Step>, t: State)
    decreases |steps|
  {
    if steps == [] then s == t
    else Enabled(s, steps[0]) && Run(Next(s, steps[0]), steps[1..], t)
  }

  lemma StepKeepsInv(s: State, step: Step)
    requires Inv(s) && Enabled(s, step)
    ensures Inv(Next(s, step))
  {
  }

  lemma {:induction false} RunKeepsInv(s: State, steps: seq<Step>, t: State)
    requires Inv(s) && Run(s, steps, t)
    ensures Inv(t)
    decreases |steps|
  {
    if steps != [] {
      StepKeepsInv(s, steps[0]);
      RunKeepsInv(Next(s, steps[0]), steps[1..], t);
    }
  }

  lemma StartMeans(s: State)
    ensures Start(s) <==>
              && s.flag == false && s.connected == false && s.stopping == false && s.clients == 0 && s.leaving == 0
              && s.pump == Sleeping && s.faulted == false
  {
  }

  /**
   Over every history of arrivals, connection changes, client joins and leaves, shutdown and
   failures: fetchable messages are never left behind a sleeping pump, except after an error reply
   or an exception, until the next wake-up, and between the proxy's `stop` and the end of a handler.
   */
  lemma StrandedOnlyWhenExcused(s: State, steps: seq<Step>, t: State)
    requires Start(s) && Run(s, steps, t)
    ensures MessagesFetchable(t) ==> t.flag || Draining(t) || Excused(t)
  {
    RunKeepsInv(s, steps, t);
  }

  predicate Faultless(step: Step) {
    step != NodeReplies(true) && !step.Raise? && !step.ProxyStop?
  }

  lemma {:induction false} FaultlessRunNeedsNoExcuse(s: State, steps: seq<Step>, t: State)
    requires !Excused(s) && Run(s, steps, t)
    requires forall i :: 0 <= i < |steps| ==> Faultless(steps[i])
    ensures !Excused(t)
    decreases |steps|
  {
    hide Next, Enabled;
    if steps != [] {
      assert Faultless(steps[0]);
      FaultlessStepNeedsNoExcuse(s, steps[0]);
      FaultlessRunNeedsNoExcuse(Next(s, steps[0]), steps[1..], t);
    }
  }

  lemma FaultlessStepNeedsNoExcuse(s: State, step: Step)
    requires !Excused(s) && Enabled(s, step) && Faultless(step)
    ensures !Excused(Next(s, step))
  {
  }

  /** No lost wake-up, when `get_msg` gives a message or NO_MORE_MSGS and the proxy is not stopped. */
  lemma NoLostWakeUp(s: State, steps: seq<Step>, t: State)
    requires Start(s) && Run(s, steps, t)
    requires forall i :: 0 <= i < |steps| ==> Faultless(steps[i])
    ensures MessagesFetchable(t) ==> t.flag || Draining(t)
  {
    RunKeepsInv(s, steps, t);
    FaultlessRunNeedsNoExcuse(s, steps, t);
  }

  // ---------------------------------------------------------------- nothing is taken from a client

  /**
   The pump starts to ask exactly when it wakes, or its pause is over, with the node connected and
   messages its to fetch: always, or while no proxy client is connected.
   */
  lemma AsksExactlyWhen(s: State, step: Step)
    requires Enabled(s, step) && !s.pump.Asking?
    ensures Next(s, step).pump.Asking? <==>
              && (step.Rested? || (step.Wake? && !s.stopping))
              && s.connected && (s.mode.Always? || (s.mode.Auto? && s.clients == 0))
  {
  }

  /** The request under way at state `n` was made at step `k`, and nothing but other tasks ran since. */
  ghost predicate AskedAt(trace: seq<State>, steps: seq<Step>, k: nat, n: nat)
    requires |trace| == |steps| + 1
  {
    && k < n <= |steps|
    && (steps[k].Rested? || steps[k].Wake?)
    && forall i :: k < i <= n ==> trace[i].pump.Asking?
  }

  /**
   Over every run: a message that the pump takes from the node was asked for at a moment when the
   node was connected and the message was the daemon's to fetch.
   */
  lemma {:induction false} NothingIsTakenUnasked(trace: seq<State>, steps: seq<Step>, n: nat)
    requires Behaviour(trace, steps) && n <= |steps| && trace[n].pump.Asking?
    ensures exists k: nat ::
      && AskedAt(trace, steps, k, n)
      && trace[k].connected && (trace[k].mode.Always? || (trace[k].mode.Auto? && trace[k].clients == 0))
  {
    assert n > 0;
    var s, step := trace[n - 1], steps[n - 1];
    assert Enabled(s, step) && trace[n] == Next(s, step);
    if s.pump.Asking? {
      NothingIsTakenUnasked(trace, steps, n - 1);
      var k: nat :| AskedAt(trace, steps, k, n - 1)
        && trace[k].connected && (trace[k].mode.Always? || (trace[k].mode.Auto? && trace[k].clients == 0));
      assert AskedAt(trace, steps, k, n);
    } else {
      AsksExactlyWhen(s, step);
      assert AskedAt(trace, steps, n - 1, n);
    }
  }

  /** And only a client, or the node's reply to such a request, takes a message off the node. */
  lemma OnlyRepliesTake(s: State, step: Step)
    requires Enabled(s, step)
    ensures Next(s, step).queued ==
            if step.Arrive? then s.queued + 1
            else if step.ClientFetch? || (step == NodeReplies(false) && s.queued > 0) then s.queued - 1
            else s.queued
    ensures step.NodeReplies? ==> s.pump.Asking?
  {
  }

  // ---------------------------------------------------------------- when the promise fails

  /** `trace` is the sequence of states that `steps` pass through. */
  ghost predicate Behaviour(trace: seq<State>, steps: seq<Step>) {
    && |trace| == |steps| + 1
    && Start(trace[0])
    && forall i :: 0 <= i < |steps| ==> Enabled(trace[i], steps[i]) && trace[i + 1] == Next(trace[i], steps[i])
  }

  /** The pump leaves its drain loop because of an error reply or an exception. */
  predicate GivesUp(s: State, step: Step) {
    (step.Resume? && s.pump == Answered(Error)) || step.Raise?
  }

  /** At step `k` the pump gave up, and nothing has set the flag from then to state `n`. */
  ghost predicate GaveUpAt(trace: seq<State>, steps: seq<Step>, k: nat, n: nat)
    requires |trace| == |steps| + 1
  {
    && k < n <= |steps|
    && GivesUp(trace[k], steps[k])
    && forall i :: k <= i <= n ==> !trace[i].flag
  }

  lemma FaultedStep(s: State, step: Step)
    requires Enabled(s, step) && (s.flag ==> !s.faulted)
    ensures var t := Next(s, step);
      && (t.flag ==> !t.faulted)
      && (t.faulted <==> (s.faulted && !t.flag) || (GivesUp(s, step) && !s.flag))
      && (GivesUp(s, step) ==> t.flag == s.flag)
  {
  }

  lemma {:induction false} FaultedMeaning(trace: seq<State>, steps: seq<Step>, n: nat)
    requires Behaviour(trace, steps) && n <= |steps|
    ensures Inv(trace[n])
    ensures trace[n].faulted <==> exists k: nat :: GaveUpAt(trace, steps, k, n)
  {
    if n > 0 {
      var s, t := trace[n - 1], trace[n];
      FaultedMeaning(trace, steps, n - 1);
      assert Enabled(s, steps[n - 1]) && t == Next(s, steps[n - 1]);
      StepKeepsInv(s, steps[n - 1]);
      FaultedStep(s, steps[n - 1]);
      hide Next, Enabled, Behaviour, GivesUp;
      if s.faulted && !t.flag {
        var k: nat :| GaveUpAt(trace, steps, k, n - 1);
        assert GaveUpAt(trace, steps, k, n);
      }
      if GivesUp(s, steps[n - 1]) && !s.flag {
        assert GaveUpAt(trace, steps, n - 1, n);
      }
      if k: nat :| GaveUpAt(trace, steps, k, n) {
        assert !s.flag && !t.flag;
        assert k < n - 1 ==> GaveUpAt(trace, steps, k, n - 1);
      }
    }
  }

  /**
   Over every run: when the pump sleeps while messages are fetchable and no handler outlives the
   proxy's `stop`, the messages are stranded if and only if the pump once gave up on an error reply
   or an exception and nothing has set the flag since.
   */
  lemma StrandedExactlyWhenGivenUp(trace: seq<State>, steps: seq<Step>)
    requires Behaviour(trace, steps)
    requires var t := trace[|steps|]; t.pump.Sleeping? && MessagesFetchable(t) && t.leaving == 0
    ensures Stranded(trace[|steps|]) <==> exists k: nat :: GaveUpAt(trace, steps, k, |steps|)
  {
    FaultedMeaning(trace, steps, |steps|);
  }

  /**
   A stranded pump that sleeps stays stranded until something sets the flag or takes the messages
   out of its reach: no step of its own helps.
   */
  lemma StrandedUntilPoked(s: State, step: Step)
    requires Stranded(s) && s.pump.Sleeping? && Enabled(s, step)
    ensures
      || Stranded(Next(s, step))
      || Next(s, step).flag
      || !MessagesFetchable(Next(s, step))
    ensures Next(s, step).flag <==> step.Arrive? || step.StopDaemon? || (step.Leave? && Next(s, step).clients == 0)
  {
  }

  /**
   `MeshCoreProxy.stop` lifts the clients' claim on the messages without poking the pump: with a
   client connected in `Auto` mode the queue is stranded, until the first handler ends.
   */
  lemma ProxyStopStrandsUntilAHandlerEnds(s: State)
    requires s.mode.Auto? && s.clients > 0 && s.queued > 0 && s.connected && !s.stopping
    requires !s.flag && s.pump.Sleeping?
    ensures var t := Next(s, ProxyStop);
      Stranded(t) && t.leaving > 0 && Next(t, Leave(false)).flag
  {
  }
}
