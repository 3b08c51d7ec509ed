/**
 Coherence of the proxy's response cache over all interleavings of its clients (proxy.py,
 `_handle_command`). A command handler reads the cache, waits for the command slot, talks to the
 node and, in the same step in which the slot is released, updates the cache.

 What the node would answer to each cacheable request is part of the state, so a command that
 changes the node replaces that function.
 */
module ProxyCoherence {
  import opened Bytes
  import opened ResponseCache

  /** The companion protocol's commands, by name; the ones the cache is indifferent to are OTHER. */
  datatype CommandType =
    | APP_START | GET_CONTACTS | DEVICE_QUERY | GET_BATT_AND_STORAGE | GET_CHANNEL
    | SET_ADVERT_NAME | ADD_UPDATE_CONTACT | SET_RADIO_PARAMS | SET_RADIO_TX_POWER | RESET_PATH
    | SET_ADVERT_LATLON | REMOVE_CONTACT | IMPORT_CONTACT | SET_TUNING_PARAMS | IMPORT_PRIVATE_KEY
    | SET_CHANNEL | SET_DEVICE_PIN | SET_OTHER_PARAMS | SET_CUSTOM_VAR | FACTORY_RESET
    | SET_FLOOD_SCOPE | SET_AUTOADD_CONFIG | SET_PATH_HASH_MODE | SET_DEFAULT_FLOOD_SCOPE | REBOOT
    | OTHER(code: byte)

  /** A command frame: its first byte and the rest. */
  datatype Request = Request(cmd: CommandType, args: Bytes)

  predicate Cacheable(r: Request) {
    match r.cmd
    case APP_START | GET_CONTACTS | DEVICE_QUERY | GET_BATT_AND_STORAGE | GET_CHANNEL => true
    case _ => false
  }

  /** Commands that change what cacheable reads observe. */
  predicate Mutating(r: Request) {
    !Cacheable(r) && !r.cmd.OTHER?
  }

  /** The read-only commands whose answers may be cached, spelt out. */
  const READS: set<CommandType> := {APP_START, GET_CONTACTS, DEVICE_QUERY, GET_BATT_AND_STORAGE, GET_CHANNEL}

  /** By name: the five reads are cached, the commands the cache knows of besides flush it, others do neither. */
  lemma CommandsByName(ttl: real, entries: Entries<Request>, r: Request, frames: seq<Bytes>, now: real)
    ensures Cacheable(r) <==> r.cmd in READS
    ensures UpdateCache(ttl, entries, r, frames, now) ==
            if r.cmd.OTHER? then entries
            else if r.cmd !in READS then map[]
            else if frames == [] then entries
            else Set(ttl, entries, r, frames, now)
  {
  }

  type Node = Request -> seq<Bytes>

  /** What `_handle_command` does to the cache after `raw_command` returned `frames`. */
  function UpdateCache(ttl: real, entries: Entries<Request>, r: Request, frames: seq<Bytes>, now: real):
    Entries<Request>
  {
    if Mutating(r) then map[]
    else if Cacheable(r) && frames != [] then Set(ttl, entries, r, frames, now)
    else entries
  }

  // ---------------------------------------------------------------- the handler, between its awaits

  datatype Outcome = Returned(frames: seq<Bytes>) | Unavailable | TimedOut

  /** The object every client's handler shares. */
  class MeshCoreProxy {
    const cache: Cache<Request>
    var commandsProxied: nat
    var cacheHits: nat

    constructor (ttl: real)
      ensures fresh(cache) && cache.ttl == ttl && cache.entries == map[]
      ensures commandsProxied == 0 && cacheHits == 0
    {
      cache := new Cache(ttl);
      commandsProxied := 0;
      cacheHits := 0;
    }

    /** The handler up to its first contact with the node; `served` is what the client is sent. */
    method Consult(r: Request, now: real) returns (served: Option<seq<Bytes>>)
      modifies this, cache
      ensures commandsProxied == old(commandsProxied) + 1
      ensures Cacheable(r) ==> (served, cache.entries) == Get(cache.ttl, old(cache.entries), r, now)
      ensures !Cacheable(r) ==> served == None && cache.entries == old(cache.entries)
      ensures cacheHits == old(cacheHits) + (if served.Some? then 1 else 0)
      ensures if r.cmd in READS then (served, cache.entries) == Get(cache.ttl, old(cache.entries), r, now)
              else served == None && cache.entries == old(cache.entries)
    {
      commandsProxied := commandsProxied + 1;
      served := None;
      if Cacheable(r) {
        served := cache.Lookup(r, now);
        if served.Some? {
          cacheHits := cacheHits + 1;
        }
      }
    }

    /** The handler from the release of the command slot on; `sent` goes to the client besides the stream. */
    method Conclude(r: Request, outcome: Outcome, now: real) returns (sent: seq<Bytes>)
      modifies cache
      ensures outcome.Returned? ==> cache.entries == UpdateCache(cache.ttl, old(cache.entries), r, outcome.frames, now)
      ensures !outcome.Returned? ==> cache.entries == old(cache.entries)
      ensures sent == if outcome.Unavailable? then [[0x01]] else []
      ensures outcome.Returned? ==>
        if r.cmd.OTHER? then cache.entries == old(cache.entries)
        else if r.cmd !in READS then cache.entries == map[]
        else if outcome.frames == [] then cache.entries == old(cache.entries)
        else cache.entries == Set(cache.ttl, old(cache.entries), r, outcome.frames, now)
    {
      sent := [];
      match outcome {
        case Unavailable => sent := [[0x01]];
        case TimedOut =>
        case Returned(frames) =>
          if Mutating(r) {
            cache.Clear();
          } else if Cacheable(r) && frames != [] {
            cache.Store(r, frames, now);
          }
      }
    }
  }

  // ---------------------------------------------------------------- all interleavings

  /** The command in the slot; `collected` is the node's answer once it has been given. */
  datatype Slot = Free | Busy(frame: Request, collected: Option<seq<Bytes>>)

  datatype State = State(now: real, node: Node, slot: Slot, entries: Entries<Request>)

  datatype Step =
    | Tick(now: real)
    | Ask(key: Request)       // a handler consults the cache
    | Acquire(frame: Request) // a handler gets the command slot
    | Answer                  // the node answers the cacheable command in the slot
    | Mutate(node: Node)      // the node carries out the mutating command in the slot
    | Return                  // the command returns: slot released, cache updated
    | Abandon                 // timeout or write error: slot released, cache left alone
    | Drift(node: Node)       // the node's answers change for any other reason

  ghost predicate Enabled(s: State, step: Step) {
    match step
    case Tick(now) => now >= s.now
    case Ask(key) => Cacheable(key)
    case Acquire(frame) => s.slot.Free?
    case Answer => s.slot.Busy? && Cacheable(s.slot.frame) && s.slot.collected.None?
    case Mutate(_) => s.slot.Busy? && Mutating(s.slot.frame)
    case Return => s.slot.Busy? && (Cacheable(s.slot.frame) ==> s.slot.collected.Some?)
    case Abandon => s.slot.Busy?
    case Drift(_) => true
  }

  ghost function Next(ttl: real, s: State, step: Step): State
    requires Enabled(s, step)
  {
    match step
    case Tick(now) => s.(now := now)
    case Ask(key) => s.(entries := Get(ttl, s.entries, key, s.now).1)
    case Acquire(frame) => s.(slot := Busy(frame, None))
    case Answer => s.(slot := Busy(s.slot.frame, Some(s.node(s.slot.frame))))
    case Mutate(node) => s.(node := node)
    case Return =>
      var frames := if s.slot.collected.Some? then s.slot.collected.value else [];
      s.(slot := Free, entries := UpdateCache(ttl, s.entries, s.slot.frame, frames, s.now))
    case Abandon => s.(slot := Free)
    case Drift(node) => s.(node := node)
  }

  /** Time passes at will, and a handler that consults the cache leaves it as `get` does, an expired entry gone. */
  lemma ClocksAndLookups(ttl: real, s: State, now: real, key: Request)
    ensures Enabled(s, Tick(now)) <==> s.now <= now
    ensures now >= s.now ==> Next(ttl, s, Tick(now)) == s.(now := now)
    ensures Enabled(s, Ask(key)) ==>
              Next(ttl, s, Ask(key)) ==
              if key in s.entries && s.now - s.entries[key].storedAt > ttl then s.(entries := s.entries - {key}) else s
  {
  }

  /** A read is answered once, and returns only with its answer. */
  lemma ReadsAreAnswered(s: State, step: Step)
    requires Enabled(s, step)
    ensures step.Answer? ==> s.slot.Busy? && s.slot.frame.cmd in READS && s.slot.collected == None
    ensures step.Return? && s.slot.frame.cmd in READS ==> s.slot.collected.Some?
  {
  }

  /** What a handler asking for `key` is served from the cache. */
  ghost predicate Hit(ttl: real, s: State, key: Request, frames: seq<Bytes>) {
    Get(ttl, s.entries, key, s.now).0 == Some(frames)
  }

  ghost predicate Start(s: State) {
    s.slot.Free? && s.entries == map[]
  }

  /** `trace` is the sequence of states that `steps` pass through from a fresh proxy on. */
  ghost predicate Behaviour(ttl: real, trace: seq<State>, steps: seq<Step>) {
    && |trace| == |steps| + 1
    && Start(trace[0])
    && forall i :: 0 <= i < |steps| ==> Enabled(trace[i], steps[i]) && trace[i + 1] == Next(ttl, trace[i], steps[i])
  }

  lemma StepOf(ttl: real, trace: seq<State>, steps: seq<Step>, i: nat)
    requires Behaviour(ttl, trace, steps) && i < |steps|
    ensures Enabled(trace[i], steps[i]) && trace[i + 1] == Next(ttl, trace[i], steps[i])
  {
  }

  lemma {:induction false} ClockRuns(ttl: real, trace: seq<State>, steps: seq<Step>, i: nat, j: nat)
    requires Behaviour(ttl, trace, steps) && i <= j <= |steps|
    ensures trace[i].now <= trace[j].now
    decreases j - i
  {
    if i < j {
      StepOf(ttl, trace, steps, i);
      ClockRuns(ttl, trace, steps, i + 1, j);
    }
  }

  // ---------------------------------------------------------------- coherence

  predicate MutationInFlight(s: State) {
    s.slot.Busy? && Mutating(s.slot.frame)
  }

  predicate Collecting(s: State) {
    s.slot.Busy? && s.slot.collected.Some?
  }

  /** An answer to `key` has been given to the command in the slot and is not yet stored. */
  predicate CollectingFor(s: State, key: Request) {
    Collecting(s) && s.slot.frame == key
  }

  /** The entry of `key`, expired or not, is the node's present answer, or else it is `left`. */
  ghost predicate CoherentAt(s: State, key: Request, left: Option<Entry>) {
    !MutationInFlight(s) ==>
      && (CollectingFor(s, key) ==> s.slot.collected.value == s.node(key))
      && (key in s.entries ==> s.entries[key].frames == s.node(key) || left == Some(s.entries[key]))
  }

  ghost predicate Coherent(s: State) {
    forall key :: CoherentAt(s, key, None)
  }

  lemma CoherentMeaning(s: State)
    requires !MutationInFlight(s)
    ensures Coherent(s) <==>
              && (Collecting(s) ==> s.slot.collected.value == s.node(s.slot.frame))
              && forall key :: key in s.entries ==> s.entries[key].frames == s.node(key)
  {
    if Coherent(s) {
      assert Collecting(s) ==> CoherentAt(s, s.slot.frame, None);
      assert forall key :: key in s.entries ==> CoherentAt(s, key, None);
    }
  }

  /** The answer to `key` changes only through mutating commands that return normally. */
  ghost predicate Clean(s: State, step: Step, key: Request) {
    && (step.Drift? ==> step.node(key) == s.node(key))
    && (step.Abandon? ==> !MutationInFlight(s))
  }

  ghost predicate CleanFrom(trace: seq<State>, steps: seq<Step>, v: nat, key: Request)
    requires |trace| == |steps| + 1
  {
    forall i :: v <= i < |steps| ==> Clean(trace[i], steps[i], key)
  }

  lemma StepKeepsCoherent(ttl: real, s: State, step: Step, key: Request, left: Option<Entry>)
    requires CoherentAt(s, key, left) && Enabled(s, step) && Clean(s, step, key)
    ensures CoherentAt(Next(ttl, s, step), key, left)
  {
  }

  lemma {:induction false} CleanStepsKeepCoherent(ttl: real, trace: seq<State>, steps: seq<Step>, v: nat, n: nat,
      key: Request, left: Option<Entry>)
    requires Behaviour(ttl, trace, steps) && v <= n <= |steps| && CleanFrom(trace, steps, v, key)
    requires CoherentAt(trace[v], key, left)
    ensures CoherentAt(trace[n], key, left)
    decreases n - v
  {
    hide Next, Enabled, CoherentAt;
    if v < n {
      StepOf(ttl, trace, steps, v);
      StepKeepsCoherent(ttl, trace[v], steps[v], key, left);
      CleanStepsKeepCoherent(ttl, trace, steps, v + 1, n, key, left);
    }
  }

  ghost predicate StoredInThePast(s: State) {
    forall key :: key in s.entries ==> s.entries[key].storedAt <= s.now
  }

  lemma {:induction false} EntriesAreFromThePast(ttl: real, trace: seq<State>, steps: seq<Step>, n: nat)
    requires Behaviour(ttl, trace, steps) && n <= |steps|
    ensures StoredInThePast(trace[n])
  {
    if n > 0 {
      EntriesAreFromThePast(ttl, trace, steps, n - 1);
      StepOf(ttl, trace, steps, n - 1);
    }
  }

  /** Nothing that went wrong with `key` before state `v` can show any more in the last state. */
  ghost predicate Recovered(ttl: real, trace: seq<State>, steps: seq<Step>, v: nat, key: Request)
    requires |trace| == |steps| + 1 && v <= |steps|
  {
    || v == 0
    || (steps[v - 1].Return? && MutationInFlight(trace[v - 1]))
    || (!CollectingFor(trace[v], key) && trace[|steps|].now - trace[v].now > ttl)
  }

  /**
   However the clients' commands interleave, whatever happened before state `v` and whatever happens
   to other answers: from the start, from the return of a mutating command, or once more than `ttl`
   seconds have passed, steps that are clean for `key` make every hit for it what the node would
   answer now, unless a mutating command is in flight.
   */
  lemma HitsAreCurrent(ttl: real, trace: seq<State>, steps: seq<Step>, v: nat, key: Request, frames: seq<Bytes>)
    requires Behaviour(ttl, trace, steps) && v <= |steps|
    requires CleanFrom(trace, steps, v, key) && Recovered(ttl, trace, steps, v, key)
    requires !MutationInFlight(trace[|steps|]) && Hit(ttl, trace[|steps|], key, frames)
    ensures frames == trace[|steps|].node(key)
  {
    hide Next, Enabled;
    if v > 0 && steps[v - 1].Return? && MutationInFlight(trace[v - 1]) {
      MutatingReturnRestores(ttl, trace, steps, v - 1);
    }
    var left :=
      if !CollectingFor(trace[v], key) && key in trace[v].entries then Some(trace[v].entries[key]) else None;
    CleanStepsKeepCoherent(ttl, trace, steps, v, |steps|, key, left);
    EntriesAreFromThePast(ttl, trace, steps, v);
  }

  /** In particular, where all steps are clean for all keys, all hits are current. */
  lemma EveryHitIsCurrent(ttl: real, trace: seq<State>, steps: seq<Step>, v: nat)
    requires Behaviour(ttl, trace, steps) && v <= |steps|
    requires forall key :: CleanFrom(trace, steps, v, key) && Recovered(ttl, trace, steps, v, key)
    requires !MutationInFlight(trace[|steps|])
    ensures AllHitsCurrent(ttl, trace[|steps|])
  {
    forall key, frames | Hit(ttl, trace[|steps|], key, frames)
      ensures frames == trace[|steps|].node(key)
    {
      assert CleanFrom(trace, steps, v, key);
      HitsAreCurrent(ttl, trace, steps, v, key, frames);
    }
  }

  /** After a mutating command returns the cache is coherent again, whatever state it was in. */
  lemma MutatingReturnRestores(ttl: real, trace: seq<State>, steps: seq<Step>, i: nat)
    requires Behaviour(ttl, trace, steps) && i < |steps| && steps[i].Return? && MutationInFlight(trace[i])
    ensures trace[i + 1].entries == map[] && trace[i + 1].slot.Free? && Coherent(trace[i + 1])
  {
    StepOf(ttl, trace, steps, i);
  }

  // ---------------------------------------------------------------- how the assumption fails

  ghost predicate AllHitsCurrent(ttl: real, s: State) {
    forall key, frames :: Hit(ttl, s, key, frames) ==> frames == s.node(key)
  }

  /** The state after a mutating command that the node carried out was given up. */
  ghost function Abandoned(ttl: real, s: State, node: Node): State
    requires MutationInFlight(s)
  {
    Next(ttl, Next(ttl, s, Mutate(node)), Abandon)
  }

  /** Giving up a mutating command is harmless, whatever it did to the node, exactly when nothing is cached. */
  lemma AbandonIsHarmlessExactlyWhen(ttl: real, s: State)
    requires MutationInFlight(s)
    ensures (forall node :: Coherent(Abandoned(ttl, s, node))) <==> s.entries.Keys == {}
  {
    hide Abandoned, Coherent;
    if s.entries.Keys == {} {
      forall node
        ensures Coherent(Abandoned(ttl, s, node))
      {
        AbandonedMeaning(ttl, s, node);
      }
    } else {
      var key :| key in s.entries;
      AbandonedMeaning(ttl, s, Misled(s, key));
      MisledDiffers(s, key);
    }
  }

  /** And it cannot show at once, as a stale answer to some client, exactly when all entries have expired. */
  lemma AbandonCannotShowExactlyWhen(ttl: real, s: State)
    requires MutationInFlight(s)
    ensures (forall node :: AllHitsCurrent(ttl, Abandoned(ttl, s, node))) <==>
              forall key :: key in s.entries ==> Expired(ttl, s.entries[key], s.now)
  {
    hide Abandoned, AllHitsCurrent, Expired;
    if forall key :: key in s.entries ==> Expired(ttl, s.entries[key], s.now) {
      forall node
        ensures AllHitsCurrent(ttl, Abandoned(ttl, s, node))
      {
        AbandonedMeaning(ttl, s, node);
      }
    } else {
      var key :| key in s.entries && !Expired(ttl, s.entries[key], s.now);
      AbandonedMeaning(ttl, s, Misled(s, key));
      MisledDiffers(s, key);
    }
  }

  lemma AbandonedMeaning(ttl: real, s: State, node: Node)
    requires MutationInFlight(s)
    ensures Coherent(Abandoned(ttl, s, node)) <==> forall key :: key in s.entries ==> s.entries[key].frames == node(key)
    ensures AllHitsCurrent(ttl, Abandoned(ttl, s, node)) <==>
              forall key :: key in s.entries && !Expired(ttl, s.entries[key], s.now) ==>
                s.entries[key].frames == node(key)
  {
    var t := Abandoned(ttl, s, node);
    assert t == s.(slot := Free, node := node);
    CoherentMeaning(t);
    hide Abandoned, Coherent;
    forall key | key in s.entries && !Expired(ttl, s.entries[key], s.now)
      ensures Hit(ttl, t, key, s.entries[key].frames)
    {
    }
  }

  /** A node that does not answer what the cache has for `key`. */
  function Misled(s: State, key: Request): Node
    requires key in s.entries
  {
    r => s.entries[key].frames + [[]]
  }

  lemma MisledDiffers(s: State, key: Request)
    requires key in s.entries
    ensures Misled(s, key)(key) != s.entries[key].frames
  {
    assert |Misled(s, key)(key)| == |s.entries[key].frames| + 1;
  }

  /** A change behind the proxy's back is harmless exactly when nothing is cached or about to be. */
  lemma DriftIsHarmlessExactlyWhen(ttl: real, s: State)
    requires !MutationInFlight(s)
    ensures (forall node :: Coherent(Next(ttl, s, Drift(node)))) <==> s.entries.Keys == {} && !Collecting(s)
  {
    hide Coherent;
    if s.entries.Keys != {} {
      var key :| key in s.entries;
      CoherentMeaning(Next(ttl, s, Drift(Misled(s, key))));
      MisledDiffers(s, key);
    } else if Collecting(s) {
      var other: Node := r => s.slot.collected.value + [[]];
      assert |other(s.slot.frame)| == |s.slot.collected.value| + 1;
      CoherentMeaning(Next(ttl, s, Drift(other)));
    } else {
      forall node
        ensures Coherent(Next(ttl, s, Drift(node)))
      {
        CoherentMeaning(Next(ttl, s, Drift(node)));
      }
    }
  }

  /**
   A mutating command that the node carried out but that timed out leaves the old answer in the
   cache: the state after these steps serves it although the node now answers differently.
   */
  lemma AbandonedMutationLeavesStaleHit(ttl: real, s: State, key: Request, write: Request, node: Node)
    requires Start(s) && ttl > 0.0 && Cacheable(key) && Mutating(write)
    requires s.node(key) != [] && node(key) != s.node(key)
    ensures exists trace: seq<State> ::
      && Behaviour(ttl, trace, [Acquire(key), Answer, Return, Acquire(write), Mutate(node), Abandon])
      && trace[0] == s
      && Hit(ttl, trace[6], key, s.node(key)) && trace[6].node(key) == node(key)
  {
    var s1 := Next(ttl, s, Acquire(key));
    var s2 := Next(ttl, s1, Answer);
    var s3 := Next(ttl, s2, Return);
    var s4 := Next(ttl, s3, Acquire(write));
    var s5 := Next(ttl, s4, Mutate(node));
    var s6 := Next(ttl, s5, Abandon);
    var trace := [s, s1, s2, s3, s4, s5, s6];
    var steps := [Acquire(key), Answer, Return, Acquire(write), Mutate(node), Abandon];
    assert Behaviour(ttl, trace, steps);
  }

  // ---------------------------------------------------------------- where hits come from

  /** The node gave `frames` to `key` at step `a`, and that command kept the slot up to state `j`. */
  ghost predicate Gave(trace: seq<State>, steps: seq<Step>, a: nat, j: nat, key: Request, frames: seq<Bytes>)
    requires |trace| == |steps| + 1
  {
    && a < j <= |steps|
    && steps[a].Answer? && trace[a].node(key) == frames
    && forall k :: a < k <= j ==> trace[k].slot == Busy(key, Some(frames))
  }

  /** The entry was stored by the return at step `j` of the command that the node answered at step `a`. */
  ghost predicate Stored(trace: seq<State>, steps: seq<Step>, a: nat, j: nat, key: Request, e: Entry)
    requires |trace| == |steps| + 1
  {
    Gave(trace, steps, a, j, key, e.frames) && j < |steps| && steps[j].Return? && trace[j].now == e.storedAt
  }

  ghost predicate MutatingReturn(trace: seq<State>, steps: seq<Step>, k: nat)
    requires |trace| == |steps| + 1 && k < |steps|
  {
    steps[k].Return? && MutationInFlight(trace[k])
  }

  /** Stored before state `n`, with no mutating command returning since. */
  ghost predicate Sourced(trace: seq<State>, steps: seq<Step>, n: nat, key: Request, e: Entry)
    requires |trace| == |steps| + 1 && n <= |steps|
  {
    exists a: nat, j: nat ::
      && Stored(trace, steps, a, j, key, e) && j < n
      && forall k :: j < k < n ==> !MutatingReturn(trace, steps, k)
  }

  lemma {:induction false} CollectedIsGiven(ttl: real, trace: seq<State>, steps: seq<Step>, n: nat)
    requires Behaviour(ttl, trace, steps) && n <= |steps|
    ensures Collecting(trace[n]) ==>
              exists a: nat :: Gave(trace, steps, a, n, trace[n].slot.frame, trace[n].slot.collected.value)
  {
    if n > 0 && Collecting(trace[n]) {
      var s, frame, frames := trace[n - 1], trace[n].slot.frame, trace[n].slot.collected.value;
      StepOf(ttl, trace, steps, n - 1);
      if steps[n - 1].Answer? {
        assert Gave(trace, steps, n - 1, n, frame, frames);
      } else {
        CollectedIsGiven(ttl, trace, steps, n - 1);
        var a: nat :| Gave(trace, steps, a, n - 1, frame, frames);
        assert Gave(trace, steps, a, n, frame, frames);
      }
    }
  }

  /** What one step can do to an entry. */
  lemma EntryStays(ttl: real, s: State, step: Step, key: Request)
    requires Enabled(s, step) && key in Next(ttl, s, step).entries
    ensures !(step.Return? && MutationInFlight(s))
    ensures var e := Next(ttl, s, step).entries[key];
      || (key in s.entries && s.entries[key] == e)
      || (step.Return? && s.slot == Busy(key, Some(e.frames)) && e.storedAt == s.now)
  {
  }

  lemma {:induction false} EntriesAreSourced(ttl: real, trace: seq<State>, steps: seq<Step>, n: nat, key: Request)
    requires Behaviour(ttl, trace, steps) && n <= |steps| && key in trace[n].entries
    ensures Sourced(trace, steps, n, key, trace[n].entries[key])
  {
    assert n > 0;
    var s, e, step := trace[n - 1], trace[n].entries[key], steps[n - 1];
    StepOf(ttl, trace, steps, n - 1);
    EntryStays(ttl, s, step, key);
    hide Next, Enabled, Behaviour;
    assert !MutatingReturn(trace, steps, n - 1);
    if key in s.entries && s.entries[key] == e {
      EntriesAreSourced(ttl, trace, steps, n - 1, key);
      var a: nat, j: nat :| Stored(trace, steps, a, j, key, e) && j < n - 1
        && forall k :: j < k < n - 1 ==> !MutatingReturn(trace, steps, k);
      assert Stored(trace, steps, a, j, key, e) && j < n;
    } else {
      CollectedIsGiven(ttl, trace, steps, n - 1);
      var a: nat :| Gave(trace, steps, a, n - 1, key, e.frames);
      assert Stored(trace, steps, a, n - 1, key, e);
    }
  }

  /**
   No assumption on the environment: once a mutating handler has returned (step `i`), any hit in a
   later state serves frames that the node gave after that; so each client reads its own writes. A
   read that was answered before the mutation and stored after it is among what this rules out.
   */
  lemma NoHitPredatesAMutation(ttl: real, trace: seq<State>, steps: seq<Step>, i: nat, key: Request,
      frames: seq<Bytes>)
    requires Behaviour(ttl, trace, steps)
    requires i < |steps| && MutatingReturn(trace, steps, i)
    requires Hit(ttl, trace[|steps|], key, frames)
    ensures exists a: nat, j: nat :: i < a && Gave(trace, steps, a, j, key, frames)
  {
    var n := |steps|;
    EntriesAreSourced(ttl, trace, steps, n, key);
    var a: nat, j: nat :| Stored(trace, steps, a, j, key, trace[n].entries[key]) && j < n
      && forall k :: j < k < n ==> !MutatingReturn(trace, steps, k);
    GiverHoldsTheSlot(ttl, trace, steps, a, j, key, frames);
    assert !(a <= i <= j);
    assert Gave(trace, steps, a, j, key, frames);
  }

  lemma GiverHoldsTheSlot(ttl: real, trace: seq<State>, steps: seq<Step>, a: nat, j: nat, key: Request,
      frames: seq<Bytes>)
    requires Behaviour(ttl, trace, steps) && Gave(trace, steps, a, j, key, frames)
    ensures forall k :: a <= k <= j ==> !MutationInFlight(trace[k])
  {
    StepOf(ttl, trace, steps, a);
    assert trace[a + 1].slot == Busy(key, Some(frames));
    forall k | a <= k <= j
      ensures !MutationInFlight(trace[k])
    {
      assert k > a ==> trace[k].slot == Busy(key, Some(frames));
    }
  }

  /**
   Whatever changes the node and whichever commands are given up, a hit is an answer the node gave
   to a command that held the slot from then on and returned at most `ttl` seconds ago.
   */
  lemma HitsAreAtMostTtlOld(ttl: real, trace: seq<State>, steps: seq<Step>, key: Request, frames: seq<Bytes>)
    requires Behaviour(ttl, trace, steps) && Hit(ttl, trace[|steps|], key, frames)
    ensures exists a: nat, j: nat ::
      && Gave(trace, steps, a, j, key, frames)
      && j < |steps| && steps[j].Return?
      && trace[|steps|].now - ttl <= trace[j].now <= trace[|steps|].now
  {
    var n := |steps|;
    EntriesAreSourced(ttl, trace, steps, n, key);
    var a: nat, j: nat :| Stored(trace, steps, a, j, key, trace[n].entries[key]) && j < n;
    ClockRuns(ttl, trace, steps, j, n);
    assert Gave(trace, steps, a, j, key, frames);
  }
}
