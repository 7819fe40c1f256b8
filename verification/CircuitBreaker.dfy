// Circuit breaker shared by overlapping asynchronous calls. A call is two steps - admission, and
// later the recording of its outcome - and any number of calls, state reads and resets interleave.
module CircuitBreaker {
  datatype State = Closed | Open | HalfOpen

  datatype Config = Config(failureThreshold: int, timeout: real, halfOpenMaxCalls: int)

  ghost predicate Sensible(cfg: Config) {
    cfg.failureThreshold >= 1 && cfg.halfOpenMaxCalls >= 1
  }

  // The mutable fields of a breaker.
  datatype Fields = Fields(
    state: State, failureCount: int, lastFailureTime: real, halfOpenCalls: int, successCount: int,
    totalCalls: int, totalFailures: int)

  const INITIAL := Fields(Closed, 0, 0.0, 0, 0, 0, 0)

  // ---------- What each operation does to the fields ----------

  // Reading the state is what turns an expired OPEN into HALF_OPEN.
  function Observed(cfg: Config, b: Fields, now: real): Fields {
    if b.state == Open && now - b.lastFailureTime >= cfg.timeout
    then b.(state := HalfOpen, halfOpenCalls := 0) else b
  }

  predicate Admits(cfg: Config, b: Fields, now: real) {
    var o := Observed(cfg, b, now);
    o.state == Closed || (o.state == HalfOpen && o.halfOpenCalls < cfg.halfOpenMaxCalls)
  }

  function Admitted(cfg: Config, b: Fields, now: real): Fields {
    var o := Observed(cfg, b, now);
    if o.state == HalfOpen && o.halfOpenCalls < cfg.halfOpenMaxCalls
    then o.(halfOpenCalls := o.halfOpenCalls + 1) else o
  }

  function Succeeded(cfg: Config, b: Fields): Fields {
    var c := b.(failureCount := 0, totalCalls := b.totalCalls + 1);
    if b.state != HalfOpen then c
    else if b.successCount + 1 >= cfg.halfOpenMaxCalls then c.(state := Closed, successCount := 0)
    else c.(successCount := b.successCount + 1)
  }

  function Faulted(cfg: Config, b: Fields, now: real): Fields {
    b.(failureCount := b.failureCount + 1, totalFailures := b.totalFailures + 1, totalCalls := b.totalCalls + 1,
       lastFailureTime := now,
       state := if b.state == HalfOpen || b.failureCount + 1 >= cfg.failureThreshold then Open else b.state)
  }

  function Cleared(b: Fields): Fields {
    b.(state := Closed, failureCount := 0, successCount := 0, halfOpenCalls := 0)
  }

  // ---------- The object ----------

  class Breaker {
    const cfg: Config
    var state: State
    var failureCount: int
    var lastFailureTime: real
    var halfOpenCalls: int
    var successCount: int
    var totalCalls: int
    var totalFailures: int

    function Snapshot(): Fields
      reads this
    {
      Fields(state, failureCount, lastFailureTime, halfOpenCalls, successCount, totalCalls, totalFailures)
    }

    constructor (cfg: Config)
      ensures this.cfg == cfg && Snapshot() == INITIAL
    {
      this.cfg := cfg;
      state, failureCount, lastFailureTime, halfOpenCalls := Closed, 0, 0.0, 0;
      successCount, totalCalls, totalFailures := 0, 0, 0;
    }

    method ReadState(now: real) returns (s: State)
      modifies this
      ensures Snapshot() == Observed(cfg, old(Snapshot()), now) && s == state
    {
      if state == Open {
        if now - lastFailureTime >= cfg.timeout {
          state := HalfOpen;
          halfOpenCalls := 0;
        }
      }
      s := state;
    }

    // The part of call() before the awaited function: true lets it start, false raises CircuitOpenError.
    method Admit(now: real) returns (admitted: bool)
      modifies this
      ensures admitted == Admits(cfg, old(Snapshot()), now)
      ensures Snapshot() == Admitted(cfg, old(Snapshot()), now)
    {
      var s := ReadState(now);
      if s == Open {
        return false;
      }
      s := ReadState(now);
      if s == HalfOpen {
        if halfOpenCalls >= cfg.halfOpenMaxCalls {
          return false;
        }
        halfOpenCalls := halfOpenCalls + 1;
      }
      admitted := true;
    }

    method RecordSuccess()
      modifies this
      ensures Snapshot() == Succeeded(cfg, old(Snapshot()))
    {
      failureCount := 0;
      totalCalls := totalCalls + 1;
      if state == HalfOpen {
        successCount := successCount + 1;
        if successCount >= cfg.halfOpenMaxCalls {
          state := Closed;
          successCount := 0;
        }
      }
    }

    method RecordFailure(now: real)
      modifies this
      ensures Snapshot() == Faulted(cfg, old(Snapshot()), now)
    {
      failureCount := failureCount + 1;
      totalFailures := totalFailures + 1;
      totalCalls := totalCalls + 1;
      lastFailureTime := now;
      if state == HalfOpen {
        state := Open;
      } else if failureCount >= cfg.failureThreshold {
        state := Open;
      }
    }

    method Reset()
      modifies this
      ensures Snapshot() == Cleared(old(Snapshot()))
    {
      state := Closed;
      failureCount := 0;
      successCount := 0;
      halfOpenCalls := 0;
    }
  }

  // ---------- Runs ----------

  datatype Action = Call(id: nat) | Return(id: nat) | Raise(id: nat) | Look | Reset

  datatype Event = Event(at: real, action: Action)

  datatype Outcome = Outcome(ok: bool, at: real)

  // What an observer notes down: a half-opening, a success recorded in HALF_OPEN, a reset, and the
  // breaker's becoming CLOSED by a success.
  datatype Mark = HalfOpened | Credit | Closing | Restart

  // The breaker among its callers. An episode is a stay in HALF_OPEN; `admitted` remembers in
  // which episode each admitted call started, 0 for CLOSED. `log` holds the outcomes recorded
  // since the last reset, `all` counts those since the beginning, `trail` is the observer's list.
  datatype System = System(
    b: Fields, clock: real, episode: nat, admitted: map<nat, nat>, flying: set<nat>,
    log: seq<Outcome>, all: nat, allFailures: nat, trail: seq<Mark>)

  const START := System(INITIAL, 0.0, 0, map[], {}, [], 0, 0, [])

  ghost predicate Enabled(s: System, e: Event) {
    && s.clock <= e.at
    && (e.action.Call? ==> e.action.id !in s.admitted)
    && (e.action.Return? || e.action.Raise? ==> e.action.id in s.flying)
  }

  // Looking at the state may begin an episode.
  ghost function Look'(cfg: Config, s: System, now: real): System {
    var o := Observed(cfg, s.b, now);
    if s.b.state == Open && o.state == HalfOpen
       then s.(b := o, episode := s.episode + 1, trail := s.trail + [HalfOpened])
    else s.(b := o)
  }

  ghost function Step(cfg: Config, s: System, e: Event): System {
    var t := s.(clock := e.at);
    match e.action
    case Look => Look'(cfg, t, e.at)
    case Call(id) =>
      if Admits(cfg, s.b, e.at) then
        var l := Look'(cfg, t, e.at);
        l.(b := Admitted(cfg, s.b, e.at), flying := s.flying + {id},
           admitted := s.admitted[id := if l.b.state == HalfOpen then l.episode else 0])
      else Look'(cfg, t, e.at)
    case Return(id) =>
      t.(b := Succeeded(cfg, s.b), flying := s.flying - {id}, log := s.log + [Outcome(true, e.at)], all := s.all + 1,
         trail := s.trail + (if s.b.state == HalfOpen then [Credit] else [])
                  + (if s.b.state == HalfOpen && Succeeded(cfg, s.b).state == Closed then [Closing] else []))
    case Raise(id) =>
      t.(b := Faulted(cfg, s.b, e.at), flying := s.flying - {id}, log := s.log + [Outcome(false, e.at)],
         all := s.all + 1, allFailures := s.allFailures + 1)
    case Reset => t.(b := Cleared(s.b), log := [], trail := s.trail + [Restart])
  }

  ghost predicate Legal(cfg: Config, s: System, events: seq<Event>)
    decreases |events|
  {
    events == [] || (Enabled(s, events[0]) && Legal(cfg, Step(cfg, s, events[0]), events[1..]))
  }

  ghost function Run(cfg: Config, s: System, events: seq<Event>): System
    decreases |events|
  {
    if events == [] then s else Run(cfg, Step(cfg, s, events[0]), events[1..])
  }

  // ---------- The invariant ----------

  ghost function StartedIn(s: System, episode: nat): set<nat> {
    set id | id in s.admitted && s.admitted[id] == episode
  }

  // Length of the run of failures that ends the log.
  ghost function FailureRun(log: seq<Outcome>): nat {
    if log == [] || log[|log| - 1].ok then 0 else 1 + FailureRun(log[..|log| - 1])
  }

  ghost predicate CountsFailures(cfg: Config, s: System) {
    && s.b.failureCount == FailureRun(s.log)
    && (s.b.state == Closed ==> s.b.failureCount < cfg.failureThreshold)
    && s.b.totalCalls == s.all && s.b.totalFailures == s.allFailures
  }

  ghost predicate KeepsTime(cfg: Config, s: System) {
    && (forall i :: 0 <= i < |s.log| ==> s.log[i].at <= s.clock)
    && (forall i :: 0 <= i < |s.log| && !s.log[i].ok ==> s.log[i].at <= s.b.lastFailureTime)
    && (s.b.state != Closed ==> s.b.lastFailureTime <= s.clock)
    && (s.b.state != Closed ==> exists i :: 0 <= i < |s.log| && s.log[i] == Outcome(false, s.b.lastFailureTime))
    && (s.b.state == HalfOpen ==> s.clock - s.b.lastFailureTime >= cfg.timeout)
  }

  ghost predicate BoundsEpisodes(cfg: Config, s: System) {
    && (forall id :: id in s.flying ==> id in s.admitted)
    && (forall id :: id in s.admitted ==> s.admitted[id] <= s.episode)
    && (forall k: nat :: 1 <= k ==> |StartedIn(s, k)| <= cfg.halfOpenMaxCalls)
    && (s.b.state == HalfOpen ==> 1 <= s.episode && |StartedIn(s, s.episode)| == s.b.halfOpenCalls)
  }

  ghost predicate NeverStuck(cfg: Config, s: System) {
    && 0 <= s.b.successCount < cfg.halfOpenMaxCalls
    && (s.b.state == HalfOpen ==> s.b.halfOpenCalls <= s.b.successCount + |StartedIn(s, s.episode) * s.flying|)
  }

  ghost predicate Inv(cfg: Config, s: System) {
    CountsFailures(cfg, s) && KeepsTime(cfg, s) && BoundsEpisodes(cfg, s) && NeverStuck(cfg, s)
  }

  lemma LookKeeps(cfg: Config, s: System, now: real)
    requires Sensible(cfg) && Inv(cfg, s) && s.clock <= now
    ensures Inv(cfg, Look'(cfg, s.(clock := now), now))
  {
    var t := Look'(cfg, s.(clock := now), now);
    forall k: nat ensures StartedIn(t, k) == StartedIn(s, k) {}
    if t.episode > s.episode {
      assert StartedIn(s, t.episode) == {};
    }
  }

  ghost function Entered(l: System, id: nat): System {
    var half := l.b.state == HalfOpen;
    l.(b := if half then l.b.(halfOpenCalls := l.b.halfOpenCalls + 1) else l.b,
       flying := l.flying + {id}, admitted := l.admitted[id := if half then l.episode else 0])
  }

  lemma StartedAfter(l: System, id: nat)
    requires id !in l.admitted
    ensures var t := Entered(l, id); var tag := t.admitted[id];
            && (forall k: nat :: k != tag ==> StartedIn(t, k) == StartedIn(l, k))
            && StartedIn(t, tag) == StartedIn(l, tag) + {id} && id !in StartedIn(l, tag)
  {
    var t := Entered(l, id);
    forall k: nat | k != t.admitted[id]
      ensures StartedIn(t, k) == StartedIn(l, k)
    {
    }
  }

  lemma EnteredClosed(cfg: Config, l: System, id: nat)
    requires Sensible(cfg) && Inv(cfg, l) && id !in l.admitted && l.b.state == Closed
    ensures Inv(cfg, Entered(l, id))
  {
    StartedAfter(l, id);
  }

  lemma EnteredHalfOpen(cfg: Config, l: System, id: nat)
    requires Sensible(cfg) && Inv(cfg, l) && id !in l.admitted
    requires l.b.state == HalfOpen && l.b.halfOpenCalls < cfg.halfOpenMaxCalls
    ensures Inv(cfg, Entered(l, id))
  {
    var t := Entered(l, id);
    StartedAfter(l, id);
    var before, after := StartedIn(l, l.episode) * l.flying, StartedIn(t, t.episode) * t.flying;
    assert after == before + {id} && id !in before;
    assert |StartedIn(t, t.episode)| == t.b.halfOpenCalls;
  }

  lemma CallKeeps(cfg: Config, s: System, e: Event)
    requires Sensible(cfg) && Inv(cfg, s) && Enabled(s, e) && e.action.Call?
    ensures Inv(cfg, Step(cfg, s, e))
  {
    LookKeeps(cfg, s, e.at);
    if Admits(cfg, s.b, e.at) {
      var l := Look'(cfg, s.(clock := e.at), e.at);
      assert Step(cfg, s, e) == Entered(l, e.action.id);
      if l.b.state == Closed { EnteredClosed(cfg, l, e.action.id); } else { EnteredHalfOpen(cfg, l, e.action.id); }
    }
  }

  lemma OutcomeTimes(cfg: Config, s: System, e: Event)
    requires Sensible(cfg) && Inv(cfg, s) && Enabled(s, e) && (e.action.Return? || e.action.Raise?)
    ensures KeepsTime(cfg, Step(cfg, s, e)) && CountsFailures(cfg, Step(cfg, s, e))
  {
    var t := Step(cfg, s, e);
    assert t.log[..|s.log|] == s.log;
    if e.action.Raise? {
      assert t.log[|s.log|] == Outcome(false, t.b.lastFailureTime);
    } else if s.b.state != Closed {
      var i :| 0 <= i < |s.log| && s.log[i] == Outcome(false, s.b.lastFailureTime);
      assert t.log[i] == Outcome(false, t.b.lastFailureTime);
    }
  }

  lemma OutcomeKeeps(cfg: Config, s: System, e: Event)
    requires Sensible(cfg) && Inv(cfg, s) && Enabled(s, e) && (e.action.Return? || e.action.Raise?)
    ensures Inv(cfg, Step(cfg, s, e))
  {
    var t, id := Step(cfg, s, e), e.action.id;
    OutcomeTimes(cfg, s, e);
    forall k: nat ensures StartedIn(t, k) == StartedIn(s, k) {}
    var before, after := StartedIn(s, s.episode) * s.flying, StartedIn(t, t.episode) * t.flying;
    assert after == before - {id};
    assert before <= after + {id};
  }

  lemma StepKeeps(cfg: Config, s: System, e: Event)
    requires Sensible(cfg) && Inv(cfg, s) && Enabled(s, e)
    ensures Inv(cfg, Step(cfg, s, e))
  {
    match e.action
    case Look => LookKeeps(cfg, s, e.at);
    case Call(_) => CallKeeps(cfg, s, e);
    case Return(_) => OutcomeKeeps(cfg, s, e);
    case Raise(_) => OutcomeKeeps(cfg, s, e);
    case Reset => forall k: nat ensures StartedIn(Step(cfg, s, e), k) == StartedIn(s, k) {}
  }

  // ---------- What the success count counts ----------

  // The successes recorded in HALF_OPEN since the breaker last closed or was reset.
  ghost function Earned(trail: seq<Mark>): nat {
    if trail == [] then 0
    else
      var last, before := trail[|trail| - 1], trail[..|trail| - 1];
      if last == Closing || last == Restart then 0
      else Earned(before) + if last == Credit then 1 else 0
  }

  // Those recorded since the last half-opening, and those there were at that moment.
  ghost function Own(trail: seq<Mark>): nat {
    if trail == [] || trail[|trail| - 1] == HalfOpened then 0
    else Own(trail[..|trail| - 1]) + if trail[|trail| - 1] == Credit then 1 else 0
  }

  ghost function Inherited(trail: seq<Mark>): nat {
    if trail == [] then 0
    else if trail[|trail| - 1] == HalfOpened then Earned(trail[..|trail| - 1])
    else Inherited(trail[..|trail| - 1])
  }

  ghost predicate CountsSuccesses(s: System) {
    && s.b.successCount == Earned(s.trail)
    && (s.b.state == HalfOpen ==> Earned(s.trail) == Inherited(s.trail) + Own(s.trail))
  }

  lemma Marked(trail: seq<Mark>, mark: Mark)
    ensures Earned(trail + [mark])
            == if mark == Closing || mark == Restart then 0 else Earned(trail) + if mark == Credit then 1 else 0
    ensures Own(trail + [mark]) == if mark == HalfOpened then 0 else Own(trail) + if mark == Credit then 1 else 0
    ensures Inherited(trail + [mark]) == if mark == HalfOpened then Earned(trail) else Inherited(trail)
  {
    assert (trail + [mark])[..|trail|] == trail;
  }

  lemma ReturnCounted(cfg: Config, s: System, e: Event)
    requires CountsSuccesses(s) && e.action.Return?
    ensures CountsSuccesses(Step(cfg, s, e))
  {
    var t := Step(cfg, s, e);
    if s.b.state == HalfOpen {
      Marked(s.trail, Credit);
      if t.b.state == Closed {
        assert t.trail == s.trail + [Credit] + [Closing];
        Marked(s.trail + [Credit], Closing);
      } else {
        assert t.trail == s.trail + [Credit];
      }
    } else {
      assert t.trail == s.trail;
    }
  }

  lemma SuccessesCounted(cfg: Config, s: System, e: Event)
    requires CountsSuccesses(s)
    ensures CountsSuccesses(Step(cfg, s, e))
  {
    match e.action
    case Look => Marked(s.trail, HalfOpened);
    case Call(_) => Marked(s.trail, HalfOpened);
    case Return(_) => ReturnCounted(cfg, s, e);
    case Raise(_) =>
    case Reset => Marked(s.trail, Restart);
  }

  // Every reachable state satisfies the invariants.
  lemma {:induction false} RunKeeps(cfg: Config, s: System, events: seq<Event>)
    requires Sensible(cfg) && Inv(cfg, s) && CountsSuccesses(s) && Legal(cfg, s, events)
    ensures Inv(cfg, Run(cfg, s, events)) && CountsSuccesses(Run(cfg, s, events))
    decreases |events|
  {
    if events != [] {
      StepKeeps(cfg, s, events[0]);
      SuccessesCounted(cfg, s, events[0]);
      RunKeeps(cfg, Step(cfg, s, events[0]), events[1..]);
    }
  }

  lemma StartKeeps(cfg: Config)
    requires Sensible(cfg)
    ensures Inv(cfg, START) && CountsSuccesses(START)
  {
    forall k: nat ensures StartedIn(START, k) == {} {}
  }

  // ---------- What the invariant gives ----------

  // No run gets stuck half-open: while no call of the current episode is in flight, the next call
  // is admitted, however many stragglers of earlier episodes are still out. And no episode, past or
  // present, has admitted more than half_open_max_calls calls.
  lemma HalfOpenIsLive(cfg: Config, events: seq<Event>, now: real)
    requires Sensible(cfg) && Legal(cfg, START, events)
    ensures var s := Run(cfg, START, events);
            && (s.b.state == HalfOpen && StartedIn(s, s.episode) !! s.flying ==> Admits(cfg, s.b, now))
            && (forall k: nat :: 1 <= k ==> |StartedIn(s, k)| <= cfg.halfOpenMaxCalls)
  {
    StartKeeps(cfg);
    RunKeeps(cfg, START, events);
    var s := Run(cfg, START, events);
    if StartedIn(s, s.episode) !! s.flying {
      assert StartedIn(s, s.episode) * s.flying == {};
    }
  }

  // The failure count is the run of failures ending the log, and it is below the threshold
  // whenever the breaker is closed.
  lemma FailuresCounted(cfg: Config, events: seq<Event>)
    requires Sensible(cfg) && Legal(cfg, START, events)
    ensures CountsFailures(cfg, Run(cfg, START, events))
  {
    StartKeeps(cfg);
    RunKeeps(cfg, START, events);
  }

  // A call that is admitted while the breaker is not closed starts at least `timeout` after every
  // failure recorded since the last reset.
  lemma AdmittedAfterTimeout(cfg: Config, events: seq<Event>, e: Event, i: nat)
    requires Sensible(cfg) && Legal(cfg, START, events)
    requires var s := Run(cfg, START, events);
             && Enabled(s, e) && e.action.Call? && s.b.state != Closed && Admits(cfg, s.b, e.at)
             && i < |s.log| && !s.log[i].ok
    ensures e.at - Run(cfg, START, events).log[i].at >= cfg.timeout
  {
    StartKeeps(cfg);
    RunKeeps(cfg, START, events);
  }

  predicate Resets(events: seq<Event>) {
    exists i :: 0 <= i < |events| && events[i].action == Reset
  }

  // Once open, nothing short of a reset lets a call through before the timeout has run.
  lemma {:induction false} OpenShields(cfg: Config, s: System, events: seq<Event>, e: Event, since: real)
    requires s.b.state == Open && since <= s.b.lastFailureTime && s.b.lastFailureTime <= s.clock
    requires Legal(cfg, s, events) && !Resets(events)
    requires var t := Run(cfg, s, events); Enabled(t, e) && e.action.Call? && Admits(cfg, t.b, e.at)
    ensures e.at >= since + cfg.timeout
    decreases |events|
  {
    if events != [] {
      var t := Step(cfg, s, events[0]);
      assert events[0].action != Reset;
      assert !Resets(events[1..]);
      if t.b.state == Open {
        OpenShields(cfg, t, events[1..], e, since);
      } else {
        ClockAdvances(cfg, t, events[1..]);
      }
    }
  }

  lemma {:induction false} ClockAdvances(cfg: Config, s: System, events: seq<Event>)
    requires Legal(cfg, s, events)
    ensures s.clock <= Run(cfg, s, events).clock
    decreases |events|
  {
    if events != [] { ClockAdvances(cfg, Step(cfg, s, events[0]), events[1..]); }
  }

  // ---------- What the log decides ----------

  // Time of the last failure in the log.
  ghost function LastFailure(log: seq<Outcome>): real {
    if log == [] then 0.0
    else if !log[|log| - 1].ok then log[|log| - 1].at
    else LastFailure(log[..|log| - 1])
  }

  ghost predicate TimesFailures(s: System) {
    s.b.state != Closed ==> s.b.lastFailureTime == LastFailure(s.log)
  }

  lemma StepTimes(cfg: Config, s: System, e: Event)
    requires TimesFailures(s)
    ensures TimesFailures(Step(cfg, s, e))
  {
    var t := Step(cfg, s, e);
    if e.action.Return? || e.action.Raise? {
      assert t.log[..|s.log|] == s.log;
    }
  }

  lemma {:induction false} RunTimes(cfg: Config, s: System, events: seq<Event>)
    requires TimesFailures(s) && Legal(cfg, s, events)
    ensures TimesFailures(Run(cfg, s, events))
    decreases |events|
  {
    if events != [] {
      StepTimes(cfg, s, events[0]);
      RunTimes(cfg, Step(cfg, s, events[0]), events[1..]);
    }
  }

  // The state after an event, told from the state before it and from what was recorded. A failure
  // opens a closed breaker when the failures ending the log, this one included, reach the threshold.
  ghost function StateAfter(cfg: Config, s: System, e: Event): State {
    match e.action
    case Reset => Closed
    case Raise(_) =>
      if s.b.state == Closed && FailureRun(s.log + [Outcome(false, e.at)]) < cfg.failureThreshold then Closed else Open
    case Return(_) =>
      if s.b.state == HalfOpen && Inherited(s.trail) + Own(s.trail) + 1 >= cfg.halfOpenMaxCalls then Closed
      else s.b.state
    case _ =>
      if s.b.state == Open && e.at - LastFailure(s.log) >= cfg.timeout then HalfOpen else s.b.state
  }

  lemma FailureRunGrows(log: seq<Outcome>, at: real)
    ensures FailureRun(log + [Outcome(false, at)]) == FailureRun(log) + 1
  {
    assert (log + [Outcome(false, at)])[..|log|] == log;
  }

  lemma StateFromLog(cfg: Config, events: seq<Event>, e: Event)
    requires Sensible(cfg) && Legal(cfg, START, events) && Enabled(Run(cfg, START, events), e)
    ensures var s := Run(cfg, START, events); Step(cfg, s, e).b.state == StateAfter(cfg, s, e)
  {
    StartKeeps(cfg);
    RunKeeps(cfg, START, events);
    RunTimes(cfg, START, events);
    FailureRunGrows(Run(cfg, START, events).log, e.at);
  }

  // A call is admitted exactly when the breaker is closed, or open with the timeout past since the last
  // failure of the log, or half-open with fewer calls started in the episode than the maximum.
  lemma AdmittedIff(cfg: Config, events: seq<Event>, now: real)
    requires Sensible(cfg) && Legal(cfg, START, events)
    ensures var s := Run(cfg, START, events);
            Admits(cfg, s.b, now) <==>
              || s.b.state == Closed
              || (s.b.state == Open && now - LastFailure(s.log) >= cfg.timeout)
              || (s.b.state == HalfOpen && |StartedIn(s, s.episode)| < cfg.halfOpenMaxCalls)
  {
    StartKeeps(cfg);
    RunKeeps(cfg, START, events);
    RunTimes(cfg, START, events);
  }

  ghost predicate AlwaysClosed(cfg: Config, s: System, events: seq<Event>)
    decreases |events|
  {
    s.b.state == Closed && (events == [] || AlwaysClosed(cfg, Step(cfg, s, events[0]), events[1..]))
  }

  // The failures ending the log are at all times fewer than the threshold.
  ghost predicate FewFailures(cfg: Config, s: System, events: seq<Event>)
    decreases |events|
  {
    && FailureRun(s.log) < cfg.failureThreshold
    && (events == [] || FewFailures(cfg, Step(cfg, s, events[0]), events[1..]))
  }

  ghost predicate NeverRefuses(cfg: Config, s: System, events: seq<Event>)
    decreases |events|
  {
    events == [] ||
    (&& (events[0].action.Call? ==> events[0].action.id in Step(cfg, s, events[0]).flying)
     && NeverRefuses(cfg, Step(cfg, s, events[0]), events[1..]))
  }

  lemma ClosedStep(cfg: Config, s: System, e: Event)
    requires Inv(cfg, s) && s.b.state == Closed
    ensures var t := Step(cfg, s, e); t.b.state == Closed <==> FailureRun(t.log) < cfg.failureThreshold
    ensures e.action.Call? ==> e.action.id in Step(cfg, s, e).flying
  {
    var t := Step(cfg, s, e);
    if e.action.Return? || e.action.Raise? {
      assert t.log[..|s.log|] == s.log;
    }
  }

  lemma {:induction false} ClosedWhileFew(cfg: Config, s: System, events: seq<Event>)
    requires Sensible(cfg) && Inv(cfg, s) && s.b.state == Closed && Legal(cfg, s, events)
    ensures AlwaysClosed(cfg, s, events) <==> FewFailures(cfg, s, events)
    ensures FewFailures(cfg, s, events) ==> NeverRefuses(cfg, s, events)
    decreases |events|
  {
    if events != [] {
      var t := Step(cfg, s, events[0]);
      ClosedStep(cfg, s, events[0]);
      StepKeeps(cfg, s, events[0]);
      if t.b.state == Closed { ClosedWhileFew(cfg, t, events[1..]); }
    }
  }

  // From the beginning, from a reset, or from any other moment at which it is closed, the breaker stays
  // closed exactly as long as fewer failures than the threshold follow one another, and until then no
  // call is refused.
  lemma StaysClosedIff(cfg: Config, before: seq<Event>, events: seq<Event>)
    requires Sensible(cfg) && Legal(cfg, START, before)
    requires Run(cfg, START, before).b.state == Closed && Legal(cfg, Run(cfg, START, before), events)
    ensures var s := Run(cfg, START, before);
            && (AlwaysClosed(cfg, s, events) <==> FewFailures(cfg, s, events))
            && (FewFailures(cfg, s, events) ==> NeverRefuses(cfg, s, events))
  {
    StartKeeps(cfg);
    RunKeeps(cfg, START, before);
    ClosedWhileFew(cfg, Run(cfg, START, before), events);
  }

  // ---------- How many successes an episode needs ----------

  // An episode that closes the breaker has recorded, with the success that closes it, exactly
  // half_open_max_calls less what it inherited; so it has needed all of them exactly when no
  // success was left over when it began.
  lemma ClosingEpisode(cfg: Config, events: seq<Event>, e: Event)
    requires Sensible(cfg) && Legal(cfg, START, events)
    requires var s := Run(cfg, START, events); Enabled(s, e) && e.action.Return? && s.b.state == HalfOpen
    ensures var s := Run(cfg, START, events); var own := Own(s.trail) + 1;
            && (Step(cfg, s, e).b.state == Closed <==> own == cfg.halfOpenMaxCalls - Inherited(s.trail))
            && (Step(cfg, s, e).b.state == Closed ==>
                  (own == cfg.halfOpenMaxCalls <==> Inherited(s.trail) == 0))
  {
    StartKeeps(cfg);
    RunKeeps(cfg, START, events);
  }

  // What an episode inherits is the success count the breaker shows just before it half-opens.
  lemma HalfOpeningInherits(cfg: Config, events: seq<Event>, now: real)
    requires Sensible(cfg) && Legal(cfg, START, events)
    requires var s := Run(cfg, START, events); s.b.state == Open && now - s.b.lastFailureTime >= cfg.timeout
    ensures var s := Run(cfg, START, events); var t := Look'(cfg, s, now);
            t.episode == s.episode + 1 && Inherited(t.trail) == s.b.successCount && Own(t.trail) == 0
  {
    StartKeeps(cfg);
    RunKeeps(cfg, START, events);
    Marked(Run(cfg, START, events).trail, HalfOpened);
  }

  ghost predicate Leads(cfg: Config, s: System, e: Event, t: System) {
    Enabled(s, e) && t == Step(cfg, s, e)
  }

  lemma OneStep(cfg: Config, s: System, e: Event, t: System, rest: seq<Event>)
    requires Leads(cfg, s, e, t) && Legal(cfg, t, rest)
    ensures Legal(cfg, s, [e] + rest) && Run(cfg, s, [e] + rest) == Run(cfg, t, rest)
  {
    assert ([e] + rest)[1..] == rest;
  }

  // The breaker opens on its first failure, half-opens, and records a success.
  lemma OneCredit(cfg: Config, id: nat, next: nat) returns (s1: System, s2: System, s3: System, s4: System)
    requires cfg.failureThreshold == 1 && cfg.halfOpenMaxCalls == 2 && cfg.timeout >= 0.0 && id != next
    ensures Leads(cfg, START, Event(0.0, Call(id)), s1) && Leads(cfg, s1, Event(0.0, Raise(id)), s2)
    ensures Leads(cfg, s2, Event(cfg.timeout, Call(next)), s3) && Leads(cfg, s3, Event(cfg.timeout, Return(next)), s4)
    ensures s4.b.state == HalfOpen && s4.b.halfOpenCalls == 1 && s4.b.successCount == 1 && s4.clock == cfg.timeout
    ensures s4.trail == [HalfOpened, Credit] && s4.admitted.Keys == {id, next}
  {
    s1 := Step(cfg, START, Event(0.0, Call(id)));
    s2 := Step(cfg, s1, Event(0.0, Raise(id)));
    s3 := Step(cfg, s2, Event(cfg.timeout, Call(next)));
    s4 := Step(cfg, s3, Event(cfg.timeout, Return(next)));
  }

  // A failure reopens it, and after the timeout the next episode begins.
  lemma Reopened(cfg: Config, s: System, id: nat, next: nat, later: real) returns (s1: System, s2: System, s3: System)
    requires cfg.halfOpenMaxCalls == 2 && cfg.timeout >= 0.0 && id != next && later == s.clock + cfg.timeout
    requires s.b.state == HalfOpen && s.b.halfOpenCalls == 1 && id !in s.admitted && next !in s.admitted
    ensures Leads(cfg, s, Event(s.clock, Call(id)), s1) && Leads(cfg, s1, Event(s.clock, Raise(id)), s2)
    ensures Leads(cfg, s2, Event(later, Call(next)), s3)
    ensures s3.b.state == HalfOpen && next in s3.flying && s3.clock == later
    ensures s3.b.successCount == s.b.successCount && s3.trail == s.trail + [HalfOpened]
  {
    s1 := Step(cfg, s, Event(s.clock, Call(id)));
    s2 := Step(cfg, s1, Event(s.clock, Raise(id)));
    s3 := Step(cfg, s2, Event(later, Call(next)));
  }

  // Successes survive a reopening. A legal run of a breaker that asks for two successes ends in an
  // episode that has recorded none, yet the next success closes it.
  lemma SuccessesCarryOver(cfg: Config) returns (events: seq<Event>, e: Event)
    requires cfg.failureThreshold == 1 && cfg.halfOpenMaxCalls == 2 && cfg.timeout >= 0.0
    ensures Legal(cfg, START, events)
    ensures var s := Run(cfg, START, events);
            && Enabled(s, e) && e.action.Return? && s.b.state == HalfOpen
            && Own(s.trail) == 0 && Inherited(s.trail) == 1 && Step(cfg, s, e).b.state == Closed
  {
    var wait, later := cfg.timeout, cfg.timeout + cfg.timeout;
    var s1, s2, s3, s4 := OneCredit(cfg, 0, 1);
    var s5, s6, s7 := Reopened(cfg, s4, 2, 3, later);
    e := Event(later, Return(3));
    Marked([HalfOpened, Credit], HalfOpened);
    Marked([HalfOpened], Credit);
    assert [HalfOpened] + [Credit] == [HalfOpened, Credit];
    OneStep(cfg, s6, Event(later, Call(3)), s7, []);
    events := [Event(later, Call(3))] + [];
    OneStep(cfg, s5, Event(wait, Raise(2)), s6, events);
    events := [Event(wait, Raise(2))] + events;
    OneStep(cfg, s4, Event(wait, Call(2)), s5, events);
    events := [Event(wait, Call(2))] + events;
    OneStep(cfg, s3, Event(wait, Return(1)), s4, events);
    events := [Event(wait, Return(1))] + events;
    OneStep(cfg, s2, Event(wait, Call(1)), s3, events);
    events := [Event(wait, Call(1))] + events;
    OneStep(cfg, s1, Event(0.0, Raise(0)), s2, events);
    events := [Event(0.0, Raise(0))] + events;
    OneStep(cfg, START, Event(0.0, Call(0)), s1, events);
    events := [Event(0.0, Call(0))] + events;
  }
}
