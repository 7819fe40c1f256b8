// Multi-agent orchestration: tasks are delegated to free agents, executed with retries, and the
// agents released. Workflows interleave wherever the code awaits.
module Orchestrator {
  import opened Wrappers

  datatype Agent = Agent(role: string, busy: bool)

  datatype Status = Pending | Assigned | NoAgent | Completed

  datatype Task = Task(taskType: string, status: Status, agent: Option<string>, retryCount: int, maxRetries: int)

  datatype Metrics = Metrics(delegations: nat, successful: nat, failed: nat)

  // One attempt: the agent's answer, or the text of a timeout or exception.
  datatype Attempt = Answer(result: string) | Problem(error: string)

  // A registered role with its capabilities.
  datatype Role = Role(name: string, capabilities: seq<string>)

  // ---------- Delegation ----------

  function RoleForTask(roles: seq<Role>, taskType: string): Option<string> {
    if roles == [] then None
    else if taskType in roles[0].capabilities then Some(roles[0].name)
    else RoleForTask(roles[1..], taskType)
  }

  // The first role that has the capability, none exactly when no role has it.
  lemma {:induction false} FirstCapable(roles: seq<Role>, taskType: string)
    ensures var r := RoleForTask(roles, taskType);
            if r.None? then forall i :: 0 <= i < |roles| ==> taskType !in roles[i].capabilities
            else exists k :: 0 <= k < |roles| && taskType in roles[k].capabilities && r == Some(roles[k].name)
                             && forall i :: 0 <= i < k ==> taskType !in roles[i].capabilities
  {
    if roles != [] && taskType !in roles[0].capabilities {
      var rest, r := roles[1..], RoleForTask(roles, taskType);
      FirstCapable(rest, taskType);
      if r.Some? {
        var k :| 0 <= k < |rest| && taskType in rest[k].capabilities && r == Some(rest[k].name)
                 && forall i :: 0 <= i < k ==> taskType !in rest[i].capabilities;
        assert roles[k + 1] == rest[k];
        forall i | 0 <= i < k + 1 ensures taskType !in roles[i].capabilities {
          assert i > 0 ==> roles[i] == rest[i - 1];
        }
      } else {
        forall i | 0 <= i < |roles| ensures taskType !in roles[i].capabilities {
          assert i > 0 ==> roles[i] == rest[i - 1];
        }
      }
    }
  }

  predicate Free(agents: map<string, Agent>, id: string) {
    id in agents && !agents[id].busy
  }

  predicate Suits(agents: map<string, Agent>, id: string, target: Option<string>) {
    Free(agents, id) && (target.None? || agents[id].role == target.value)
  }

  // The chosen agent is the first in the list that is free and has the target role; failing that,
  // the first that is free; and there is none exactly when nobody in the list is free.
  ghost predicate Chosen(agents: map<string, Agent>, available: seq<string>, target: Option<string>,
                         r: Option<string>) {
    if r.None? then forall i :: 0 <= i < |available| ==> !Free(agents, available[i])
    else
      exists k :: 0 <= k < |available| && available[k] == r.value && Free(agents, r.value)
        && if Suits(agents, r.value, target)
           then forall i :: 0 <= i < k ==> !Suits(agents, available[i], target)
           else (forall i :: 0 <= i < k ==> !Free(agents, available[i]))
                && (forall i :: 0 <= i < |available| ==> !Suits(agents, available[i], target))
  }

  function Busied(agents: map<string, Agent>, id: string, busy: bool): map<string, Agent>
    requires id in agents
  {
    agents[id := agents[id].(busy := busy)]
  }

  class Orchestrator {
    var agents: map<string, Agent>
    var metrics: Metrics
    const roles: seq<Role>

    constructor (roles: seq<Role>)
      ensures agents == map[] && metrics == Metrics(0, 0, 0) && this.roles == roles
    {
      this.roles := roles;
      agents, metrics := map[], Metrics(0, 0, 0);
    }

    method RegisterAgent(id: string, role: string)
      modifies this`agents
      ensures agents == old(agents)[id := Agent(role, false)]
    {
      agents := agents[id := Agent(role, false)];
    }

    method DelegateTask(task: Task, available: seq<string>) returns (after: Task, r: Option<string>)
      modifies this`agents
      ensures Chosen(old(agents), available, RoleForTask(roles, task.taskType), r)
      ensures r.None? ==> agents == old(agents) && after == task
      ensures r.Some? ==> r.value in old(agents) && agents == Busied(old(agents), r.value, true)
                          && after == task.(agent := r, status := Assigned)
    {
      var target := RoleForTask(roles, task.taskType);
      for k := 0 to |available|
        invariant forall i :: 0 <= i < k ==> !Suits(agents, available[i], target)
      {
        var id := available[k];
        if id in agents && !agents[id].busy {
          if target.None? || agents[id].role == target.value {
            after, r := task.(agent := Some(id), status := Assigned), Some(id);
            agents := agents[id := agents[id].(busy := true)];
            return;
          }
        }
      }
      for k := 0 to |available|
        invariant forall i :: 0 <= i < k ==> !Free(agents, available[i])
      {
        var id := available[k];
        if id in agents && !agents[id].busy {
          after, r := task.(agent := Some(id), status := Assigned), Some(id);
          agents := agents[id := agents[id].(busy := true)];
          return;
        }
      }
      return task, None;
    }

    // `attempts` are the outcomes the agent would give, one per attempt.
    method ExecuteWithRetry(task: Task, attempts: nat -> Attempt) returns (done: Task, answer: Option<string>)
      modifies this`metrics
      ensures answer.Some? <==> exists n: nat :: n <= task.maxRetries && attempts(n).Answer?
      ensures answer.Some? ==>
                && 0 <= done.retryCount <= task.maxRetries
                && attempts(done.retryCount) == Attempt.Answer(answer.value)
                && (forall n: nat :: n < done.retryCount ==> attempts(n).Problem?)
                && metrics == old(metrics).(delegations := old(metrics).delegations + 1,
                                            successful := old(metrics).successful + 1)
      ensures answer.None? ==>
                && done.retryCount == (if task.maxRetries < 0 then task.retryCount else task.maxRetries)
                && metrics == old(metrics).(failed := old(metrics).failed + 1)
      ensures done == task.(retryCount := done.retryCount)
    {
      done := task;
      var attempt := 0;
      while attempt < task.maxRetries + 1
        invariant 0 <= attempt
        invariant attempt > 0 ==> attempt <= task.maxRetries + 1
        invariant done == task.(retryCount := if attempt == 0 then task.retryCount else attempt - 1)
        invariant forall n: nat :: n < attempt ==> attempts(n).Problem?
        invariant metrics == old(metrics)
      {
        done := done.(retryCount := attempt);
        match attempts(attempt)
        case Answer(result) =>
          metrics := metrics.(delegations := metrics.delegations + 1, successful := metrics.successful + 1);
          return done, Some(result);
        case Problem(_) =>
          attempt := attempt + 1;
      }
      metrics := metrics.(failed := metrics.failed + 1);
      return done, None;
    }

    // A workflow that nobody interrupts: its tasks are all completed or, when nobody in the list is
    // free, all left without an agent; either way it leaves the agents as it found them.
    method ExecuteWorkflow(tasks: seq<Task>, available: seq<string>, attempts: (nat, nat) -> Attempt)
      returns (done: seq<Task>, answers: seq<Option<string>>)
      modifies this
      ensures agents == old(agents)
      ensures |done| == |tasks|
      ensures forall i :: 0 <= i < |done| ==>
                done[i].status == if SomeoneFree(old(agents), available) then Completed else NoAgent
      ensures SomeoneFree(old(agents), available) ==>
                metrics.successful + metrics.failed == old(metrics).successful + old(metrics).failed + |tasks|
      ensures !SomeoneFree(old(agents), available) ==> metrics == old(metrics) && answers == []
      ensures SomeoneFree(old(agents), available) ==>
                && |answers| == |tasks|
                && forall i :: 0 <= i < |tasks| ==>
                     && FirstAnswer(tasks[i].maxRetries, attempts, i, answers[i])
                     && Chosen(old(agents), available, RoleForTask(roles, tasks[i].taskType), done[i].agent)
    {
      done, answers := [], [];
      for k := 0 to |tasks|
        invariant agents == old(agents) && |done| == k
        invariant forall i :: 0 <= i < k ==>
                    done[i].status == if SomeoneFree(agents, available) then Completed else NoAgent
        invariant SomeoneFree(agents, available) ==>
                    metrics.successful + metrics.failed == old(metrics).successful + old(metrics).failed + k
        invariant !SomeoneFree(agents, available) ==> metrics == old(metrics) && answers == []
        invariant SomeoneFree(agents, available) ==>
                    && |answers| == k
                    && forall i :: 0 <= i < k ==>
                         && FirstAnswer(tasks[i].maxRetries, attempts, i, answers[i])
                         && Chosen(agents, available, RoleForTask(roles, tasks[i].taskType), done[i].agent)
      {
        var task, r := DelegateTask(tasks[k], available);
        if r.None? {
          done := done + [task.(status := NoAgent)];
          continue;
        }
        var answer;
        var outcomes := (n: nat) => attempts(k, n);
        task, answer := ExecuteWithRetry(task, outcomes);
        assert forall n: nat :: outcomes(n) == attempts(k, n);
        assert FirstAnswer(tasks[k].maxRetries, attempts, k, answer);
        answers := answers + [answer];
        done := done + [task.(status := Completed)];
        MarkAgentAvailable(r.value);
      }
    }

    method MarkAgentAvailable(id: string)
      modifies this`agents
      ensures agents == if id in old(agents) then Busied(old(agents), id, false) else old(agents)
    {
      if id in agents {
        agents := agents[id := agents[id].(busy := false)];
      }
    }
  }

  // The first answer among the attempts at task i, or none if all of them have a problem.
  ghost predicate FirstAnswer(maxRetries: int, attempts: (nat, nat) -> Attempt, i: nat, answer: Option<string>) {
    if answer.None? then forall n: nat :: n <= maxRetries ==> attempts(i, n).Problem?
    else exists n: nat :: n <= maxRetries && attempts(i, n) == Answer(answer.value)
                          && forall m: nat :: m < n ==> attempts(i, m).Problem?
  }

  ghost predicate SomeoneFree(agents: map<string, Agent>, available: seq<string>) {
    exists i :: 0 <= i < |available| && Free(agents, available[i])
  }

  // ---------- Interleaved workflows ----------

  // A workflow is at task `next`, and while `holding` an agent has made `tried` attempts.
  datatype Workflow = Workflow(retries: seq<int>, next: nat, holding: Option<string>, tried: nat)

  datatype System = System(agents: map<string, Agent>, metrics: Metrics, workflows: map<nat, Workflow>, started: nat)

  datatype Step =
    | Begin(w: nat, retries: seq<int>)
    | Delegate(w: nat, available: seq<string>, target: Option<string>, choice: Option<string>)
    | Try(w: nat, ok: bool)
    | GiveUp(w: nat)

  predicate Running(s: System, w: nat) {
    w in s.workflows && s.workflows[w].holding.Some?
  }

  predicate Waiting(s: System, w: nat) {
    w in s.workflows && s.workflows[w].holding.None? && s.workflows[w].next < |s.workflows[w].retries|
  }

  // May the current task be tried once more?
  predicate MayTry(s: System, w: nat) {
    Running(s, w) && s.workflows[w].next < |s.workflows[w].retries|
    && s.workflows[w].tried < s.workflows[w].retries[s.workflows[w].next] + 1
  }

  ghost predicate Enabled(s: System, step: Step) {
    match step
    case Begin(w, _) => w !in s.workflows
    case Delegate(w, available, target, choice) => Waiting(s, w) && Chosen(s.agents, available, target, choice)
    case Try(w, _) => MayTry(s, w)
    case GiveUp(w) => Running(s, w) && !MayTry(s, w)
  }

  function Released(s: System, w: nat): System
    requires Running(s, w)
  {
    var wf := s.workflows[w];
    var id := wf.holding.value;
    s.(agents := if id in s.agents then Busied(s.agents, id, false) else s.agents,
       workflows := s.workflows[w := wf.(next := wf.next + 1, holding := None, tried := 0)])
  }

  ghost function Next(s: System, step: Step): System
    requires Enabled(s, step)
  {
    match step
    case Begin(w, retries) => s.(workflows := s.workflows[w := Workflow(retries, 0, None, 0)])
    case Delegate(w, _, _, choice) =>
      var wf := s.workflows[w];
      if choice.None? then s.(workflows := s.workflows[w := wf.(next := wf.next + 1)])
      else s.(agents := if choice.value in s.agents then Busied(s.agents, choice.value, true) else s.agents,
              workflows := s.workflows[w := wf.(holding := choice, tried := 0)], started := s.started + 1)
    case Try(w, ok) =>
      var wf := s.workflows[w];
      if ok then
        var r := Released(s, w);
        r.(metrics := s.metrics.(delegations := s.metrics.delegations + 1, successful := s.metrics.successful + 1))
      else s.(workflows := s.workflows[w := wf.(tried := wf.tried + 1)])
    case GiveUp(w) =>
      var r := Released(s, w);
      r.(metrics := s.metrics.(failed := s.metrics.failed + 1))
  }

  // ---------- Invariants ----------

  ghost predicate Holds(s: System, w: nat, id: string) {
    w in s.workflows && s.workflows[w].holding == Some(id)
  }

  ghost function Active(s: System): set<nat> {
    set w | w in s.workflows && s.workflows[w].holding.Some?
  }

  // An agent is busy exactly when a workflow holds it, and no two workflows hold the same one.
  ghost predicate Exclusive(s: System) {
    && (forall id :: id in s.agents ==> (s.agents[id].busy <==> exists w :: Holds(s, w, id)))
    && (forall w, id :: Holds(s, w, id) ==> id in s.agents)
    && (forall w, w', id :: Holds(s, w, id) && Holds(s, w', id) ==> w == w')
  }

  // No task is tried more than max_retries + 1 times.
  ghost predicate Bounded(s: System) {
    forall w :: w in s.workflows && s.workflows[w].holding.Some? ==>
      && s.workflows[w].next < |s.workflows[w].retries|
      && (s.workflows[w].tried == 0 || s.workflows[w].tried <= s.workflows[w].retries[s.workflows[w].next] + 1)
  }

  // Every execution that started has succeeded, has failed, or is still running.
  ghost predicate Balanced(s: System) {
    && s.started == s.metrics.successful + s.metrics.failed + |Active(s)|
    && s.metrics.delegations == s.metrics.successful
  }

  ghost predicate Inv(s: System) {
    Exclusive(s) && Bounded(s) && Balanced(s)
  }

  lemma ReleaseKeeps(s: System, w: nat)
    requires Exclusive(s) && Bounded(s) && Running(s, w)
    ensures Exclusive(Released(s, w)) && Bounded(Released(s, w))
    ensures |Active(Released(s, w))| == |Active(s)| - 1
  {
    var t, mine := Released(s, w), s.workflows[w].holding.value;
    assert Holds(s, w, mine);
    assert Active(t) == Active(s) - {w};
    forall x, id
      ensures Holds(t, x, id) <==> Holds(s, x, id) && x != w
    {
    }
    forall id | id in t.agents
      ensures t.agents[id].busy <==> exists x :: Holds(t, x, id)
    {
      if id != mine && s.agents[id].busy {
        var x :| Holds(s, x, id);
        assert Holds(t, x, id);
      }
    }
  }

  lemma DelegateKeeps(s: System, step: Step)
    requires Inv(s) && Enabled(s, step) && step.Delegate?
    ensures Inv(Next(s, step))
  {
    var t, w := Next(s, step), step.w;
    if step.choice.None? {
      assert Active(t) == Active(s);
      forall x, id ensures Holds(t, x, id) <==> Holds(s, x, id) {}
      forall id | id in t.agents && s.agents[id].busy ensures exists x :: Holds(t, x, id) {
        var x :| Holds(s, x, id);
        assert Holds(t, x, id);
      }
    } else {
      var mine := step.choice.value;
      assert !s.agents[mine].busy;
      assert Active(t) == Active(s) + {w};
      assert Holds(t, w, mine);
      forall x, id
        ensures Holds(t, x, id) <==> Holds(s, x, id) || (x == w && id == mine)
      {
      }
      forall id | id in t.agents && id != mine && s.agents[id].busy ensures exists x :: Holds(t, x, id) {
        var x :| Holds(s, x, id);
        assert Holds(t, x, id);
      }
    }
  }

  lemma TryKeeps(s: System, w: nat, ok: bool)
    requires Inv(s) && Enabled(s, Try(w, ok))
    ensures Inv(Next(s, Try(w, ok)))
  {
    var t := Next(s, Try(w, ok));
    if ok {
      ReleaseKeeps(s, w);
      SameHolders(Released(s, w), t);
    } else {
      assert Active(t) == Active(s);
      SameHolders(s, t);
    }
  }

  lemma RolesKept(s: System, step: Step)
    requires Enabled(s, step)
    ensures Next(s, step).agents.Keys == s.agents.Keys
    ensures forall id :: id in s.agents ==> Next(s, step).agents[id].role == s.agents[id].role
  {
  }

  lemma StepKeeps(s: System, step: Step)
    requires Inv(s) && Enabled(s, step)
    ensures Inv(Next(s, step))
    ensures Next(s, step).agents.Keys == s.agents.Keys
    ensures forall id :: id in s.agents ==> Next(s, step).agents[id].role == s.agents[id].role
  {
    RolesKept(s, step);
    match step
    case Begin(w, _) =>
      assert Active(Next(s, step)) == Active(s);
      SameHolders(s, Next(s, step));
    case Delegate(_, _, _, _) => DelegateKeeps(s, step);
    case Try(w, ok) => TryKeeps(s, w, ok);
    case GiveUp(w) =>
      ReleaseKeeps(s, w);
      SameHolders(Released(s, w), Next(s, step));
  }

  lemma SameHolders(s: System, t: System)
    requires Exclusive(s) && t.agents == s.agents
    requires forall w, id :: Holds(t, w, id) <==> Holds(s, w, id)
    ensures Exclusive(t)
  {
    forall id | id in t.agents
      ensures t.agents[id].busy <==> exists w :: Holds(t, w, id)
    {
      if s.agents[id].busy {
        var w :| Holds(s, w, id);
        assert Holds(t, w, id);
      }
    }
  }

  ghost predicate Legal(s: System, steps: seq<Step>)
    decreases |steps|
  {
    steps == [] || (Enabled(s, steps[0]) && Legal(Next(s, steps[0]), steps[1..]))
  }

  ghost function Run(s: System, steps: seq<Step>): System
    requires Legal(s, steps)
    decreases |steps|
  {
    if steps == [] then s else Run(Next(s, steps[0]), steps[1..])
  }

  // The invariants hold in every run.
  lemma {:induction false} RunKeeps(s: System, steps: seq<Step>)
    requires Inv(s) && Legal(s, steps)
    ensures Inv(Run(s, steps))
    ensures Run(s, steps).agents.Keys == s.agents.Keys
    ensures forall id :: id in s.agents ==> Run(s, steps).agents[id].role == s.agents[id].role
    decreases |steps|
  {
    if steps != [] {
      StepKeeps(s, steps[0]);
      RunKeeps(Next(s, steps[0]), steps[1..]);
    }
  }

  ghost predicate Idle(s: System) {
    (forall id :: id in s.agents ==> !s.agents[id].busy) && s.workflows == map[] && s.metrics == Metrics(0, 0, 0)
    && s.started == 0
  }

  // From idle agents, in every interleaving: whenever no execution is in progress all agents are
  // exactly as they were found, and successes plus failures are the executions started.
  lemma AgentsRestored(s: System, steps: seq<Step>)
    requires Idle(s) && Legal(s, steps)
    ensures var t := Run(s, steps);
            && Inv(t)
            && (Active(t) == {} ==> t.agents == s.agents && t.metrics.successful + t.metrics.failed == t.started)
  {
    assert Active(s) == {};
    assert Inv(s);
    RunKeeps(s, steps);
    var t := Run(s, steps);
    if Active(t) == {} {
      assert forall w, id :: Holds(t, w, id) ==> w in Active(t);
      assert forall id :: id in t.agents ==> t.agents[id] == s.agents[id];
    }
  }

  // What register_agent does among running workflows.
  function Registered(s: System, id: string, role: string): System {
    s.(agents := s.agents[id := Agent(role, false)])
  }

  // Registering an id again makes its agent free, which is harmless exactly when it is not busy.
  lemma ReregisterKeepsIff(s: System, id: string, role: string)
    requires Inv(s)
    ensures Exclusive(Registered(s, id, role)) <==> !(id in s.agents && s.agents[id].busy)
  {
    var t := Registered(s, id, role);
    forall w, x ensures Holds(t, w, x) <==> Holds(s, w, x) {}
    if exists w :: Holds(s, w, id) {
      var w :| Holds(s, w, id);
      assert Holds(t, w, id);
    } else {
      forall x | x in t.agents
        ensures t.agents[x].busy <==> exists w :: Holds(t, w, x)
      {
        if x != id && s.agents[x].busy {
          var w :| Holds(s, w, x);
          assert Holds(t, w, x);
        }
      }
    }
  }

  // A new workflow takes a free agent.
  lemma TakesAgent(s: System, w: nat, id: string) returns (steps: seq<Step>, end: System)
    requires w !in s.workflows && id in s.agents && !s.agents[id].busy
    ensures Legal(s, steps) && Run(s, steps) == end && Holds(end, w, id) && end.workflows.Keys == s.workflows.Keys + {w}
    ensures id in end.agents && forall x :: x in s.workflows ==> end.workflows[x] == s.workflows[x]
  {
    var begin, delegate := Begin(w, [0]), Delegate(w, [id], None, Some(id));
    var t := Next(s, begin);
    assert Chosen(t.agents, [id], None, Some(id)) by { assert [id][0] == id; }
    end := Next(t, delegate);
    RunStep(t, delegate, []);
    RunStep(s, begin, [delegate] + []);
    steps := [begin] + ([delegate] + []);
  }

  lemma RunStep(s: System, step: Step, rest: seq<Step>)
    requires Enabled(s, step) && Legal(Next(s, step), rest)
    ensures Legal(s, [step] + rest) && Run(s, [step] + rest) == Run(Next(s, step), rest)
  {
    assert ([step] + rest)[1..] == rest;
  }

  // From idle agents: a workflow is delegated an agent, the agent is registered again, and a second
  // workflow is delegated the same one.
  lemma DelegatedTwice(s: System, id: string, role: string)
      returns (first: seq<Step>, t: System, second: seq<Step>, end: System)
    requires Idle(s) && id in s.agents
    ensures Legal(s, first) && Run(s, first) == t && Holds(t, 0, id)
    ensures Legal(Registered(t, id, role), second) && Run(Registered(t, id, role), second) == end
    ensures Holds(end, 0, id) && Holds(end, 1, id)
  {
    first, t := TakesAgent(s, 0, id);
    second, end := TakesAgent(Registered(t, id, role), 1, id);
  }

  // ---------- Attempts over a whole run ----------

  // How often the run tries task number k of a workflow.
  ghost function Tries(s: System, steps: seq<Step>, w: nat, k: nat): nat
    requires Legal(s, steps)
    decreases |steps|
  {
    if steps == [] then 0
    else
      (if steps[0].Try? && steps[0].w == w && s.workflows[w].next == k then 1 else 0)
      + Tries(Next(s, steps[0]), steps[1..], w, k)
  }

  // What is left of max_retries + 1 attempts.
  function Budget(s: System, w: nat, k: nat, retries: seq<int>): nat {
    if k >= |retries| || retries[k] < 0 then 0
    else if w !in s.workflows || s.workflows[w].next < k then retries[k] + 1
    else if s.workflows[w].next > k then 0
    else if s.workflows[w].holding.None? then retries[k] + 1
    else if s.workflows[w].tried > retries[k] + 1 then 0
    else retries[k] + 1 - s.workflows[w].tried
  }

  // A workflow keeps its list of tasks.
  lemma {:induction false} RetriesKept(s: System, steps: seq<Step>, w: nat)
    requires Legal(s, steps) && w in s.workflows
    ensures w in Run(s, steps).workflows && Run(s, steps).workflows[w].retries == s.workflows[w].retries
    decreases |steps|
  {
    if steps != [] { RetriesKept(Next(s, steps[0]), steps[1..], w); }
  }

  lemma {:induction false} TriesWithin(s: System, steps: seq<Step>, w: nat, k: nat)
    requires Legal(s, steps) && w in Run(s, steps).workflows
    ensures Tries(s, steps, w, k) <= Budget(s, w, k, Run(s, steps).workflows[w].retries)
    decreases |steps|
  {
    if steps != [] {
      TriesWithin(Next(s, steps[0]), steps[1..], w, k);
      if w in s.workflows { RetriesKept(s, steps, w); }
    }
  }

  // Over any run, in any interleaving, each task of a workflow is tried at most max_retries + 1 times.
  lemma TriesBounded(s: System, steps: seq<Step>, w: nat, k: nat)
    requires Idle(s) && Legal(s, steps) && w in Run(s, steps).workflows && k < |Run(s, steps).workflows[w].retries|
    ensures var retries := Run(s, steps).workflows[w].retries[k];
            Tries(s, steps, w, k) <= if retries < 0 then 0 else retries + 1
  {
    TriesWithin(s, steps, w, k);
  }
}
