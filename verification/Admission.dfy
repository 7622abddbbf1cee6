/** Admission of workers into a team and the limit on concurrent child runs, over whole runs. */
module Admission {
  import opened Options

  datatype WorkerState = Idle | Starting | Running | Waiting | Interrupted | Stopped

  datatype Worker = Worker(team: nat, state: WorkerState, persistent: bool)

  datatype Limits = Limits(maxChildren: nat, maxConcurrency: nat)

  /** Where an open attempt is. A run that has begun it, or continued it after an approval, is working on it; a
      resumed one waits for the permit of its continuation; an abandoned one was left by its run without an end.
      The rows of a working, a resumed and an abandoned attempt all say `running`. */
  datatype Phase = Opened | Working(run: nat) | Suspended | Resumed | Abandoned

  datatype Attempt = Attempt(worker: nat, phase: Phase)

  /** `open` are the attempts that are neither ended nor interrupted; `inside` maps every run that holds a permit
      of the semaphore to its attempt. */
  datatype State = State(workers: map<nat, Worker>, open: map<nat, Attempt>, permits: nat, inside: map<nat, nat>)

  /** `Begin`, `Continue` and `Suspend` are made by a run. `Finish` is the end of an attempt by its run or by a
      cancellation from outside. */
  datatype Step =
    | StartAgent(team: nat, worker: nat)
    | Delegate(team: nat, wanted: nat, created: set<nat>)
    | Claim(attempt: nat, worker: nat)
    | Enter(run: nat, attempt: nat)
    | Begin(run: nat)
    | Suspend(run: nat)
    | Resume(attempt: nat)
    | Continue(run: nat)
    | Finish(attempt: nat)
    | Leave(run: nat)
    | Stop(worker: nat)
    | Restart
    | Reopen(attempt: nat, worker: nat)

  function Live(s: State, team: nat): set<nat> {
    set w | w in s.workers && s.workers[w].team == team && s.workers[w].state != Stopped
  }

  ghost predicate Enabled(limits: Limits, s: State, step: Step) {
    match step
    case StartAgent(team, w) => w !in s.workers && |Live(s, team)| < limits.maxChildren
    case Delegate(team, wanted, created) =>
      created !! s.workers.Keys && |created| <= wanted && |Live(s, team)| + wanted <= limits.maxChildren
    case Claim(a, w) => a !in s.open && w in s.workers && s.workers[w].state != Stopped
    case Enter(run, a) => run !in s.inside && s.permits > 0
    case Begin(run) => Holds(s, run) && s.open[s.inside[run]].phase == Opened
    case Suspend(run) => Holds(s, run)
    case Resume(a) => a in s.open && s.open[a].worker in s.workers && s.open[a].phase == Suspended
    case Continue(run) => Holds(s, run) && s.open[s.inside[run]].phase == Resumed
    case Finish(a) => a in s.open && s.open[a].worker in s.workers
    case Leave(run) => run in s.inside
    case Stop(w) => w in s.workers && s.workers[w].state != Stopped
    case Restart => true
    case Reopen(a, w) => a !in s.open && w in s.workers && s.workers[w].state == Interrupted
  }

  /** The run holds a permit, and its attempt is still open. */
  predicate Holds(s: State, run: nat) {
    run in s.inside && s.inside[run] in s.open && s.open[s.inside[run]].worker in s.workers
  }

  function InPhase(s: State, a: nat, phase: Phase): map<nat, Attempt>
    requires a in s.open
  {
    s.open[a := s.open[a].(phase := phase)]
  }

  /** The attempt moves on, and its worker with it. */
  function Moved(s: State, a: nat, phase: Phase, state: WorkerState): State
    requires a in s.open && s.open[a].worker in s.workers
  {
    s.(workers := WithState(s, s.open[a].worker, state), open := InPhase(s, a, phase))
  }

  function WithState(s: State, w: nat, state: WorkerState): map<nat, Worker>
    requires w in s.workers
  {
    s.workers[w := s.workers[w].(state := state)]
  }

  /** A restart interrupts whatever was under way. */
  function InterruptedAll(workers: map<nat, Worker>): (r: map<nat, Worker>)
    ensures r.Keys == workers.Keys
    ensures forall w | w in workers ::
      r[w] == if workers[w].state in {Starting, Running, Waiting} then workers[w].(state := Interrupted) else workers[w]
  {
    map w | w in workers ::
      if workers[w].state in {Starting, Running, Waiting} then workers[w].(state := Interrupted) else workers[w]
  }

  /** One-task workers join a team. */
  function WithCreated(workers: map<nat, Worker>, team: nat, created: set<nat>): map<nat, Worker> {
    workers + map w | w in created :: Worker(team, Idle, false)
  }

  ghost function Next(limits: Limits, s: State, step: Step): State
    requires Enabled(limits, s, step)
  {
    match step
    case StartAgent(team, w) => s.(workers := s.workers[w := Worker(team, Idle, true)])
    case Delegate(team, _, created) => s.(workers := WithCreated(s.workers, team, created))
    case Claim(a, w) => s.(workers := WithState(s, w, Starting), open := s.open[a := Attempt(w, Opened)])
    case Enter(run, a) => s.(permits := s.permits - 1, inside := s.inside[run := a])
    case Begin(run) => Moved(s, s.inside[run], Working(run), Running)
    case Suspend(run) => Moved(s, s.inside[run], Suspended, Waiting)
    case Resume(a) => Moved(s, a, Resumed, Running)
    case Continue(run) => s.(open := InPhase(s, s.inside[run], Working(run)))
    case Finish(a) =>
      var w := s.open[a].worker;
      s.(workers := WithState(s, w, if s.workers[w].persistent then Idle else Stopped), open := s.open - {a})
    case Leave(run) =>
      var a := s.inside[run];
      s.(permits := s.permits + 1, inside := s.inside - {run},
         open := if a in s.open && s.open[a].phase == Working(run) then InPhase(s, a, Abandoned) else s.open)
    case Stop(w) => s.(workers := WithState(s, w, Stopped))
    case Restart => State(InterruptedAll(s.workers), map[], limits.maxConcurrency, map[])
    case Reopen(a, w) => s.(workers := WithState(s, w, Starting), open := s.open[a := Attempt(w, Opened)])
  }

  ghost function Initial(limits: Limits): State {
    State(map[], map[], limits.maxConcurrency, map[])
  }

  ghost predicate Run(limits: Limits, states: seq<State>, steps: seq<Step>) {
    && |states| == |steps| + 1
    && states[0] == Initial(limits)
    && forall i | 0 <= i < |steps| ::
      Enabled(limits, states[i], steps[i]) && states[i + 1] == Next(limits, states[i], steps[i])
  }

  lemma {:induction false} RunPrefix(limits: Limits, states: seq<State>, steps: seq<Step>)
    requires Run(limits, states, steps) && steps != []
    ensures Run(limits, states[..|steps|], steps[..|steps| - 1])
    ensures var i := |steps| - 1;
      Enabled(limits, states[i], steps[i]) && states[i + 1] == Next(limits, states[i], steps[i])
  {
  }

  /** Some attempt other than `a` is open on the worker. */
  ghost predicate Busy(s: State, w: nat, a: nat) {
    exists b :: b in s.open && b != a && s.open[b].worker == w
  }

  ghost predicate EndsOneTaskWorker(s: State, step: Step) {
    && step.Finish? && step.attempt in s.open
    && var w := s.open[step.attempt].worker; w in s.workers && !s.workers[w].persistent
  }

  /** A worker is stopped, by a request or as a one-task worker at the end of its task, only when no other
      attempt is open on it. */
  ghost predicate StopsOnlyAtRest(s: State, step: Step) {
    && (step.Stop? ==> forall b | b in s.open :: s.open[b].worker != step.worker)
    && (EndsOneTaskWorker(s, step) ==> !Busy(s, s.open[step.attempt].worker, step.attempt))
  }

  ghost predicate Orderly(states: seq<State>, steps: seq<Step>)
    requires |states| == |steps| + 1
  {
    forall i | 0 <= i < |steps| :: StopsOnlyAtRest(states[i], steps[i])
  }

  ghost predicate OpenOnLive(s: State) {
    forall a | a in s.open :: s.open[a].worker in s.workers && s.workers[s.open[a].worker].state != Stopped
  }

  ghost predicate WithinLimit(limits: Limits, s: State) {
    forall team :: |Live(s, team)| <= limits.maxChildren
  }

  lemma StepKeepsOpenOnLive(limits: Limits, s: State, step: Step)
    requires OpenOnLive(s) && Enabled(limits, s, step) && StopsOnlyAtRest(s, step)
    ensures OpenOnLive(Next(limits, s, step))
  {
  }

  lemma SubsetSize(a: set<nat>, b: set<nat>)
    requires a <= b
    ensures |a| <= |b|
    decreases b
  {
    if x :| x in a {
      SubsetSize(a - {x}, b - {x});
    }
  }

  /** Changing the state of a live worker makes no further worker live. */
  lemma NoFurtherLive(s: State, t: State, w: nat, team: nat)
    requires w in s.workers && s.workers[w].state != Stopped
    requires w in t.workers && t.workers == s.workers[w := t.workers[w]] && t.workers[w].team == s.workers[w].team
    ensures |Live(t, team)| <= |Live(s, team)|
  {
    SubsetSize(Live(t, team), Live(s, team));
  }

  lemma UnionSize(a: set<nat>, b: set<nat>)
    ensures |a + b| <= |a| + |b|
  {
  }

  /** New workers make no others live. */
  lemma Created(s: State, t: State, team: nat, created: set<nat>, other: nat)
    requires t.workers.Keys == s.workers.Keys + created
    requires forall w | w in s.workers && w !in created :: t.workers[w] == s.workers[w]
    requires forall w | w in created :: t.workers[w].team == team
    ensures |Live(t, other)| <= |Live(s, other)| + if other == team then |created| else 0
  {
    if other == team {
      SubsetSize(Live(t, other), Live(s, other) + created);
      UnionSize(Live(s, other), created);
    } else {
      SubsetSize(Live(t, other), Live(s, other));
    }
  }

  lemma StartKeepsLimit(s: State, t: State, team: nat, w: nat, max: nat, other: nat)
    requires |Live(s, other)| <= max && w !in s.workers && |Live(s, team)| < max
    requires t.workers == s.workers[w := Worker(team, Idle, true)]
    ensures |Live(t, other)| <= max
  {
    Created(s, t, team, {w}, other);
  }

  lemma DelegateKeepsLimit(s: State, t: State, team: nat, wanted: nat, created: set<nat>, max: nat, other: nat)
    requires |Live(s, other)| <= max && created !! s.workers.Keys
    requires |created| <= wanted && |Live(s, team)| + wanted <= max
    requires t.workers == WithCreated(s.workers, team, created)
    ensures |Live(t, other)| <= max
  {
    Created(s, t, team, created, other);
  }

  lemma StepKeepsLimit(limits: Limits, s: State, step: Step, team: nat)
    requires WithinLimit(limits, s) && OpenOnLive(s) && Enabled(limits, s, step)
    ensures |Live(Next(limits, s, step), team)| <= limits.maxChildren
  {
    var t := Next(limits, s, step);
    match step
    case StartAgent(own, w) => StartKeepsLimit(s, t, own, w, limits.maxChildren, team);
    case Delegate(own, wanted, created) => DelegateKeepsLimit(s, t, own, wanted, created, limits.maxChildren, team);
    case Claim(_, w) => NoFurtherLive(s, t, w, team);
    case Begin(run) => NoFurtherLive(s, t, s.open[s.inside[run]].worker, team);
    case Suspend(run) => NoFurtherLive(s, t, s.open[s.inside[run]].worker, team);
    case Resume(a) => NoFurtherLive(s, t, s.open[a].worker, team);
    case Finish(a) => NoFurtherLive(s, t, s.open[a].worker, team);
    case Stop(w) => NoFurtherLive(s, t, w, team);
    case Reopen(_, w) => NoFurtherLive(s, t, w, team);
    case Restart => assert Live(t, team) == Live(s, team);
    case Enter(_, _) => assert Live(t, team) == Live(s, team);
    case Continue(_) => assert Live(t, team) == Live(s, team);
    case Leave(_) => assert Live(t, team) == Live(s, team);
  }

  /** The live workers of a team never exceed the limit, as long as workers are stopped at rest. */
  lemma {:induction false} LiveWorkersBounded(limits: Limits, states: seq<State>, steps: seq<Step>)
    requires Run(limits, states, steps) && Orderly(states, steps)
    ensures OpenOnLive(states[|steps|]) && WithinLimit(limits, states[|steps|])
  {
    if steps == [] {
      assert forall team :: Live(states[0], team) == {};
    } else {
      RunPrefix(limits, states, steps);
      var earlier, fewer := states[..|steps|], steps[..|steps| - 1];
      assert forall i | 0 <= i < |fewer| :: earlier[i] == states[i] && fewer[i] == steps[i];
      LiveWorkersBounded(limits, earlier, fewer);
      var s, step := states[|steps| - 1], steps[|steps| - 1];
      StepKeepsOpenOnLive(limits, s, step);
      forall team ensures |Live(Next(limits, s, step), team)| <= limits.maxChildren {
        StepKeepsLimit(limits, s, step, team);
      }
    }
  }

  /******* Concurrency *******/

  function Workings(s: State): set<nat> {
    set a | a in s.open && s.open[a].phase.Working?
  }

  /** The attempts whose rows say `running` although no run is working on them. */
  function Idling(s: State): set<nat> {
    set a | a in s.open && s.open[a].phase in {Resumed, Abandoned}
  }

  /** The attempts whose rows say `running`. */
  function RunningRows(s: State): set<nat> {
    set a | a in s.open && (s.open[a].phase.Working? || s.open[a].phase in {Resumed, Abandoned})
  }

  /** Every attempt that is worked on is worked on by a run of its own with a permit. */
  ghost predicate Permitted(limits: Limits, s: State) {
    && |s.inside| + s.permits == limits.maxConcurrency
    && forall a | a in s.open && s.open[a].phase.Working? ::
         s.open[a].phase.run in s.inside && s.inside[s.open[a].phase.run] == a
  }

  lemma LeaveKeepsPermitted(limits: Limits, s: State, run: nat)
    requires Permitted(limits, s) && run in s.inside
    ensures Permitted(limits, Next(limits, s, Leave(run)))
  {
    assert (s.inside - {run}).Keys == s.inside.Keys - {run};
  }

  lemma EnterKeepsPermitted(limits: Limits, s: State, run: nat, a: nat)
    requires Permitted(limits, s) && Enabled(limits, s, Enter(run, a))
    ensures Permitted(limits, Next(limits, s, Enter(run, a)))
  {
  }

  lemma StepKeepsPermitted(limits: Limits, s: State, step: Step)
    requires Permitted(limits, s) && Enabled(limits, s, step)
    ensures Permitted(limits, Next(limits, s, step))
  {
    if step.Leave? {
      LeaveKeepsPermitted(limits, s, step.run);
    } else if step.Enter? {
      EnterKeepsPermitted(limits, s, step.run, step.attempt);
    } else {
      OthersKeepPermitted(limits, s, step);
    }
  }

  lemma OthersKeepPermitted(limits: Limits, s: State, step: Step)
    requires Permitted(limits, s) && Enabled(limits, s, step) && !step.Leave? && !step.Enter?
    ensures Permitted(limits, Next(limits, s, step))
  {
  }

  lemma {:induction false} AlwaysPermitted(limits: Limits, states: seq<State>, steps: seq<Step>)
    requires Run(limits, states, steps)
    ensures Permitted(limits, states[|steps|])
  {
    if steps != [] {
      RunPrefix(limits, states, steps);
      AlwaysPermitted(limits, states[..|steps|], steps[..|steps| - 1]);
      StepKeepsPermitted(limits, states[|steps| - 1], steps[|steps| - 1]);
    }
  }

  /** As many keys as there are values at least, when no two values share a key. */
  lemma {:induction false} OneRunEach(attempts: set<nat>, inside: map<nat, nat>, run: map<nat, nat>)
    requires attempts <= run.Keys && forall a | a in attempts :: run[a] in inside && inside[run[a]] == a
    ensures |attempts| <= |inside|
    decreases attempts
  {
    if a :| a in attempts {
      var fewer := inside - {run[a]};
      assert fewer.Keys == inside.Keys - {run[a]};
      OneRunEach(attempts - {a}, fewer, run);
    }
  }

  /** The child runs at work never exceed the limit: each has a permit of its own. The rows that say `running`
      are those and the ones no run is working on, so they exceed the limit if and only if the latter are more
      than the places the former leave. */
  lemma ConcurrencyBounded(limits: Limits, states: seq<State>, steps: seq<Step>)
    requires Run(limits, states, steps)
    ensures var s := states[|steps|];
      && |Workings(s)| <= |s.inside| <= limits.maxConcurrency
      && |RunningRows(s)| == |Workings(s)| + |Idling(s)|
      && (|RunningRows(s)| > limits.maxConcurrency <==> |Idling(s)| > limits.maxConcurrency - |Workings(s)|)
  {
    AlwaysPermitted(limits, states, steps);
    var s := states[|steps|];
    OneRunEach(Workings(s), s.inside, map a | a in Workings(s) :: s.open[a].phase.run);
    assert RunningRows(s) == Workings(s) + Idling(s) && Workings(s) !! Idling(s);
  }

  lemma BeginAddsRow(limits: Limits, s: State, run: nat)
    requires Enabled(limits, s, Begin(run))
    ensures s.inside[run] !in RunningRows(s)
    ensures RunningRows(Next(limits, s, Begin(run))) == RunningRows(s) + {s.inside[run]}
  {
  }

  lemma ResumeAddsRow(limits: Limits, s: State, a: nat)
    requires Enabled(limits, s, Resume(a))
    ensures a !in RunningRows(s) && RunningRows(Next(limits, s, Resume(a))) == RunningRows(s) + {a}
  {
  }

  lemma OthersAddNoRow(limits: Limits, s: State, step: Step)
    requires Enabled(limits, s, step) && !step.Begin? && !step.Resume?
    ensures RunningRows(Next(limits, s, step)) <= RunningRows(s)
  {
  }

  /** The rows within the limit, one more step: they exceed it exactly when the step adds a running row to as many
      as the limit allows, which only a run that begins and a decision that resumes do. */
  lemma RowsExceedIff(limits: Limits, s: State, step: Step)
    requires Enabled(limits, s, step) && |RunningRows(s)| <= limits.maxConcurrency
    ensures |RunningRows(Next(limits, s, step))| > limits.maxConcurrency <==>
      (step.Begin? || step.Resume?) && |RunningRows(s)| == limits.maxConcurrency
  {
    if step.Begin? {
      BeginAddsRow(limits, s, step.run);
    } else if step.Resume? {
      ResumeAddsRow(limits, s, step.attempt);
    } else {
      OthersAddNoRow(limits, s, step);
      SubsetSize(RunningRows(Next(limits, s, step)), RunningRows(s));
    }
  }

  /** Two children suspended for approval, and both approved: both rows say `running` before either continuation
      has a permit, under a limit of one. */
  lemma ApprovalsExceedRows(limits: Limits) returns (states: seq<State>, steps: seq<Step>)
    requires limits.maxChildren >= 2 && limits.maxConcurrency == 1
    ensures Run(limits, states, steps) && |steps| >= 2
    ensures steps[|steps| - 2] == Resume(7) && steps[|steps| - 1] == Resume(8)
    ensures var s := states[|steps|]; RunningRows(s) == {7, 8} && s.inside == map[]
  {
    var both := map[1 := Worker(0, Waiting, true), 2 := Worker(0, Waiting, true)];
    var s := State(both, map[7 := Attempt(1, Suspended), 8 := Attempt(2, Suspended)], 1, map[]);
    states, steps := TwoSuspended(limits, s);
    var t := Moved(s, 7, Resumed, Running);
    var u := Moved(t, 8, Resumed, Running);
    Extend(limits, states, steps, Resume(7), t);
    Extend(limits, states + [t], steps + [Resume(7)], Resume(8), u);
    states, steps := states + [t] + [u], steps + [Resume(7)] + [Resume(8)];
    assert RunningRows(u) == {7, 8};
  }

  lemma TwoSuspended(limits: Limits, s: State) returns (states: seq<State>, steps: seq<Step>)
    requires limits.maxChildren >= 2 && limits.maxConcurrency == 1
    requires s == State(map[1 := Worker(0, Waiting, true), 2 := Worker(0, Waiting, true)],
                        map[7 := Attempt(1, Suspended), 8 := Attempt(2, Suspended)], 1, map[])
    ensures Run(limits, states, steps) && states[|steps|] == s
  {
    states, steps := [Initial(limits)], [];
    assert Live(Initial(limits), 0) == {};
    states, steps := OneSuspended(limits, states, steps, 1, 7);
    assert Live(states[|steps|], 0) == {1};
    states, steps := OneSuspended(limits, states, steps, 2, 8);
  }

  /** A worker is started, claims a task, runs it, and suspends it. */
  lemma OneSuspended(limits: Limits, states: seq<State>, steps: seq<Step>, w: nat, a: nat)
    returns (later: seq<State>, more: seq<Step>)
    requires Run(limits, states, steps) && states[|steps|].permits == 1 && states[|steps|].inside == map[]
    requires w !in states[|steps|].workers && a !in states[|steps|].open
    requires |Live(states[|steps|], 0)| < limits.maxChildren
    ensures Run(limits, later, more)
    ensures var s := states[|steps|];
      later[|more|] == State(s.workers[w := Worker(0, Waiting, true)], s.open[a := Attempt(w, Suspended)], 1, map[])
  {
    var s := states[|steps|];
    var s1 := s.(workers := s.workers[w := Worker(0, Idle, true)]);
    Extend(limits, states, steps, StartAgent(0, w), s1);
    var s2 := s.(workers := s.workers[w := Worker(0, Starting, true)], open := s.open[a := Attempt(w, Opened)]);
    assert Next(limits, s1, Claim(a, w)) == s2;
    Extend(limits, states + [s1], steps + [StartAgent(0, w)], Claim(a, w), s2);
    later, more := RunAndSuspend(limits, states + [s1] + [s2], steps + [StartAgent(0, w)] + [Claim(a, w)], w, a);
    assert later[|more|].workers == s.workers[w := Worker(0, Waiting, true)];
  }

  lemma RunAndSuspend(limits: Limits, states: seq<State>, steps: seq<Step>, w: nat, a: nat)
    returns (later: seq<State>, more: seq<Step>)
    requires Run(limits, states, steps) && states[|steps|].permits == 1 && states[|steps|].inside == map[]
    requires w in states[|steps|].workers && a in states[|steps|].open && states[|steps|].open[a] == Attempt(w, Opened)
    ensures Run(limits, later, more) && later[|more|] == Moved(states[|steps|], a, Suspended, Waiting)
  {
    var s := states[|steps|];
    var s1 := s.(permits := 0, inside := map[0 := a]);
    Extend(limits, states, steps, Enter(0, a), s1);
    var s2 := Moved(s1, a, Working(0), Running);
    Extend(limits, states + [s1], steps + [Enter(0, a)], Begin(0), s2);
    var s3 := Moved(s1, a, Suspended, Waiting);
    assert Next(limits, s2, Suspend(0)) == s3;
    Extend(limits, states + [s1] + [s2], steps + [Enter(0, a)] + [Begin(0)], Suspend(0), s3);
    var s4 := Moved(s, a, Suspended, Waiting);
    assert Next(limits, s3, Leave(0)) == s4;
    later, more := states + [s1] + [s2] + [s3] + [s4], steps + [Enter(0, a)] + [Begin(0)] + [Suspend(0)] + [Leave(0)];
    Extend(limits, states + [s1] + [s2] + [s3], steps + [Enter(0, a)] + [Begin(0)] + [Suspend(0)], Leave(0), s4);
  }

  /** The attempt whose worker a step changes, if it is one that could revive a stopped worker. */
  function Touched(s: State, step: Step): Option<nat> {
    match step
    case Begin(run) => if run in s.inside then Some(s.inside[run]) else None
    case Suspend(run) => if run in s.inside then Some(s.inside[run]) else None
    case Resume(a) => Some(a)
    case Finish(a) => Some(a)
    case _ => None
  }

  /** What an attempt does to its worker makes a further worker live exactly when that worker had been
      stopped under it. */
  lemma RevivedIff(limits: Limits, s: State, step: Step)
    requires Enabled(limits, s, step) && Touched(s, step).Some?
    requires step.Finish? ==> s.workers[s.open[step.attempt].worker].persistent
    ensures var w := s.workers[s.open[Touched(s, step).value].worker];
      |Live(Next(limits, s, step), w.team)| > |Live(s, w.team)| <==> w.state == Stopped
  {
    LiveBalance(limits, s, step, s.workers[s.open[Touched(s, step).value].worker].team);
  }

  /** By how much a step changes the number of live workers of a team. */
  ghost function Gain(limits: Limits, s: State, step: Step, team: nat): int
    requires Enabled(limits, s, step)
  {
    match step
    case StartAgent(own, _) => if own == team then 1 else 0
    case Delegate(own, _, created) => if own == team then |created| else 0
    case Stop(w) => if s.workers[w].team == team then -1 else 0
    case Finish(a) =>
      var w := s.workers[s.open[a].worker];
      if w.team != team || w.persistent == (w.state != Stopped) then 0 else if w.persistent then 1 else -1
    case Begin(run) => if StoppedUnder(s, s.inside[run], team) then 1 else 0
    case Suspend(run) => if StoppedUnder(s, s.inside[run], team) then 1 else 0
    case Resume(a) => if StoppedUnder(s, a, team) then 1 else 0
    case _ => 0
  }

  /** The balance of live workers on every step: they come by admission and go by a stop or by the end of a
      one-task worker, except for those brought back that were stopped under an attempt. */
  lemma LiveBalance(limits: Limits, s: State, step: Step, team: nat)
    requires Enabled(limits, s, step)
    ensures |Live(Next(limits, s, step), team)| == |Live(s, team)| + Gain(limits, s, step, team)
  {
    if step.StartAgent? || step.Delegate? {
      JoinBalance(limits, s, step, team);
    } else if step.Begin? || step.Suspend? || step.Resume? {
      MoveBalance(limits, s, step, team);
    } else if step.Finish? || step.Stop? {
      EndBalance(limits, s, step, team);
    } else {
      RestBalance(limits, s, step, team);
    }
  }

  lemma JoinBalance(limits: Limits, s: State, step: Step, team: nat)
    requires Enabled(limits, s, step) && (step.StartAgent? || step.Delegate?)
    ensures |Live(Next(limits, s, step), team)| == |Live(s, team)| + Gain(limits, s, step, team)
  {
    var t := Next(limits, s, step);
    if step.StartAgent? {
      StartJoins(s, t, step.team, step.worker, team);
    } else {
      DelegateJoins(s, t, step.team, step.created, team);
    }
  }

  lemma StartJoins(s: State, t: State, own: nat, w: nat, team: nat)
    requires w !in s.workers && t.workers == s.workers[w := Worker(own, Idle, true)]
    ensures |Live(t, team)| == |Live(s, team)| + if own == team then 1 else 0
  {
    var created := {w};
    assert |created| == 1;
    Joined(s, t, own, created, team);
  }

  lemma DelegateJoins(s: State, t: State, own: nat, created: set<nat>, team: nat)
    requires created !! s.workers.Keys && t.workers == WithCreated(s.workers, own, created)
    ensures |Live(t, team)| == |Live(s, team)| + if own == team then |created| else 0
  {
    Joined(s, t, own, created, team);
  }

  lemma MoveBalance(limits: Limits, s: State, step: Step, team: nat)
    requires Enabled(limits, s, step) && (step.Begin? || step.Suspend? || step.Resume?)
    ensures |Live(Next(limits, s, step), team)| == |Live(s, team)| + Gain(limits, s, step, team)
  {
    OneChange(s, Next(limits, s, step), s.open[if step.Resume? then step.attempt else s.inside[step.run]].worker, team);
  }

  lemma EndBalance(limits: Limits, s: State, step: Step, team: nat)
    requires Enabled(limits, s, step) && (step.Finish? || step.Stop?)
    ensures |Live(Next(limits, s, step), team)| == |Live(s, team)| + Gain(limits, s, step, team)
  {
    OneChange(s, Next(limits, s, step), if step.Stop? then step.worker else s.open[step.attempt].worker, team);
  }

  lemma RestBalance(limits: Limits, s: State, step: Step, team: nat)
    requires Enabled(limits, s, step)
    requires step.Claim? || step.Reopen? || step.Restart? || step.Enter? || step.Continue? || step.Leave?
    ensures |Live(Next(limits, s, step), team)| == |Live(s, team)| + Gain(limits, s, step, team)
  {
    if step.Claim? || step.Reopen? {
      OneChange(s, Next(limits, s, step), step.worker, team);
    } else {
      Unchanged(s, Next(limits, s, step), team);
    }
  }

  /** New workers are live in their team and in no other. */
  lemma Joined(s: State, t: State, own: nat, created: set<nat>, team: nat)
    requires t.workers.Keys == s.workers.Keys + created
    requires forall w | w in created :: w !in s.workers
    requires forall w | w in s.workers :: t.workers[w] == s.workers[w]
    requires forall w | w in created :: t.workers[w].team == own && t.workers[w].state != Stopped
    ensures |Live(t, team)| - |Live(s, team)| == if own == team then |created| else 0
  {
    assert Live(t, team) == if own == team then Live(s, team) + created else Live(s, team);
  }

  lemma Unchanged(s: State, t: State, team: nat)
    requires t.workers.Keys == s.workers.Keys
    requires forall w | w in s.workers ::
      t.workers[w].team == s.workers[w].team && (t.workers[w].state == Stopped <==> s.workers[w].state == Stopped)
    ensures |Live(t, team)| == |Live(s, team)|
  {
    assert Live(t, team) == Live(s, team);
  }

  /** The worker of the attempt belongs to the team and has been stopped. */
  predicate StoppedUnder(s: State, a: nat, team: nat)
    requires a in s.open && s.open[a].worker in s.workers
  {
    s.workers[s.open[a].worker].team == team && s.workers[s.open[a].worker].state == Stopped
  }

  /** A new state of one worker changes the live ones by that worker at most. */
  lemma OneChange(s: State, t: State, id: nat, team: nat)
    requires id in s.workers && id in t.workers && t.workers == s.workers[id := t.workers[id]]
    requires t.workers[id].team == s.workers[id].team
    ensures |Live(t, team)| - |Live(s, team)| ==
      if s.workers[id].team != team || (s.workers[id].state == Stopped) == (t.workers[id].state == Stopped) then 0
      else if s.workers[id].state == Stopped then 1
      else -1
  {
    var others := Live(s, team) - {id};
    assert Live(t, team) ==
      if t.workers[id].team == team && t.workers[id].state != Stopped then others + {id} else others;
    assert Live(s, team) ==
      if s.workers[id].team == team && s.workers[id].state != Stopped then others + {id} else others;
  }

  /** Whether a worker is persistent, and its team, never change. */
  lemma {:induction false} WorkerKept(limits: Limits, states: seq<State>, steps: seq<Step>, i: nat, w: nat)
    requires Run(limits, states, steps) && i <= |steps| && w in states[i].workers
    ensures var t := states[|steps|];
      && w in t.workers
      && t.workers[w].persistent == states[i].workers[w].persistent && t.workers[w].team == states[i].workers[w].team
  {
    if i < |steps| {
      RunPrefix(limits, states, steps);
      WorkerKept(limits, states[..|steps|], steps[..|steps| - 1], i, w);
      WorkerStep(limits, states[|steps| - 1], steps[|steps| - 1], w);
    }
  }

  lemma WorkerStep(limits: Limits, s: State, step: Step, w: nat)
    requires Enabled(limits, s, step) && w in s.workers
    ensures var t := Next(limits, s, step);
      w in t.workers && t.workers[w].persistent == s.workers[w].persistent && t.workers[w].team == s.workers[w].team
  {
  }

  /** A worker that a delegation made is stopped by the end of any attempt on it, and a worker that was started
      becomes idle by it, whatever happened in between. */
  lemma EndOfAttempt(limits: Limits, states: seq<State>, steps: seq<Step>, i: nat, a: nat, w: nat)
    requires Run(limits, states, steps) && i < |steps| && Enabled(limits, states[|steps|], Finish(a))
    requires states[|steps|].open[a].worker == w
    requires (steps[i].StartAgent? && steps[i].worker == w) || (steps[i].Delegate? && w in steps[i].created)
    ensures var t := Next(limits, states[|steps|], Finish(a));
      && a !in t.open && w in t.workers && t.workers[w].team == steps[i].team
      && t.workers[w].state == if steps[i].Delegate? then Stopped else Idle
  {
    var made := Next(limits, states[i], steps[i]);
    assert states[i + 1] == made;
    WorkerKept(limits, states, steps, i + 1, w);
  }

  /** A worker gets an attempt only when none is open on it, and is stopped only then. */
  ghost predicate OneAtATime(s: State, step: Step) {
    step.Claim? || step.Reopen? || step.Stop? ==> forall a | a in s.open :: s.open[a].worker != step.worker
  }

  /** The state of the worker says how far the attempt has got. */
  ghost predicate Tells(s: State, a: nat)
    requires a in s.open
  {
    s.open[a].worker in s.workers && s.workers[s.open[a].worker].state ==
      match s.open[a].phase
      case Opened => Starting
      case Suspended => Waiting
      case _ => Running
  }

  ghost predicate HasAttempt(s: State, w: nat) {
    exists a :: a in s.open && s.open[a].worker == w
  }

  /** No worker has two open attempts, and its state tells whether it has one and how far that has got. */
  ghost predicate Telling(s: State) {
    && (forall a | a in s.open :: Tells(s, a))
    && (forall a, b | a in s.open && b in s.open && s.open[a].worker == s.open[b].worker :: a == b)
    && (forall w | w in s.workers && s.workers[w].state in {Starting, Running, Waiting} :: HasAttempt(s, w))
  }

  lemma MovedTells(s: State, b: nat, phase: Phase, state: WorkerState, a: nat)
    requires Telling(s) && a in s.open && b in s.open && s.open[b].worker in s.workers
    requires state == match phase case Opened => Starting case Suspended => Waiting case _ => Running
    ensures Tells(Moved(s, b, phase, state), a)
  {
    assert Tells(s, a);
  }

  /** New attempts, and changes of workers without one. */
  lemma OutsideTells(limits: Limits, s: State, step: Step, a: nat)
    requires Telling(s) && Enabled(limits, s, step) && OneAtATime(s, step) && a in Next(limits, s, step).open
    requires step.StartAgent? || step.Delegate? || step.Claim? || step.Reopen? || step.Stop? || step.Restart?
    ensures Tells(Next(limits, s, step), a)
  {
    assert a in s.open ==> Tells(s, a);
  }

  lemma InsideTells(limits: Limits, s: State, step: Step, a: nat)
    requires Telling(s) && Enabled(limits, s, step) && a in Next(limits, s, step).open
    requires step.Enter? || step.Leave? || step.Continue? || step.Finish?
    ensures Tells(Next(limits, s, step), a)
  {
    assert Tells(s, a);
  }

  lemma StepTells(limits: Limits, s: State, step: Step, a: nat)
    requires Telling(s) && Enabled(limits, s, step) && OneAtATime(s, step) && a in Next(limits, s, step).open
    ensures Tells(Next(limits, s, step), a)
  {
    if step.Begin? {
      MovedTells(s, s.inside[step.run], Working(step.run), Running, a);
    } else if step.Suspend? {
      MovedTells(s, s.inside[step.run], Suspended, Waiting, a);
    } else if step.Resume? {
      MovedTells(s, step.attempt, Resumed, Running, a);
    } else if step.Enter? || step.Leave? || step.Continue? || step.Finish? {
      InsideTells(limits, s, step, a);
    } else {
      OutsideTells(limits, s, step, a);
    }
  }

  lemma StepKeepsOne(limits: Limits, s: State, step: Step, a: nat, b: nat)
    requires Telling(s) && Enabled(limits, s, step) && OneAtATime(s, step)
    requires var t := Next(limits, s, step); a in t.open && b in t.open && t.open[a].worker == t.open[b].worker
    ensures a == b
  {
  }

  /** Unless a step gives the worker its attempt, the worker had one before. */
  lemma HadAttempt(limits: Limits, s: State, step: Step, w: nat)
    requires Telling(s) && Enabled(limits, s, step)
    requires var t := Next(limits, s, step); w in t.workers && t.workers[w].state in {Starting, Running, Waiting}
    requires step.Claim? || step.Reopen? ==> step.worker != w
    ensures HasAttempt(s, w)
    ensures !step.Restart? && (step.Finish? ==> s.open[step.attempt].worker != w)
  {
    if step.Begin? || step.Suspend? || step.Resume? {
      assert s.open[Touched(s, step).value].worker == w || s.workers[w].state in {Starting, Running, Waiting};
    } else if !step.Restart? {
      assert w in s.workers && s.workers[w].state in {Starting, Running, Waiting};
    }
  }

  lemma StepKeepsAttempt(limits: Limits, s: State, step: Step, w: nat)
    requires Telling(s) && Enabled(limits, s, step) && OneAtATime(s, step)
    requires var t := Next(limits, s, step); w in t.workers && t.workers[w].state in {Starting, Running, Waiting}
    ensures HasAttempt(Next(limits, s, step), w)
  {
    var t := Next(limits, s, step);
    if (step.Claim? || step.Reopen?) && step.worker == w {
      assert t.open[step.attempt].worker == w;
    } else {
      HadAttempt(limits, s, step, w);
      var a :| a in s.open && s.open[a].worker == w;
      assert a in t.open && t.open[a].worker == w;
    }
  }

  lemma StepKeepsTelling(limits: Limits, s: State, step: Step)
    requires Telling(s) && Enabled(limits, s, step) && OneAtATime(s, step)
    ensures Telling(Next(limits, s, step))
  {
    var t := Next(limits, s, step);
    forall a | a in t.open ensures Tells(t, a) {
      StepTells(limits, s, step, a);
    }
    forall a, b | a in t.open && b in t.open && t.open[a].worker == t.open[b].worker ensures a == b {
      StepKeepsOne(limits, s, step, a, b);
    }
    forall w | w in t.workers && t.workers[w].state in {Starting, Running, Waiting} ensures HasAttempt(t, w) {
      StepKeepsAttempt(limits, s, step, w);
    }
  }

  /** As long as workers have one attempt at a time, the state of a worker is told by its attempt: it is starting,
      running or waiting exactly when one is open on it that is new, under way or suspended. */
  lemma {:induction false} StatesTell(limits: Limits, states: seq<State>, steps: seq<Step>)
    requires Run(limits, states, steps)
    requires forall i | 0 <= i < |steps| :: OneAtATime(states[i], steps[i])
    ensures Telling(states[|steps|])
  {
    if steps != [] {
      RunPrefix(limits, states, steps);
      StatesTell(limits, states[..|steps|], steps[..|steps| - 1]);
      StepKeepsTelling(limits, states[|steps| - 1], steps[|steps| - 1]);
    }
  }

  lemma Extend(limits: Limits, states: seq<State>, steps: seq<Step>, step: Step, t: State)
    requires Run(limits, states, steps) && Enabled(limits, states[|steps|], step)
    requires t == Next(limits, states[|steps|], step)
    ensures Run(limits, states + [t], steps + [step])
  {
  }

  /** A worker with two tasks, the older of which is cancelled and the other one still open when it is stopped. */
  lemma StoppedWhileOpen(limits: Limits) returns (states: seq<State>, steps: seq<Step>)
    requires limits.maxChildren == 1
    ensures Run(limits, states, steps) && !Orderly(states, steps)
    ensures steps == [StartAgent(0, 1), Claim(7, 1), Claim(8, 1), Finish(7), Stop(1)]
    ensures states[5] ==
      State(map[1 := Worker(0, Stopped, true)], map[8 := Attempt(1, Opened)], limits.maxConcurrency, map[])
  {
    var earlier, fewer := TwoClaims(limits);
    var n := limits.maxConcurrency;
    var s4 := State(map[1 := Worker(0, Idle, true)], map[8 := Attempt(1, Opened)], n, map[]);
    assert earlier[3].open - {7} == s4.open;
    Extend(limits, earlier, fewer, Finish(7), s4);
    var s5 := s4.(workers := map[1 := Worker(0, Stopped, true)]);
    Extend(limits, earlier + [s4], fewer + [Finish(7)], Stop(1), s5);
    states, steps := earlier + [s4] + [s5], fewer + [Finish(7)] + [Stop(1)];
    assert steps[4] == Stop(1) && states[4] == s4 && 8 in s4.open;
  }

  lemma TwoClaims(limits: Limits) returns (states: seq<State>, steps: seq<Step>)
    requires limits.maxChildren == 1
    ensures Run(limits, states, steps) && steps == [StartAgent(0, 1), Claim(7, 1), Claim(8, 1)]
    ensures states[3] == State(map[1 := Worker(0, Starting, true)],
                               map[7 := Attempt(1, Opened), 8 := Attempt(1, Opened)], limits.maxConcurrency, map[])
  {
    var n := limits.maxConcurrency;
    var s0 := Initial(limits);
    assert Live(s0, 0) == {};
    var s1 := State(map[1 := Worker(0, Idle, true)], map[], n, map[]);
    Extend(limits, [s0], [], StartAgent(0, 1), s1);
    var s2 := State(map[1 := Worker(0, Starting, true)], map[7 := Attempt(1, Opened)], n, map[]);
    Extend(limits, [s0, s1], [StartAgent(0, 1)], Claim(7, 1), s2);
    var s3 := s2.(open := map[7 := Attempt(1, Opened), 8 := Attempt(1, Opened)]);
    Extend(limits, [s0, s1, s2], [StartAgent(0, 1), Claim(7, 1)], Claim(8, 1), s3);
    states, steps := [s0, s1, s2, s3], [StartAgent(0, 1), Claim(7, 1), Claim(8, 1)];
  }

  /** `stop_agent` cancels one active task of the worker, the oldest. With a second one still open, the worker is
      stopped under it, its place is given away, and the end of the second task brings it back. */
  lemma StoppedUnderATask(limits: Limits) returns (states: seq<State>, steps: seq<Step>)
    requires limits.maxChildren == 1
    ensures Run(limits, states, steps) && !Orderly(states, steps) && !WithinLimit(limits, states[|steps|])
    ensures steps == [StartAgent(0, 1), Claim(7, 1), Claim(8, 1), Finish(7), Stop(1), StartAgent(0, 2), Finish(8)]
  {
    var earlier, fewer := StoppedWhileOpen(limits);
    var n := limits.maxConcurrency;
    var workers := map[1 := Worker(0, Stopped, true), 2 := Worker(0, Idle, true)];
    var s6 := State(workers, map[8 := Attempt(1, Opened)], n, map[]);
    var s7 := State(map[1 := Worker(0, Idle, true), 2 := Worker(0, Idle, true)], map[], n, map[]);
    assert Live(earlier[5], 0) == {};
    Extend(limits, earlier, fewer, StartAgent(0, 2), s6);
    assert s6.open - {8} == map[];
    Extend(limits, earlier + [s6], fewer + [StartAgent(0, 2)], Finish(8), s7);
    states, steps := earlier + [s6] + [s7], fewer + [StartAgent(0, 2)] + [Finish(8)];
    var i :| 0 <= i < |fewer| && !StopsOnlyAtRest(earlier[i], fewer[i]);
    assert !StopsOnlyAtRest(states[i], steps[i]);
    assert Live(s7, 0) == {1, 2};
    assert |Live(s7, 0)| == 2;
  }

  lemma WithOneMore(workers: map<nat, Worker>, team: nat, created: set<nat>, w: nat)
    ensures WithCreated(workers, team, created + {w}) ==
      WithCreated(workers, team, created)[w := Worker(team, Idle, false)]
  {
  }

  /******* The service *******/

  class CollaborationService {
    const limits: Limits
    var workers: map<nat, Worker>
    var open: map<nat, Attempt>
    var permits: nat
    var inside: map<nat, nat>

    ghost function View(): State
      reads this
    {
      State(workers, open, permits, inside)
    }

    constructor (limits: Limits)
      ensures this.limits == limits && View() == Initial(limits)
    {
      this.limits, workers, open, permits, inside := limits, map[], map[], limits.maxConcurrency, map[];
    }

    method CountLive(team: nat) returns (count: nat)
      ensures count == |Live(View(), team)|
    {
      var todo := workers.Keys;
      count := 0;
      ghost var seen: set<nat> := {};
      while todo != {}
        invariant todo !! seen && todo + seen == workers.Keys
        invariant count == |Live(View(), team) * seen|
      {
        var w :| w in todo;
        todo, seen := todo - {w}, seen + {w};
        if workers[w].team == team && workers[w].state != Stopped {
          assert Live(View(), team) * seen == Live(View(), team) * (seen - {w}) + {w};
          count := count + 1;
        } else {
          assert Live(View(), team) * seen == Live(View(), team) * (seen - {w});
        }
      }
      assert Live(View(), team) * seen == Live(View(), team);
    }

    /** `start_agent` under the admission lock. */
    method StartAgent(team: nat, worker: nat) returns (ok: bool)
      requires worker !in workers
      modifies this`workers
      ensures ok <==> |Live(old(View()), team)| < limits.maxChildren
      ensures View() == if ok then Next(limits, old(View()), Step.StartAgent(team, worker)) else old(View())
    {
      var live := CountLive(team);
      if live >= limits.maxChildren {
        return false;
      }
      workers := workers[worker := Worker(team, Idle, true)];
      return true;
    }

    /** The admission part of `delegate`: one one-task worker for each contract. Something may raise on the way,
        after so many workers were made, all of them included. */
    method Delegate(team: nat, ids: seq<nat>, failing: Option<nat>) returns (ok: bool, ghost created: set<nat>)
      requires forall i | 0 <= i < |ids| :: ids[i] !in workers
      requires forall i, j | 0 <= i < j < |ids| :: ids[i] != ids[j]
      requires failing.Some? ==> failing.value <= |ids|
      modifies this`workers
      ensures |Live(old(View()), team)| + |ids| > limits.maxChildren ==> !ok && View() == old(View())
      ensures |Live(old(View()), team)| + |ids| <= limits.maxChildren ==>
        && (ok <==> failing.None?)
        && |created| == (if failing.Some? then failing.value else |ids|) && (forall w | w in created :: w in ids)
        && Enabled(limits, old(View()), Step.Delegate(team, |ids|, created))
        && View() == Next(limits, old(View()), Step.Delegate(team, |ids|, created))
    {
      var live := CountLive(team);
      created := {};
      if live + |ids| > limits.maxChildren {
        return false, created;
      }
      created := CreateWorkers(team, ids, if failing.Some? then failing.value else |ids|);
      ok := failing.None?;
    }

    method CreateWorkers(team: nat, ids: seq<nat>, count: nat) returns (ghost created: set<nat>)
      requires forall i | 0 <= i < |ids| :: ids[i] !in workers
      requires forall i, j | 0 <= i < j < |ids| :: ids[i] != ids[j]
      requires count <= |ids|
      modifies this`workers
      ensures workers == WithCreated(old(workers), team, created)
      ensures created !! old(workers).Keys && |created| == count && forall w | w in created :: w in ids
    {
      created := {};
      for i := 0 to count
        invariant forall w | w in created :: exists k :: 0 <= k < i && ids[k] == w
        invariant |created| == i
        invariant workers == WithCreated(old(workers), team, created)
      {
        WithOneMore(old(workers), team, created, ids[i]);
        workers := workers[ids[i] := Worker(team, Idle, false)];
        created := created + {ids[i]};
      }
    }

    method Claim(attempt: nat, worker: nat) returns (ok: bool)
      requires attempt !in open
      modifies this`workers, this`open
      ensures ok <==> worker in old(workers) && old(workers)[worker].state != Stopped
      ensures View() == if ok then Next(limits, old(View()), Step.Claim(attempt, worker)) else old(View())
    {
      if worker !in workers || workers[worker].state == Stopped {
        return false;
      }
      workers := workers[worker := workers[worker].(state := Starting)];
      open := open[attempt := Attempt(worker, Opened)];
      return true;
    }

    /** Entering the semaphore; without a permit the run waits. */
    method Acquire(run: nat, attempt: nat) returns (ok: bool)
      requires run !in inside
      modifies this`permits, this`inside
      ensures ok <==> old(permits) > 0
      ensures View() == if ok then Next(limits, old(View()), Step.Enter(run, attempt)) else old(View())
    {
      if permits == 0 {
        return false;
      }
      permits, inside := permits - 1, inside[run := attempt];
      return true;
    }

    /** Leaving the semaphore, however the run ended. */
    method Release(run: nat)
      requires run in inside
      modifies this`permits, this`inside, this`open
      ensures View() == Next(limits, old(View()), Step.Leave(run))
    {
      var a := inside[run];
      if a in open && open[a].phase == Working(run) {
        open := open[a := open[a].(phase := Abandoned)];
      }
      permits, inside := permits + 1, inside - {run};
    }

    /** `start_attempt` by a run with a permit. */
    method StartAttempt(run: nat) returns (ok: bool)
      requires run in inside && (inside[run] in open ==> open[inside[run]].worker in workers)
      modifies this`workers, this`open
      ensures ok <==> inside[run] in old(open) && old(open)[inside[run]].phase == Opened
      ensures View() == if ok then Next(limits, old(View()), Step.Begin(run)) else old(View())
    {
      var a := inside[run];
      if a !in open || open[a].phase != Opened {
        return false;
      }
      var w := open[a].worker;
      workers, open := workers[w := workers[w].(state := Running)], open[a := open[a].(phase := Working(run))];
      return true;
    }

    /** `resume_attempt`, which no permit guards. */
    method ResumeAttempt(attempt: nat) returns (ok: bool)
      requires attempt in open ==> open[attempt].worker in workers
      modifies this`workers, this`open
      ensures ok <==> attempt in old(open) && old(open)[attempt].phase == Suspended
      ensures View() == if ok then Next(limits, old(View()), Step.Resume(attempt)) else old(View())
    {
      if attempt !in open || open[attempt].phase != Suspended {
        return false;
      }
      var w := open[attempt].worker;
      workers, open := workers[w := workers[w].(state := Running)], open[attempt := open[attempt].(phase := Resumed)];
      return true;
    }

    /** `finish_attempt` does nothing to an attempt that has ended. */
    method FinishAttempt(attempt: nat)
      requires attempt in open ==> open[attempt].worker in workers
      modifies this`workers, this`open
      ensures View() == if attempt in old(open) then Next(limits, old(View()), Step.Finish(attempt)) else old(View())
    {
      if attempt in open {
        var w := open[attempt].worker;
        workers := workers[w := workers[w].(state := if workers[w].persistent then Idle else Stopped)];
        open := open - {attempt};
      }
    }

    /** `stop_worker`. */
    method StopWorker(worker: nat) returns (ok: bool)
      modifies this`workers
      ensures ok <==> worker in old(workers) && old(workers)[worker].state != Stopped
      ensures View() == if ok then Next(limits, old(View()), Step.Stop(worker)) else old(View())
    {
      if worker !in workers || workers[worker].state == Stopped {
        return false;
      }
      workers := workers[worker := workers[worker].(state := Stopped)];
      return true;
    }
  }
}
