/** Assigning queued tasks to idle workers, and how many workers of a team may be live. */
module Scheduling {
  import opened Options

  /******* One round of assignment *******/

  datatype Task = Task(id: nat, queued: bool, pinned: Option<nat>)

  datatype Worker = Worker(id: nat, idle: bool)

  /** `assign_agent_task` does not raise for the pair: profile, dependencies, workspace, claim. */
  type Oracle = (nat, nat) -> bool

  datatype Assignment = Assignment(task: nat, worker: nat)

  /** The pair may be tried at all. */
  predicate Candidate(task: Task, worker: Worker) {
    task.pinned.None? || task.pinned.value == worker.id
  }

  ghost predicate DistinctWorkers(workers: seq<Worker>) {
    forall i, j | 0 <= i < j < |workers| :: workers[i].id != workers[j].id
  }

  ghost predicate DistinctTasks(tasks: seq<Task>) {
    forall i, j | 0 <= i < j < |tasks| :: tasks[i].id != tasks[j].id
  }

  ghost predicate Taken(made: seq<Assignment>, worker: nat) {
    exists k :: 0 <= k < |made| && made[k].worker == worker
  }

  ghost predicate Given(made: seq<Assignment>, task: nat) {
    exists k :: 0 <= k < |made| && made[k].task == task
  }

  /** Every assignment is of a queued task to an idle worker it may go to, which accepted it; no task and no
      worker is used twice. */
  ghost predicate Proper(tasks: seq<Task>, workers: seq<Worker>, accepts: Oracle, made: seq<Assignment>) {
    && (forall k | 0 <= k < |made| ::
          && accepts(made[k].task, made[k].worker)
          && exists t, w :: t in tasks && w in workers && t.queued && w.idle && Candidate(t, w)
                            && made[k] == Assignment(t.id, w.id))
    && (forall k, m | 0 <= k < m < |made| :: made[k].task != made[m].task && made[k].worker != made[m].worker)
  }

  /** A worker that would have accepted the task is gone, and it went to no later task: an unassigned task
      is only ever passed over for tasks before it in the order. */
  ghost predicate PassedOver(tasks: seq<Task>, workers: seq<Worker>, accepts: Oracle, made: seq<Assignment>, i: nat)
    requires i < |tasks|
  {
    forall w | w in workers && w.idle && Candidate(tasks[i], w) && accepts(tasks[i].id, w.id) ::
      exists k, j :: 0 <= k < |made| && 0 <= j < i && made[k] == Assignment(tasks[j].id, w.id)
  }

  /** The workers still idle, in order. */
  ghost predicate Left(workers: seq<Worker>, made: seq<Assignment>, idle: seq<Worker>) {
    && (forall w | w in idle :: w in workers && w.idle && !Taken(made, w.id))
    && (forall w | w in workers && w.idle && !Taken(made, w.id) :: w in idle)
    && DistinctWorkers(idle)
  }

  /** The idle workers come in the order of all workers. */
  ghost predicate Ordered(workers: seq<Worker>, idle: seq<Worker>) {
    forall a, b, v, w | 0 <= a < b < |idle| && 0 <= v < |workers| && 0 <= w < |workers|
                        && workers[v] == idle[a] && workers[w] == idle[b] :: v < w
  }

  /** An assignment took the first worker that was free and fits: those before it that fit went to earlier
      assignments. */
  ghost predicate TookFirst(tasks: seq<Task>, workers: seq<Worker>, accepts: Oracle, made: seq<Assignment>, k: nat)
    requires k < |made|
  {
    forall i, v, w | 0 <= i < |tasks| && 0 <= v < w < |workers|
                     && tasks[i].id == made[k].task && workers[w].id == made[k].worker && workers[v].idle
                     && (tasks[i].pinned.None? || tasks[i].pinned.value == workers[v].id)
                     && accepts(tasks[i].id, workers[v].id) ::
      Taken(made[..k], workers[v].id)
  }

  /** The assignments were made in the order of the tasks, each to the first worker it could take. */
  ghost predicate InTurn(tasks: seq<Task>, workers: seq<Worker>, accepts: Oracle, made: seq<Assignment>) {
    && (forall k, m, i, j | 0 <= k < m < |made| && 0 <= i < |tasks| && 0 <= j < |tasks|
                            && tasks[i].id == made[k].task && tasks[j].id == made[m].task :: i < j)
    && (forall k | 0 <= k < |made| :: TookFirst(tasks, workers, accepts, made, k))
  }

  /** The first idle worker that fits is the first one of all that is still free and fits. */
  lemma FirstOfAll(tasks: seq<Task>, workers: seq<Worker>, accepts: Oracle, made: seq<Assignment>, idle: seq<Worker>,
                   i: nat, f: nat)
    requires DistinctTasks(tasks) && DistinctWorkers(workers) && i < |tasks| && f < |idle|
    requires Left(workers, made, idle) && Ordered(workers, idle)
    requires forall k | 0 <= k < f :: !(Candidate(tasks[i], idle[k]) && accepts(tasks[i].id, idle[k].id))
    ensures TookFirst(tasks, workers, accepts, made + [Assignment(tasks[i].id, idle[f].id)], |made|)
  {
    var more := made + [Assignment(tasks[i].id, idle[f].id)];
    assert more[..|made|] == made;
    forall v, w | 0 <= v < w < |workers| && workers[w].id == idle[f].id && workers[v].idle
                  && Candidate(tasks[i], workers[v]) && accepts(tasks[i].id, workers[v].id)
      ensures Taken(made, workers[v].id)
    {
      assert idle[f] in workers && idle[f] == workers[w];
      assert workers[v] !in idle;
    }
  }

  lemma InTurnMore(tasks: seq<Task>, workers: seq<Worker>, accepts: Oracle, made: seq<Assignment>, i: nat, worker: nat)
    requires DistinctTasks(tasks) && i < |tasks| && InTurn(tasks, workers, accepts, made)
    requires forall k | 0 <= k < |made| :: IsBefore(tasks, made[k].task, i)
    requires TookFirst(tasks, workers, accepts, made + [Assignment(tasks[i].id, worker)], |made|)
    ensures InTurn(tasks, workers, accepts, made + [Assignment(tasks[i].id, worker)])
  {
    var more := made + [Assignment(tasks[i].id, worker)];
    forall k | 0 <= k < |more| ensures TookFirst(tasks, workers, accepts, more, k) {
      if k < |made| {
        assert TookFirst(tasks, workers, accepts, made, k) && more[..k] == made[..k];
      }
    }
    forall k, m, p, q | 0 <= k < m < |more| && 0 <= p < |tasks| && 0 <= q < |tasks|
                        && tasks[p].id == more[k].task && tasks[q].id == more[m].task
      ensures p < q
    {
      if m == |made| {
        assert IsBefore(tasks, made[k].task, i);
      } else {
        assert more[k] == made[k] && more[m] == made[m];
      }
    }
  }

  lemma OneLater(workers: seq<Worker>, idle: seq<Worker>, k: nat)
    requires DistinctWorkers(workers) && k < |workers| && Ordered(workers, idle)
    requires forall w | w in idle :: w in workers[..k]
    ensures Ordered(workers, idle + [workers[k]])
  {
    var more := idle + [workers[k]];
    forall a, b, v, w | 0 <= a < b < |more| && 0 <= v < |workers| && 0 <= w < |workers|
                        && workers[v] == more[a] && workers[w] == more[b]
      ensures v < w
    {
      assert more[a] == idle[a] && idle[a] in idle;
      if b == |idle| {
        var x :| 0 <= x < k && workers[..k][x] == idle[a];
        assert workers[x] == workers[v] && w == k;
      }
    }
  }

  lemma OneFewer(workers: seq<Worker>, idle: seq<Worker>, i: nat)
    requires Ordered(workers, idle) && i < |idle|
    ensures Ordered(workers, idle[..i] + idle[i + 1..])
  {
    var rest := idle[..i] + idle[i + 1..];
    assert forall k | 0 <= k < |rest| :: rest[k] == idle[if k < i then k else k + 1];
  }

  lemma TakenMore(made: seq<Assignment>, a: Assignment, worker: nat)
    ensures Taken(made + [a], worker) <==> Taken(made, worker) || a.worker == worker
  {
    var more := made + [a];
    assert more[|made|] == a;
    assert forall k | 0 <= k < |made| :: more[k] == made[k];
  }

  lemma GivenMore(made: seq<Assignment>, a: Assignment, task: nat)
    ensures Given(made + [a], task) <==> Given(made, task) || a.task == task
  {
    var more := made + [a];
    assert more[|made|] == a;
    assert forall k | 0 <= k < |made| :: more[k] == made[k];
  }

  lemma TakeOne(workers: seq<Worker>, made: seq<Assignment>, idle: seq<Worker>, i: nat, task: nat)
    requires DistinctWorkers(workers) && Left(workers, made, idle) && i < |idle|
    ensures Left(workers, made + [Assignment(task, idle[i].id)], idle[..i] + idle[i + 1..])
  {
    var a, rest := Assignment(task, idle[i].id), idle[..i] + idle[i + 1..];
    forall w | w in rest ensures w in workers && w.idle && !Taken(made + [a], w.id) {
      assert w in idle && w.id != idle[i].id;
      TakenMore(made, a, w.id);
    }
    forall w | w in workers && w.idle && !Taken(made + [a], w.id) ensures w in rest {
      TakenMore(made, a, w.id);
      var k :| 0 <= k < |idle| && idle[k] == w;
      assert k != i;
      assert rest[if k < i then k else k - 1] == w;
    }
  }

  ghost predicate IsBefore(tasks: seq<Task>, task: nat, i: nat)
    requires i <= |tasks|
  {
    exists j :: 0 <= j < i && tasks[j].id == task
  }

  /** The tasks before `i` have been dealt with, and only those. */
  ghost predicate DealtWith(tasks: seq<Task>, workers: seq<Worker>, accepts: Oracle, made: seq<Assignment>, i: nat)
    requires i <= |tasks|
  {
    && Proper(tasks, workers, accepts, made)
    && (forall k | 0 <= k < |made| :: IsBefore(tasks, made[k].task, i))
    && (forall j | 0 <= j < i && tasks[j].queued && !Given(made, tasks[j].id) ::
        PassedOver(tasks, workers, accepts, made, j))
  }

  lemma AssignOne(tasks: seq<Task>, workers: seq<Worker>, accepts: Oracle, made: seq<Assignment>, i: nat, w: Worker)
    requires DistinctTasks(tasks) && i < |tasks| && DealtWith(tasks, workers, accepts, made, i)
    requires tasks[i].queued && w in workers && w.idle && Candidate(tasks[i], w) && accepts(tasks[i].id, w.id)
    requires !Taken(made, w.id)
    ensures DealtWith(tasks, workers, accepts, made + [Assignment(tasks[i].id, w.id)], i + 1)
  {
    var a := Assignment(tasks[i].id, w.id);
    var more := made + [a];
    assert tasks[i] in tasks;
    ProperMore(tasks, workers, accepts, made, i, w);
    forall j | 0 <= j < i + 1 && tasks[j].queued && !Given(more, tasks[j].id)
      ensures PassedOver(tasks, workers, accepts, more, j)
    {
      GivenMore(made, a, tasks[j].id);
      PassedOverMore(tasks, workers, accepts, made, a, j);
    }
    forall k | 0 <= k < |more| ensures IsBefore(tasks, more[k].task, i + 1) {
      if k < |made| {
        assert IsBefore(tasks, made[k].task, i);
      }
    }
  }

  lemma ProperMore(tasks: seq<Task>, workers: seq<Worker>, accepts: Oracle, made: seq<Assignment>, i: nat, w: Worker)
    requires DistinctTasks(tasks) && i < |tasks| && Proper(tasks, workers, accepts, made)
    requires forall k | 0 <= k < |made| :: IsBefore(tasks, made[k].task, i)
    requires tasks[i].queued && w in workers && w.idle && Candidate(tasks[i], w) && accepts(tasks[i].id, w.id)
    requires !Taken(made, w.id)
    ensures Proper(tasks, workers, accepts, made + [Assignment(tasks[i].id, w.id)])
  {
  }

  lemma PassedOverMore(tasks: seq<Task>, workers: seq<Worker>, accepts: Oracle, made: seq<Assignment>, a: Assignment,
                       i: nat)
    requires i < |tasks| && PassedOver(tasks, workers, accepts, made, i)
    ensures PassedOver(tasks, workers, accepts, made + [a], i)
  {
    forall w | w in workers && w.idle && Candidate(tasks[i], w) && accepts(tasks[i].id, w.id)
      ensures exists k, j :: 0 <= k < |made + [a]| && 0 <= j < i && (made + [a])[k] == Assignment(tasks[j].id, w.id)
    {
      var k, j :| 0 <= k < |made| && 0 <= j < i && made[k] == Assignment(tasks[j].id, w.id);
      assert (made + [a])[k] == Assignment(tasks[j].id, w.id);
    }
  }

  /** With no acceptable worker among those left, the task is passed over. */
  lemma PassOne(tasks: seq<Task>, workers: seq<Worker>, accepts: Oracle, made: seq<Assignment>, idle: seq<Worker>,
                i: nat, j: nat)
    requires i <= j < |tasks| && DealtWith(tasks, workers, accepts, made, i) && Left(workers, made, idle)
    requires forall w | w in idle :: !(Candidate(tasks[j], w) && accepts(tasks[j].id, w.id))
    ensures PassedOver(tasks, workers, accepts, made, j)
  {
  }

  /** A task that is not queued, or finds no worker, leaves the assignments as they are. */
  lemma SkipOne(tasks: seq<Task>, workers: seq<Worker>, accepts: Oracle, made: seq<Assignment>, i: nat)
    requires i < |tasks| && DealtWith(tasks, workers, accepts, made, i)
    requires tasks[i].queued ==> PassedOver(tasks, workers, accepts, made, i)
    ensures DealtWith(tasks, workers, accepts, made, i + 1)
  {
  }

  /** Without idle workers the remaining tasks are passed over. */
  lemma SkipRest(tasks: seq<Task>, workers: seq<Worker>, accepts: Oracle, made: seq<Assignment>, i: nat)
    requires i <= |tasks| && DealtWith(tasks, workers, accepts, made, i) && Left(workers, made, [])
    ensures DealtWith(tasks, workers, accepts, made, |tasks|)
    decreases |tasks| - i
  {
  }

  /** The first of the idle workers that may take the task and accepts it. */
  method FirstAccepting(task: Task, idle: seq<Worker>, accepts: Oracle) returns (found: Option<nat>)
    ensures found.Some? ==>
      && found.value < |idle| && Candidate(task, idle[found.value]) && accepts(task.id, idle[found.value].id)
      && forall k | 0 <= k < found.value :: !(Candidate(task, idle[k]) && accepts(task.id, idle[k].id))
    ensures found.None? ==> forall w | w in idle :: !(Candidate(task, w) && accepts(task.id, w.id))
  {
    for k := 0 to |idle|
      invariant forall m | 0 <= m < k :: !(Candidate(task, idle[m]) && accepts(task.id, idle[m].id))
    {
      if Candidate(task, idle[k]) && accepts(task.id, idle[k].id) {
        return Some(k);
      }
    }
    return None;
  }

  method IdleWorkers(workers: seq<Worker>) returns (idle: seq<Worker>)
    requires DistinctWorkers(workers)
    ensures Left(workers, [], idle) && Ordered(workers, idle)
  {
    idle := [];
    for k := 0 to |workers|
      invariant forall w | w in idle :: w in workers[..k] && w.idle
      invariant forall w | w in workers[..k] && w.idle :: w in idle
      invariant DistinctWorkers(idle) && Ordered(workers, idle)
    {
      assert workers[..k + 1] == workers[..k] + [workers[k]];
      if workers[k].idle {
        OneLater(workers, idle, k);
        idle := idle + [workers[k]];
      }
    }
    assert workers[..|workers|] == workers;
  }

  /** `_schedule_team`: in the order of the tasks, each takes the first idle worker that accepts it. */
  method ScheduleTeam(tasks: seq<Task>, workers: seq<Worker>, accepts: Oracle) returns (made: seq<Assignment>)
    requires DistinctTasks(tasks) && DistinctWorkers(workers)
    ensures DealtWith(tasks, workers, accepts, made, |tasks|)
    ensures InTurn(tasks, workers, accepts, made)
  {
    var idle := IdleWorkers(workers);
    made := [];
    for i := 0 to |tasks|
      invariant DealtWith(tasks, workers, accepts, made, i) && Left(workers, made, idle)
      invariant InTurn(tasks, workers, accepts, made) && Ordered(workers, idle)
    {
      if tasks[i].queued {
        made, idle := AssignTask(tasks, workers, accepts, made, idle, i);
        if idle == [] {
          SkipRest(tasks, workers, accepts, made, i + 1);
          break;
        }
      } else {
        SkipOne(tasks, workers, accepts, made, i);
      }
    }
  }

  /** After a round each assignment is of a queued task to an idle worker that its pin allows and that accepted it,
      no task and no worker has two, and no queued task and idle worker are left that fit each other. */
  lemma RoundMeans(tasks: seq<Task>, workers: seq<Worker>, accepts: Oracle, made: seq<Assignment>)
    requires DealtWith(tasks, workers, accepts, made, |tasks|)
    ensures forall a | a in made ::
      && accepts(a.task, a.worker)
      && exists t, w :: t in tasks && w in workers && t.id == a.task && w.id == a.worker && t.queued && w.idle
                        && (t.pinned.None? || t.pinned.value == w.id)
    ensures forall a, b | a in made && b in made && (a.task == b.task || a.worker == b.worker) :: a == b
    ensures forall t, w | t in tasks && w in workers && t.queued && w.idle
                          && (t.pinned.None? || t.pinned.value == w.id) && accepts(t.id, w.id) ::
      exists a :: a in made && (a.task == t.id || a.worker == w.id)
  {
    forall a, b | a in made && b in made && (a.task == b.task || a.worker == b.worker) ensures a == b {
      SameAssignment(tasks, workers, accepts, made, a, b);
    }
    forall t, w | t in tasks && w in workers && t.queued && w.idle
                  && (t.pinned.None? || t.pinned.value == w.id) && accepts(t.id, w.id)
      ensures exists a :: a in made && (a.task == t.id || a.worker == w.id)
    {
      var i :| 0 <= i < |tasks| && tasks[i] == t;
      if Given(made, t.id) {
        var k :| 0 <= k < |made| && made[k].task == t.id;
        assert made[k] in made;
      } else {
        assert PassedOver(tasks, workers, accepts, made, i) && Candidate(tasks[i], w);
        var k, j :| 0 <= k < |made| && 0 <= j < i && made[k] == Assignment(tasks[j].id, w.id);
        assert made[k] in made;
      }
    }
  }

  lemma Assigned(tasks: seq<Task>, workers: seq<Worker>, accepts: Oracle, made: seq<Assignment>, idle: seq<Worker>,
                 i: nat, f: nat)
    requires DistinctTasks(tasks) && DistinctWorkers(workers) && i < |tasks| && tasks[i].queued && f < |idle|
    requires DealtWith(tasks, workers, accepts, made, i) && Left(workers, made, idle)
    requires InTurn(tasks, workers, accepts, made) && Ordered(workers, idle)
    requires Candidate(tasks[i], idle[f]) && accepts(tasks[i].id, idle[f].id)
    requires forall k | 0 <= k < f :: !(Candidate(tasks[i], idle[k]) && accepts(tasks[i].id, idle[k].id))
    ensures var more, rest := made + [Assignment(tasks[i].id, idle[f].id)], idle[..f] + idle[f + 1..];
      && DealtWith(tasks, workers, accepts, more, i + 1) && Left(workers, more, rest)
      && InTurn(tasks, workers, accepts, more) && Ordered(workers, rest)
  {
    assert idle[f] in idle;
    AssignOne(tasks, workers, accepts, made, i, idle[f]);
    TakeOne(workers, made, idle, f, tasks[i].id);
    FirstOfAll(tasks, workers, accepts, made, idle, i, f);
    InTurnMore(tasks, workers, accepts, made, i, idle[f].id);
    OneFewer(workers, idle, f);
  }

  /** One turn of the loop. */
  method AssignTask(tasks: seq<Task>, ghost workers: seq<Worker>, accepts: Oracle, made: seq<Assignment>,
                    idle: seq<Worker>, i: nat)
    returns (more: seq<Assignment>, rest: seq<Worker>)
    requires DistinctTasks(tasks) && DistinctWorkers(workers) && i < |tasks| && tasks[i].queued
    requires DealtWith(tasks, workers, accepts, made, i) && Left(workers, made, idle)
    requires InTurn(tasks, workers, accepts, made) && Ordered(workers, idle)
    ensures DealtWith(tasks, workers, accepts, more, i + 1) && Left(workers, more, rest)
    ensures InTurn(tasks, workers, accepts, more) && Ordered(workers, rest)
  {
    var found := FirstAccepting(tasks[i], idle, accepts);
    if found.None? {
      PassOne(tasks, workers, accepts, made, idle, i, i);
      SkipOne(tasks, workers, accepts, made, i);
      return made, idle;
    }
    var w := idle[found.value];
    Assigned(tasks, workers, accepts, made, idle, i, found.value);
    more := made + [Assignment(tasks[i].id, w.id)];
    rest := idle[..found.value] + idle[found.value + 1..];
  }

  /** Two assignments of the same task, or to the same worker, are one. */
  lemma SameAssignment(tasks: seq<Task>, workers: seq<Worker>, accepts: Oracle, made: seq<Assignment>, a: Assignment,
                       b: Assignment)
    requires Proper(tasks, workers, accepts, made) && a in made && b in made
    requires a.task == b.task || a.worker == b.worker
    ensures a == b
  {
    var k :| 0 <= k < |made| && made[k] == a;
    var m :| 0 <= m < |made| && made[m] == b;
    assert k == m;
  }

  /** The round is maximal: no proper assignment extends it. */
  lemma Maximal(tasks: seq<Task>, workers: seq<Worker>, accepts: Oracle, made: seq<Assignment>, more: seq<Assignment>)
    requires DealtWith(tasks, workers, accepts, made, |tasks|)
    requires Proper(tasks, workers, accepts, more) && forall a | a in made :: a in more
    ensures forall a | a in more :: a in made
  {
    forall a | a in more ensures a in made {
      var t, w :| t in tasks && w in workers && t.queued && w.idle && Candidate(t, w) && a == Assignment(t.id, w.id);
      var i :| 0 <= i < |tasks| && tasks[i] == t;
      if Given(made, t.id) {
        var k :| 0 <= k < |made| && made[k].task == t.id;
        SameAssignment(tasks, workers, accepts, more, a, made[k]);
      } else {
        assert accepts(a.task, a.worker);
        var k, j :| 0 <= k < |made| && 0 <= j < i && made[k] == Assignment(tasks[j].id, w.id);
        SameAssignment(tasks, workers, accepts, more, a, made[k]);
      }
    }
  }
}
