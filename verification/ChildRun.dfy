/** One run of a child task: whatever the runner, the verifier and the publisher do, the task row, the
    attempt row and the recorded output tell the same story. */
module ChildRun {
  import opened Options

  datatype TaskState =
    | Created | Blocked | Ready | Claimed | Running | WaitingApproval | Completed | Failed | Cancelled | Interrupted

  datatype AttemptState = Opened | Started | Suspended | Ended(state: TaskState)

  datatype WorkspaceMode = Private | Worktree | SharedRead

  datatype Output = Output(state: TaskState, verified: bool, artifacts: nat)

  datatype Result = Settled(output: Output) | Raised

  /** The child run id a runner returns: absent, a name, or something else. */
  datatype RunId = Absent | Named | Malformed

  /** How the runner ends. */
  datatype RunnerOutcome = Returns(id: RunId) | CancelledRun | Pending | RunnerRaises

  /** What the verifier makes of the output. */
  datatype VerifierOutcome = Verified(artifacts: nat) | Rejected

  /** How publishing ends. A publish can raise with its files already in place. */
  datatype PublisherOutcome = Publishes | PublisherRaises(inPlace: bool)

  const REJECTED := Output(Failed, false, 0)

  /** The transitions `set_state` allows; staying put is allowed too. */
  predicate Allowed(from: TaskState, to: TaskState) {
    from == to ||
    match from
    case Created => to in {Blocked, Ready, Claimed, Running, Failed, Cancelled, Interrupted}
    case Blocked => to in {Ready, Cancelled, Interrupted}
    case Ready => to in {Claimed, Cancelled, Interrupted}
    case Claimed => to in {Running, Cancelled, Interrupted}
    case Running => to in {WaitingApproval, Completed, Failed, Cancelled, Interrupted}
    case WaitingApproval => to in {Running, Completed, Failed, Cancelled, Interrupted}
    case _ => false
  }

  predicate Active(task: TaskState) {
    task in {Created, Ready, Claimed, Running, WaitingApproval}
  }

  predicate Open(attempt: Option<AttemptState>) {
    attempt.Some? && !attempt.value.Ended?
  }

  /** The attempt reached the given end, or there never was an open one. */
  predicate AttemptAgrees(before: Option<AttemptState>, after: Option<AttemptState>, end: AttemptState) {
    after == if Open(before) then Some(end) else before
  }

  /** The records and the returned output agree, and completion means verified and published. */
  ghost predicate Agree(run: ChildTask, before: Option<AttemptState>, output: Output)
    reads run
  {
    && run.task == output.state
    && (output.verified <==> output.state == Completed)
    && (run.mode == SharedRead ==> !run.published && output.artifacts == 0)
    && match output.state
       case Completed =>
         && AttemptAgrees(before, run.attempt, Ended(Completed))
         && run.output == Some(output)
         && (run.published || run.mode == SharedRead)
       case Failed => AttemptAgrees(before, run.attempt, Ended(Failed)) && run.output == Some(output)
       case Cancelled =>
         AttemptAgrees(before, run.attempt, Ended(Cancelled)) && run.output == Some(output) && !run.published
       case WaitingApproval => AttemptAgrees(before, run.attempt, Suspended) && run.output == None && !run.published
       case _ => false
  }

  /** Whether the run can start: an open attempt must be new; without one the task must be able to run. */
  predicate Startable(task: TaskState, attempt: Option<AttemptState>) {
    if Open(attempt) then attempt == Some(Opened) else task in {Created, Claimed, Running, WaitingApproval}
  }

  /** A task that has ended, and one that has got as far as to run. */
  predicate Final(task: TaskState) {
    task in {Completed, Failed, Cancelled, Interrupted}
  }

  /** The states a task goes through when every change is made by `set_state`. */
  ghost predicate Life(states: seq<TaskState>) {
    && states != [] && states[0] == Created
    && forall i | 0 <= i < |states| - 1 :: Allowed(states[i], states[i + 1])
  }

  /** A task that has ended stays as it is. */
  lemma {:induction false} FinalForever(states: seq<TaskState>, i: nat, j: nat)
    requires Life(states) && i <= j < |states| && Final(states[i])
    ensures states[j] == states[i]
    decreases j - i
  {
    if i < j {
      FinalForever(states, i, j - 1);
      assert Allowed(states[j - 1], states[j]);
    }
  }

  /** A task completes or waits for an approval only after it was running. */
  lemma {:induction false} RanFirst(states: seq<TaskState>, j: nat) returns (k: nat)
    requires Life(states) && j < |states| && states[j] in {Completed, WaitingApproval}
    ensures k < j && states[k] == Running
  {
    assert 0 < j && Allowed(states[j - 1], states[j]);
    if states[j - 1] == Running {
      k := j - 1;
    } else {
      k := RanFirst(states, j - 1);
    }
  }

  class ChildTask {
    const mode: WorkspaceMode
    var task: TaskState
    var attempt: Option<AttemptState>
    var output: Option<Output>
    var published: bool

    constructor (mode: WorkspaceMode)
      ensures this.mode == mode && task == Created && attempt == None && output == None && !published
    {
      this.mode, task, attempt, output, published := mode, Created, None, None, false;
    }

    /******* The repository *******/

    method SetState(state: TaskState) returns (ok: bool)
      modifies this`task
      ensures ok <==> Allowed(old(task), state)
      ensures task == if ok then state else old(task)
      ensures var sources := match state
        case Created => {Created}
        case Blocked => {Created, Blocked}
        case Ready => {Created, Blocked, Ready}
        case Claimed => {Created, Ready, Claimed}
        case Running => {Created, Claimed, Running, WaitingApproval}
        case WaitingApproval => {Running, WaitingApproval}
        case Completed => {Running, WaitingApproval, Completed}
        case Failed => {Created, Running, WaitingApproval, Failed}
        case Cancelled => {Created, Blocked, Ready, Claimed, Running, WaitingApproval, Cancelled}
        case Interrupted => {Created, Blocked, Ready, Claimed, Running, WaitingApproval, Interrupted};
        ok <==> old(task) in sources
    {
      ok := Allowed(task, state);
      if ok {
        task := state;
      }
    }

    /** The task id is the primary key of the outputs. */
    method RecordOutput(o: Output) returns (ok: bool)
      modifies this`output
      ensures ok <==> old(output) == None
      ensures output == if ok then Some(o) else old(output)
    {
      ok := output.None?;
      if ok {
        output := Some(o);
      }
    }

    /** `claim_task` on the rows of this task. */
    method Claim() returns (ok: bool)
      modifies this`task, this`attempt
      ensures ok <==> old(task) in {Created, Ready, Interrupted}
      ensures if ok then task == Claimed && attempt == Some(Opened) else task == old(task) && attempt == old(attempt)
    {
      ok := task in {Created, Ready, Interrupted};
      if ok {
        task, attempt := Claimed, Some(Opened);
      }
    }

    method StartAttempt() returns (ok: bool)
      modifies this`task, this`attempt
      ensures ok <==> old(attempt) == Some(Opened)
      ensures if ok then task == Running && attempt == Some(Started) else task == old(task) && attempt == old(attempt)
    {
      ok := attempt == Some(Opened);
      if ok {
        task, attempt := Running, Some(Started);
      }
    }

    /** Ends or suspends an open attempt, and takes the task along; an ended attempt is left alone. */
    method FinishAttempt(end: AttemptState)
      requires end == Suspended || end.Ended?
      modifies this`task, this`attempt
      ensures AttemptAgrees(old(attempt), attempt, end)
      ensures old(attempt) == None || old(attempt).value.Ended? ==> task == old(task) && attempt == old(attempt)
      ensures old(attempt) in {Some(Opened), Some(Started), Some(Suspended)} ==>
        attempt == Some(end) && task == if end == Suspended then WaitingApproval else end.state
    {
      if attempt.Some? && !attempt.value.Ended? {
        attempt := Some(end);
        task := if end == Suspended then WaitingApproval else end.state;
      }
    }

    /** `resume_attempt`: a suspended attempt runs again. */
    method ResumeAttempt() returns (ok: bool)
      modifies this`task, this`attempt
      ensures ok <==> old(attempt) == Some(Suspended)
      ensures attempt == if ok then Some(Started) else old(attempt)
      ensures task == if ok && old(task) == WaitingApproval then Running else old(task)
    {
      ok := attempt == Some(Suspended);
      if ok {
        attempt := Some(Started);
        if task == WaitingApproval {
          task := Running;
        }
      }
    }

    /******* The service *******/

    /** A verdict of failure, from wherever it comes. */
    method Reject() returns (r: Result)
      requires Allowed(task, Failed) && (mode == SharedRead ==> !published)
      modifies this`task, this`attempt, this`output
      ensures r.Settled? <==> old(output) == None
      ensures r.Settled? ==> r.output == REJECTED && Agree(this, old(attempt), r.output)
      ensures r.Raised? ==> task == Failed && attempt == old(attempt) && output == old(output)
    {
      var moved := SetState(Failed);
      var recorded := RecordOutput(REJECTED);
      if !recorded {
        return Raised;
      }
      FinishAttempt(Ended(Failed));
      return Settled(REJECTED);
    }

    /** Publishing, or the refusal of it for a shared workspace. */
    method Publish(artifacts: nat, publisher: PublisherOutcome) returns (ok: bool)
      modifies this`published
      ensures mode == SharedRead ==> published == old(published) && (ok <==> artifacts == 0)
      ensures mode != SharedRead ==> (ok <==> publisher.Publishes?) && (ok ==> published)
    {
      if mode == SharedRead {
        return artifacts == 0;
      }
      match publisher
      case Publishes =>
        published := true;
        return true;
      case PublisherRaises(inPlace) =>
        published := inPlace;
        return false;
    }

    /** From a verified output on: publish, then complete or reject. */
    method Conclude(artifacts: nat, publisher: PublisherOutcome) returns (r: Result)
      requires task == Running && !published
      modifies this
      ensures r.Settled? <==> old(output) == None
      ensures r.Settled? ==> Agree(this, old(attempt), r.output) && r.output.state in {Completed, Failed}
      ensures r.Settled? ==>
        (r.output.state == Completed <==> if mode == SharedRead then artifacts == 0 else publisher.Publishes?)
      ensures r.Raised? ==> task in {Completed, Failed} && attempt == old(attempt) && output == old(output)
    {
      var ok := Publish(artifacts, publisher);
      if !ok {
        r := Reject();
        return;
      }
      var verified := Output(Completed, true, artifacts);
      var moved := SetState(Completed);
      var recorded := RecordOutput(verified);
      if !recorded {
        return Raised;
      }
      FinishAttempt(Ended(Completed));
      return Settled(verified);
    }

    /** `_record_cancelled`. */
    method RecordCancelled() returns (o: Output)
      requires !published && (Active(task) || task == Cancelled)
      modifies this`task, this`attempt, this`output
      ensures o == Output(Cancelled, false, 0)
      ensures old(output) == None ==> Agree(this, old(attempt), o)
      ensures task == Cancelled && AttemptAgrees(old(attempt), attempt, Ended(Cancelled))
      ensures old(output) != None ==> output == old(output)
    {
      if Active(task) {
        var moved := SetState(Cancelled);
      }
      o := Output(Cancelled, false, 0);
      if output.None? {
        var recorded := RecordOutput(o);
      }
      FinishAttempt(Ended(Cancelled));
    }

    /** The child asked for approval. */
    method Suspend() returns (o: Output)
      requires task == Running && !published
      modifies this`task, this`attempt
      ensures o == Output(WaitingApproval, false, 0) && task == WaitingApproval
      ensures AttemptAgrees(old(attempt), attempt, Suspended)
      ensures output == None ==> Agree(this, old(attempt), o)
    {
      if task == Running {
        var moved := SetState(WaitingApproval);
      }
      FinishAttempt(Suspended);
      return Output(WaitingApproval, false, 0);
    }

    /** `_run_one`. It settles, with records that agree, unless it cannot start or an output of an earlier
        run is already recorded; in that case the task has ended and its attempt is still running. */
    method RunOne(runner: RunnerOutcome, verifier: VerifierOutcome, publisher: PublisherOutcome) returns (r: Result)
      requires !published
      modifies this
      ensures r.Settled? <==>
        && (old(attempt) == Some(Opened)
            || ((old(attempt) == None || old(attempt).value.Ended?)
                && old(task) in {Created, Claimed, Running, WaitingApproval}))
        && (old(output) == None || runner.CancelledRun? || runner.Pending?)
      ensures r.Settled? && old(output) == None ==> Agree(this, old(attempt), r.output)
      ensures old(output) != None ==> output == old(output)
      ensures r.Settled? ==> (r.output.state == Cancelled <==> runner.CancelledRun?)
      ensures r.Settled? ==> (r.output.state == WaitingApproval <==> runner.Pending?)
      ensures r.Settled? ==>
        (r.output.state == Completed <==>
          && runner.Returns? && !runner.id.Malformed? && verifier.Verified?
          && if mode == SharedRead then verifier.artifacts == 0 else publisher.Publishes?)
      ensures r.Settled? ==> task == r.output.state && (r.output.verified <==> task == Completed)
      ensures r.Settled? ==>
        attempt == if old(attempt) != Some(Opened) then old(attempt)
          else if task == WaitingApproval then Some(Suspended) else Some(Ended(task))
      ensures r.Settled? && old(output) == None ==>
        output == if task == WaitingApproval then None else Some(r.output)
      ensures r.Settled? && task == Completed && mode != SharedRead ==> published
      ensures r.Settled? && task in {Cancelled, WaitingApproval} ==> !published
      ensures r.Raised? && Startable(old(task), old(attempt)) ==>
        task in {Completed, Failed} && attempt == if Open(old(attempt)) then Some(Started) else old(attempt)
    {
      var started;
      if attempt.Some? && !attempt.value.Ended? {
        started := StartAttempt();
      } else {
        started := SetState(Running);
      }
      if !started {
        return Raised;
      }
      match runner
      case CancelledRun =>
        var o := RecordCancelled();
        return Settled(o);
      case Pending =>
        var o := Suspend();
        return Settled(o);
      case RunnerRaises =>
        r := Reject();
      case Returns(id) =>
        if id == Malformed || verifier.Rejected? {
          r := Reject();
          return;
        }
        if id == Named {
          var moved := SetState(Running);
        }
        r := Conclude(verifier.artifacts, publisher);
    }

    /** The continuation after an approval, and `_complete_resumed`. An error of the runner itself is not
        caught there: the records are left as running. */
    method ContinueApproved(runner: RunnerOutcome, verifier: VerifierOutcome, publisher: PublisherOutcome)
      returns (r: Result)
      requires attempt == Some(Suspended) && task == WaitingApproval && output == None && !published
      requires !runner.CancelledRun?
      modifies this
      ensures r.Raised? <==> runner.RunnerRaises?
      ensures r.Raised? ==> task == Running && attempt == Some(Started) && output == None && !published
      ensures r.Settled? ==> Agree(this, old(attempt), r.output)
      ensures r.Settled? ==> (r.output.state == WaitingApproval <==> runner.Pending?)
      ensures r.Settled? ==> r.output.state in {WaitingApproval, Completed, Failed} && task == r.output.state
      ensures r.Settled? ==> attempt == if runner.Pending? then Some(Suspended) else Some(Ended(task))
      ensures r.Settled? ==> output == if runner.Pending? then None else Some(r.output)
      ensures r.Settled? ==>
        (r.output.state == Completed <==>
          && runner.Returns? && verifier.Verified?
          && if mode == SharedRead then verifier.artifacts == 0 else publisher.Publishes?)
    {
      var resumed := ResumeAttempt();
      match runner
      case RunnerRaises => return Raised;
      case Pending =>
        var o := Suspend();
        return Settled(o);
      case Returns(id) =>
        if id != Absent {
          var moved := SetState(Running);
        }
        if verifier.Rejected? {
          r := Reject();
          return;
        }
        r := Conclude(verifier.artifacts, publisher);
    }
  }
}
