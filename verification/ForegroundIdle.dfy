/** When the idle flag of the foreground controller is wrong: exactly which runs leave it set over work, and which
    leave it clear with nothing to do. */
module ForegroundIdle {
  import opened Foreground

  lemma InvariantsAt(states: seq<State>, steps: seq<Step>, k: nat)
    requires Run(states, steps) && k <= |steps|
    ensures Tidy(states[k]) && IdleUntilClosed(states[k])
  {
    var earlier, fewer := states[..k + 1], steps[..k];
    assert Run(earlier, fewer) by {
      forall i | 0 <= i < k ensures Enabled(earlier[i], fewer[i]) && earlier[i + 1] == Next(earlier[i], fewer[i]) {
        assert earlier[i] == states[i] && fewer[i] == steps[i] && earlier[i + 1] == states[i + 1];
      }
    }
    AlwaysTidy(earlier, fewer);
    IdleMeansNothingToDo(earlier, fewer);
  }

  /** The step from one state of a run to the next. */
  lemma StepAt(states: seq<State>, steps: seq<Step>, k: nat)
    requires Run(states, steps) && k < |steps|
    ensures Enabled(states[k], steps[k]) && states[k + 1] == Next(states[k], steps[k])
    ensures Tidy(states[k]) && IdleUntilClosed(states[k])
  {
    InvariantsAt(states, steps, k);
  }

  /** What every step keeps holds to the end. */
  lemma {:induction false} Persists(holds: seq<bool>, i: nat, k: nat)
    requires i <= k < |holds| && holds[i] && forall j | i <= j < k :: holds[j] ==> holds[j + 1]
    ensures holds[k]
    decreases k
  {
    if i < k {
      Persists(holds, i, k - 1);
    }
  }

  /** What holds now and not at first has held since some moment. */
  lemma {:induction false} Onset(holds: seq<bool>, k: nat) returns (i: nat)
    requires k < |holds| && holds[k] && !holds[0]
    ensures i < k && !holds[i] && forall j | i < j <= k :: holds[j]
  {
    if holds[k - 1] {
      i := Onset(holds, k - 1);
    } else {
      i := k - 1;
    }
  }

  /******* Where a request the controller holds comes from *******/

  /** The request is queued, or popped by a recall under way. */
  ghost predicate Holds(s: State, r: Request) {
    r in s.queue || (s.lock.Recalling? && s.lock.request == r)
  }

  ghost predicate HoldsSome(s: State) {
    s.queue != [] || s.lock.Recalling?
  }

  ghost predicate AcceptedAt(s: State, step: Step, r: Request) {
    step.Accept? && !Contains(s, step.call.id) && r == Request(step.call.id, s.next)
  }

  lemma HeldBefore(s: State, step: Step, r: Request)
    requires Tidy(s) && Enabled(s, step) && Holds(Next(s, step), r)
    ensures Holds(s, r) || AcceptedAt(s, step, r)
  {
    if step.Accept? {
      InsertedTickets(s.queue, Request(step.call.id, s.next), step.call.index);
    } else if step.CancelDone? {
      RemovedTickets(s.queue, s.lock.request);
    }
  }

  /** After shutdown has drained the queue, every request held was accepted later, by a call that overlapped it. */
  lemma {:induction false} HeldIsLate(states: seq<State>, steps: seq<Step>, k: nat, r: Request)
    requires Run(states, steps) && k <= |steps| && states[k].closing && Holds(states[k], r)
    ensures exists j :: 0 <= j < k && AcceptedAt(states[j], steps[j], r) && states[j].closing
  {
    if k > 0 {
      StepAt(states, steps, k - 1);
      HeldBefore(states[k - 1], steps[k - 1], r);
      if Holds(states[k - 1], r) {
        HeldIsLate(states, steps, k - 1, r);
      }
    }
  }

  /** The worker never dies of a failed cancellation. */
  ghost predicate NoDeath(steps: seq<Step>) {
    forall i | 0 <= i < |steps| :: steps[i] != Settle(true)
  }

  ghost predicate Alive(s: State) {
    s.worker.Clearing? ==> !s.worker.dies
  }

  lemma StepKeepsAlive(s: State, step: Step)
    requires Alive(s) && Enabled(s, step) && step != Settle(true)
    ensures Alive(Next(s, step))
  {
  }

  lemma {:induction false} AlwaysAlive(states: seq<State>, steps: seq<Step>, k: nat)
    requires Run(states, steps) && NoDeath(steps) && k <= |steps|
    ensures Alive(states[k])
  {
    if k > 0 {
      AlwaysAlive(states, steps, k - 1);
      StepKeepsAlive(states[k - 1], steps[k - 1]);
    }
  }

  lemma ExitsEmpty(s: State, step: Step)
    requires Alive(s) && Enabled(s, step) && Next(s, step).worker.Exited? && !s.worker.Exited?
    ensures !HoldsSome(Next(s, step))
  {
  }

  lemma HeldAt(states: seq<State>, steps: seq<Step>, k: nat, r: Request)
    requires Run(states, steps) && NoDeath(steps) && k < |steps| && Holds(states[k + 1], r)
    requires states[k + 1].worker.Exited?
    ensures states[k].worker.Exited? && (Holds(states[k], r) || AcceptedAt(states[k], steps[k], r))
  {
    StepAt(states, steps, k);
    AlwaysAlive(states, steps, k);
    HeldBefore(states[k], steps[k], r);
    if !states[k].worker.Exited? {
      ExitsEmpty(states[k], steps[k]);
    }
  }

  /** A worker that leaves its loop leaves an empty queue, so that what is held afterwards was accepted afterwards. */
  lemma {:induction false} HeldIsAfterExit(states: seq<State>, steps: seq<Step>, k: nat, r: Request)
    requires Run(states, steps) && NoDeath(steps) && k <= |steps| && states[k].worker.Exited? && Holds(states[k], r)
    ensures exists j :: 0 <= j < k && AcceptedAt(states[j], steps[j], r) && states[j].worker.Exited?
  {
    if k > 0 {
      HeldAt(states, steps, k - 1, r);
      if Holds(states[k - 1], r) && states[k - 1].worker.Exited? {
        HeldIsAfterExit(states, steps, k - 1, r);
      }
    }
  }

  /******* Idle over work *******/

  ghost predicate IdleOverWork(s: State) {
    s.idle && !Inactive(s)
  }

  ghost predicate Gone(s: State) {
    s.closed ==> s.closing && (s.worker.Exited? || s.worker.Unstarted?)
  }

  ghost predicate NotStarted(s: State) {
    s.worker.Unstarted? ==> s.entering == multiset{} && !HoldsSome(s)
  }

  lemma StepKeepsGone(s: State, step: Step)
    requires Gone(s) && NotStarted(s) && Tidy(s) && Enabled(s, step)
    ensures Gone(Next(s, step)) && NotStarted(Next(s, step))
  {
  }

  lemma {:induction false} GoneAt(states: seq<State>, steps: seq<Step>, k: nat)
    requires Run(states, steps) && k <= |steps|
    ensures Gone(states[k]) && NotStarted(states[k])
  {
    if k > 0 {
      StepAt(states, steps, k - 1);
      GoneAt(states, steps, k - 1);
      StepKeepsGone(states[k - 1], steps[k - 1]);
    }
  }

  /** The flag becomes wrong exactly when shutdown sets it while something is held. */
  lemma WrongFromIff(s: State, step: Step)
    requires Tidy(s) && IdleUntilClosed(s) && Gone(s) && Enabled(s, step) && !IdleOverWork(s)
    ensures IdleOverWork(Next(s, step)) <==> step.Close? && HoldsSome(s)
  {
  }

  /** A call of `enqueue_item` whose id is new brings in a request and clears the flag. */
  ghost predicate AcceptsNew(s: State, step: Step) {
    step.Accept? && !Contains(s, step.call.id)
  }

  /** A wrong flag stays wrong until nothing is held any more, or a new request clears it. */
  lemma StaysWrongIff(s: State, step: Step)
    requires Tidy(s) && IdleUntilClosed(s) && Gone(s) && Enabled(s, step) && IdleOverWork(s)
    ensures IdleOverWork(Next(s, step)) <==> HoldsSome(Next(s, step)) && !AcceptsNew(s, step)
  {
  }

  /** Shutdown sets the flag at step i, something is held all the time until k, and nothing new is accepted. */
  ghost predicate SetOverWork(states: seq<State>, steps: seq<Step>, i: nat, k: nat)
    requires |states| == |steps| + 1 && k <= |steps|
  {
    && i < k && steps[i].Close?
    && (forall j | i <= j <= k :: HoldsSome(states[j]))
    && forall j | i < j < k :: !AcceptsNew(states[j], steps[j])
  }

  /** The two cases of a step, within a run. */
  lemma WrongAt(states: seq<State>, steps: seq<Step>, k: nat)
    requires Run(states, steps) && k < |steps|
    ensures IdleOverWork(states[k]) ==>
      (IdleOverWork(states[k + 1]) <==> HoldsSome(states[k + 1]) && !AcceptsNew(states[k], steps[k]))
    ensures !IdleOverWork(states[k]) ==> (IdleOverWork(states[k + 1]) <==> steps[k].Close? && HoldsSome(states[k]))
    ensures steps[k].Close? ==> (HoldsSome(states[k + 1]) <==> HoldsSome(states[k]))
    ensures steps[k].Close? && HoldsSome(states[k]) ==> IdleOverWork(states[k + 1])
    ensures IdleOverWork(states[k + 1]) ==> HoldsSome(states[k + 1])
  {
    StepAt(states, steps, k);
    GoneAt(states, steps, k);
    var s, step := states[k], steps[k];
    StepKeepsGone(s, step);
    if IdleOverWork(s) {
      StaysWrongIff(s, step);
    } else {
      WrongFromIff(s, step);
    }
  }

  lemma {:induction false} WrongIsSet(states: seq<State>, steps: seq<Step>, k: nat) returns (i: nat)
    requires Run(states, steps) && k <= |steps| && IdleOverWork(states[k])
    ensures SetOverWork(states, steps, i, k)
  {
    assert k > 0;
    WrongAt(states, steps, k - 1);
    if IdleOverWork(states[k - 1]) {
      i := WrongIsSet(states, steps, k - 1);
    } else {
      i := k - 1;
    }
  }

  lemma SetStaysWrong(states: seq<State>, steps: seq<Step>, i: nat, k: nat)
    requires Run(states, steps) && k <= |steps| && SetOverWork(states, steps, i, k)
    ensures IdleOverWork(states[k])
  {
    var wrong := seq(k + 1, (j: nat) requires j <= k => IdleOverWork(states[j]));
    assert wrong[i + 1] by {
      assert HoldsSome(states[i]);
      WrongAt(states, steps, i);
    }
    forall j | i < j < k ensures wrong[j] ==> wrong[j + 1] {
      assert HoldsSome(states[j + 1]);
      WrongAt(states, steps, j);
    }
    Persists(wrong, i + 1, k);
  }

  /** The flag is set over work if and only if shutdown set it while something was held, something has been held ever
      since, and no new request has been accepted. */
  lemma IdleOverWorkIff(states: seq<State>, steps: seq<Step>, k: nat)
    requires Run(states, steps) && k <= |steps|
    ensures IdleOverWork(states[k]) <==> exists i: nat :: SetOverWork(states, steps, i, k)
  {
    if IdleOverWork(states[k]) {
      var i := WrongIsSet(states, steps, k);
    }
    if i: nat :| SetOverWork(states, steps, i, k) {
      SetStaysWrong(states, steps, i, k);
    }
  }

  /** A request accepted after shutdown had taken the lock, still held when shutdown set the flag. */
  ghost predicate Overlooked(states: seq<State>, steps: seq<Step>, i: nat, j: nat, r: Request)
    requires |states| == |steps| + 1
  {
    j < i < |steps| && AcceptedAt(states[j], steps[j], r) && states[j].closing && steps[i].Close? && Holds(states[i], r)
  }

  /** What shutdown sets the flag over came in by a call that overlapped it; if the worker did not die of a failed
      cancellation, after the worker had left. */
  lemma HeldIsOverlooked(states: seq<State>, steps: seq<Step>, i: nat, r: Request)
    requires Run(states, steps) && i < |steps| && steps[i].Close? && Holds(states[i], r)
    ensures exists j: nat :: Overlooked(states, steps, i, j, r) && (NoDeath(steps) ==> states[j].worker.Exited?)
  {
    StepAt(states, steps, i);
    HeldIsLate(states, steps, i, r);
    var j :| 0 <= j < i && AcceptedAt(states[j], steps[j], r) && states[j].closing;
    if NoDeath(steps) {
      GoneAt(states, steps, i);
      HeldIsAfterExit(states, steps, i, r);
      var l :| 0 <= l < i && AcceptedAt(states[l], steps[l], r) && states[l].worker.Exited?;
      SameTicket(states, steps, j, l, r);
    }
    assert Overlooked(states, steps, i, j, r);
  }

  lemma TicketAt(states: seq<State>, steps: seq<Step>, k: nat)
    requires Run(states, steps) && k < |steps|
    ensures states[k].next <= states[k + 1].next
  {
    NextTicket(states[k], steps[k]);
  }

  lemma {:induction false} Ascending(states: seq<State>, j: nat, k: nat)
    requires j <= k < |states| && forall m | j <= m < k :: states[m].next <= states[m + 1].next
    ensures states[j].next <= states[k].next
    decreases k
  {
    if j < k {
      Ascending(states, j, k - 1);
    }
  }

  lemma TicketsGrow(states: seq<State>, steps: seq<Step>, j: nat, k: nat)
    requires Run(states, steps) && j <= k <= |steps|
    ensures states[j].next <= states[k].next
  {
    forall m | j <= m < k ensures states[m].next <= states[m + 1].next {
      TicketAt(states, steps, m);
    }
    Ascending(states, j, k);
  }

  /** A ticket is given once. */
  lemma SameTicket(states: seq<State>, steps: seq<Step>, j: nat, l: nat, r: Request)
    requires Run(states, steps) && j < |steps| && l < |steps|
    requires AcceptedAt(states[j], steps[j], r) && AcceptedAt(states[l], steps[l], r)
    ensures j == l
  {
    StepAt(states, steps, j);
    StepAt(states, steps, l);
    if j < l {
      TicketsGrow(states, steps, j + 1, l);
    } else if l < j {
      TicketsGrow(states, steps, l + 1, j);
    }
  }

  /******* Busy at rest *******/

  /** Shutdown has not come to its end. */
  ghost predicate NoClose(steps: seq<Step>) {
    forall i | 0 <= i < |steps| :: !steps[i].Close?
  }

  ghost predicate Resting(s: State) {
    s.queue == [] && !s.worker.Working? && !s.worker.Clearing?
  }

  /** Nothing is queued, running or being recalled, and the flag says busy. */
  ghost predicate BusyAtRest(s: State) {
    Resting(s) && !s.lock.Recalling? && !s.idle
  }

  /** With the worker at rest, a recall of the only request succeeds, or shutdown drains the queue. */
  ghost predicate Strands(s: State, step: Step) {
    && !s.worker.Working? && !s.worker.Clearing?
    && ((step == RecallDone(true) && s.queue == []) || (step.Shutdown? && s.queue != []))
  }

  /** The controller becomes busy at rest exactly when a recall or shutdown takes the last request from under a
      resting worker. */
  lemma StrandsIff(s: State, step: Step)
    requires Tidy(s) && IdleUntilClosed(s) && !s.closed
    requires Enabled(s, step) && !step.Close? && !BusyAtRest(s)
    ensures BusyAtRest(Next(s, step)) <==> Strands(s, step)
  {
  }

  lemma StaysOpen(s: State, step: Step)
    requires !s.closed && Enabled(s, step) && !step.Close?
    ensures !Next(s, step).closed
  {
  }

  /** Nothing but work ends being busy. */
  lemma StaysBusy(s: State, step: Step)
    requires Tidy(s) && !s.closed && BusyAtRest(s) && Enabled(s, step) && !step.Close? && Resting(Next(s, step))
    ensures BusyAtRest(Next(s, step))
  {
  }

  lemma StrandsAtOnce(s: State, step: Step)
    requires Tidy(s) && IdleUntilClosed(s) && !s.closed && Enabled(s, step) && Strands(s, step)
    ensures BusyAtRest(Next(s, step))
  {
  }

  lemma {:induction false} NeverClosed(states: seq<State>, steps: seq<Step>, k: nat)
    requires Run(states, steps) && NoClose(steps) && k <= |steps|
    ensures !states[k].closed
  {
    if k > 0 {
      StepAt(states, steps, k - 1);
      NeverClosed(states, steps, k - 1);
      StaysOpen(states[k - 1], steps[k - 1]);
    }
  }

  /** Until shutdown has come to its end, the controller is busy at rest if and only if such a step has happened and
      it has been at rest ever since. */
  lemma {:induction false} BusyAtRestIff(states: seq<State>, steps: seq<Step>, k: nat)
    requires Run(states, steps) && NoClose(steps) && k <= |steps|
    ensures BusyAtRest(states[k]) <==>
      exists i :: 0 <= i < k && Strands(states[i], steps[i]) && forall j | i < j <= k :: Resting(states[j])
  {
    if BusyAtRest(states[k]) {
      var i := StrandedSince(states, steps, k);
    }
    if i :| 0 <= i < k && Strands(states[i], steps[i]) && forall j | i < j <= k :: Resting(states[j]) {
      StaysStranded(states, steps, i, k);
    }
  }

  lemma StrandedOneStep(states: seq<State>, steps: seq<Step>, k: nat)
    requires Run(states, steps) && NoClose(steps) && k < |steps|
    ensures BusyAtRest(states[k + 1]) ==> BusyAtRest(states[k]) || Strands(states[k], steps[k])
    ensures BusyAtRest(states[k]) && Resting(states[k + 1]) ==> BusyAtRest(states[k + 1])
    ensures Strands(states[k], steps[k]) ==> BusyAtRest(states[k + 1])
  {
    StepAt(states, steps, k);
    NeverClosed(states, steps, k);
    var s, step := states[k], steps[k];
    if BusyAtRest(s) {
      if Resting(Next(s, step)) {
        StaysBusy(s, step);
      }
    } else {
      StrandsIff(s, step);
    }
    if Strands(s, step) {
      StrandsAtOnce(s, step);
    }
  }

  lemma StrandedSince(states: seq<State>, steps: seq<Step>, k: nat) returns (i: nat)
    requires Run(states, steps) && NoClose(steps) && k <= |steps| && BusyAtRest(states[k])
    ensures i < k && Strands(states[i], steps[i]) && forall j | i < j <= k :: Resting(states[j])
  {
    var stranded := seq(k + 1, (j: nat) requires j <= k => BusyAtRest(states[j]));
    assert !stranded[0] && stranded[k];
    i := Onset(stranded, k);
    assert !stranded[i] && stranded[i + 1];
    StrandedOneStep(states, steps, i);
    forall j | i < j <= k ensures Resting(states[j]) {
      assert stranded[j];
    }
  }

  lemma StaysStranded(states: seq<State>, steps: seq<Step>, i: nat, k: nat)
    requires Run(states, steps) && NoClose(steps) && i < k <= |steps| && Strands(states[i], steps[i])
    requires forall j | i < j <= k :: Resting(states[j])
    ensures BusyAtRest(states[k])
  {
    var stranded := seq(k + 1, (j: nat) requires j <= k => BusyAtRest(states[j]));
    StrandedOneStep(states, steps, i);
    forall j | i < j < k ensures stranded[j] ==> stranded[j + 1] {
      assert Resting(states[j + 1]);
      StrandedOneStep(states, steps, j);
    }
    Persists(stranded, i + 1, k);
  }
}
