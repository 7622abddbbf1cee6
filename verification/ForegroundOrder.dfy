/** Where an accepted request is put, and that the line is served in its order. */
module ForegroundOrder {
  import opened Foreground
  import opened Options

  /******* Where an accepted request goes *******/

  /** A request whose id is neither active nor queued is put at its index, clamped to the queue, or at the end; what
      was queued stays in order around it. A request with a known id changes nothing. */
  lemma AcceptPlaces(s: State, call: Call)
    ensures
      var t := Accepted(s, call);
      var at := if call.index.None? || call.index.value > |s.queue| then |s.queue|
        else if call.index.value < 0 then 0 else call.index.value;
      if s.active == Some(call.id) || exists r :: r in s.queue && r.id == call.id then
        t == s.(entering := s.entering - multiset{call})
      else
        && |t.queue| == |s.queue| + 1 && t.queue[at] == Request(call.id, s.next)
        && (forall k | 0 <= k < at :: t.queue[k] == s.queue[k])
        && (forall k | at <= k < |s.queue| :: t.queue[k + 1] == s.queue[k])
        && !t.idle && t.next == s.next + 1
  {
    if !Contains(s, call.id) {
      InsertedAt(s.queue, Request(call.id, s.next), call.index);
    }
  }

  lemma InsertedAt(queue: seq<Request>, r: Request, index: Option<int>)
    ensures
      var longer := Inserted(queue, r, index);
      var at := if index.None? || index.value > |queue| then |queue| else if index.value < 0 then 0 else index.value;
      && |longer| == |queue| + 1 && longer[at] == r
      && (forall k | 0 <= k < at :: longer[k] == queue[k])
      && (forall k | at <= k < |queue| :: longer[k + 1] == queue[k])
  {
  }

  /** A recalled request that is put back at its index stands where it stood, before whatever was queued after it. */
  lemma RecalledComesBack(s: State, later: seq<Request>, call: Call, t: State)
    requires s.queue != [] && t.queue == Popped(s).queue + later && call.index == Some(|s.queue| - 1)
    requires t.active != Some(call.id) && forall r | r in t.queue :: r.id != call.id
    ensures Accepted(t, call).queue == s.queue[|s.queue| - 1 := Request(call.id, t.next)] + later
  {
    AcceptPlaces(t, call);
  }

  /******* The line *******/

  /** The queue, and after it the request that a recall has popped and may give back. */
  function Line(s: State): seq<Request> {
    s.queue + if s.lock.Recalling? then [s.lock.request] else []
  }

  ghost predicate Before(line: seq<Request>, a: Request, b: Request) {
    exists i, j :: 0 <= i < j < |line| && line[i] == a && line[j] == b
  }

  ghost predicate Ahead(s: State, a: Request, b: Request) {
    Before(Line(s), a, b)
  }

  /** The request has left the line without being started. */
  ghost predicate Withdrawn(s: State, r: Request) {
    r.ticket in s.recalled || r.ticket in s.cancelled || r.ticket in s.drained
  }

  ghost predicate StartedAt(s: State, r: Request, n: nat) {
    n < |s.log| && s.log[n] == Started(r)
  }

  /** `a` was started, and `b` not before it. */
  ghost predicate StartedFirst(s: State, a: Request, b: Request) {
    exists m: nat :: StartedAt(s, a, m) && forall n: nat | StartedAt(s, b, n) :: m < n
  }

  ghost predicate NotStarted(s: State, r: Request) {
    forall n: nat :: !StartedAt(s, r, n)
  }

  /** What can have become of two requests of which `a` was ahead of `b`. */
  ghost predicate Served(s: State, a: Request, b: Request) {
    || (Ahead(s, a, b) && NotStarted(s, b))
    || Withdrawn(s, a)
    || Withdrawn(s, b)
    || StartedFirst(s, a, b)
  }

  lemma InsertedBefore(queue: seq<Request>, r: Request, index: Option<int>, a: Request, b: Request)
    requires Before(queue, a, b)
    ensures Before(Inserted(queue, r, index), a, b)
  {
    InsertedAt(queue, r, index);
    var longer := Inserted(queue, r, index);
    var at := if index.None? || index.value > |queue| then |queue| else if index.value < 0 then 0 else index.value;
    var i, j :| 0 <= i < j < |queue| && queue[i] == a && queue[j] == b;
    var i', j' := if i < at then i else i + 1, if j < at then j else j + 1;
    assert longer[i'] == a && longer[j'] == b;
  }

  lemma RemovedBefore(queue: seq<Request>, r: Request, a: Request, b: Request)
    requires r in queue && Before(queue, a, b) && r != a && r != b
    ensures Before(Removed(queue, r), a, b)
  {
    var x := RemovedAt(queue, r);
    var i, j :| 0 <= i < j < |queue| && queue[i] == a && queue[j] == b;
    var i', j' := if i < x then i else i - 1, if j < x then j else j - 1;
    var shorter := queue[..x] + queue[x + 1..];
    assert shorter[i'] == a && shorter[j'] == b;
  }

  /** Without its last request the line keeps its order. */
  lemma LastGone(queue: seq<Request>, r: Request, a: Request, b: Request)
    requires Before(queue + [r], a, b) && b != r
    ensures Before(queue, a, b)
  {
    var line := queue + [r];
    var i, j :| 0 <= i < j < |line| && line[i] == a && line[j] == b;
    assert queue[i] == a && queue[j] == b;
  }

  lemma RecallKeepsAhead(s: State, step: Step, a: Request, b: Request)
    requires Enabled(s, step) && (step.Recall? || step.RecallDone?) && Ahead(s, a, b)
    ensures Ahead(Next(s, step), a, b) || Withdrawn(Next(s, step), b)
  {
    var t := Next(s, step);
    if step == RecallDone(true) {
      assert Line(s) == s.queue + [s.lock.request] && Line(t) == s.queue;
      if b == s.lock.request {
        assert t.recalled[|s.recalled|] == b.ticket;
      } else {
        LastGone(s.queue, s.lock.request, a, b);
      }
    } else {
      assert Line(t) == Line(s);
    }
  }

  /** The head of the queue is started: it is `a`, or both move up. */
  lemma TakeServes(s: State, a: Request, b: Request)
    requires Tidy(s) && s.worker.Waiting? && s.lock.Free? && s.queue != [] && Ahead(s, a, b) && NotStarted(s, b)
    ensures Served(Taken(s), a, b)
  {
    var t := Taken(s);
    var i, j :| 0 <= i < j < |Line(s)| && Line(s)[i] == a && Line(s)[j] == b;
    assert s.queue[0].id != s.queue[j].id;
    forall n: nat ensures !StartedAt(t, b, n) {
      assert !StartedAt(s, b, n);
    }
    if i == 0 {
      assert StartedAt(t, a, |s.log|);
    } else {
      assert Line(t)[i - 1] == a && Line(t)[j - 1] == b;
    }
  }

  lemma DrainedAll(s: State, r: Request)
    requires r in s.queue
    ensures Withdrawn(ShutDown(s), r)
  {
    var k :| 0 <= k < |s.queue| && s.queue[k] == r;
    assert TicketsOf(s.queue)[k] == r.ticket;
    assert ShutDown(s).drained[|s.drained| + k] == r.ticket;
  }

  /** Nothing else starts a request or changes the line. */
  lemma OthersServe(s: State, step: Step, a: Request, b: Request)
    requires Enabled(s, step) && Ahead(s, a, b) && NotStarted(s, b)
    requires step.Arrive? || step.Cancel? || step.Close? || step.Settle? || step.Clear? || step.Leave?
    ensures Ahead(Next(s, step), a, b) && NotStarted(Next(s, step), b)
  {
    var t := Next(s, step);
    assert Line(t) == Line(s);
    forall n: nat ensures !StartedAt(t, b, n) {
      assert !StartedAt(s, b, n);
    }
  }

  lemma SameLog(s: State, t: State, b: Request)
    requires t.log == s.log && NotStarted(s, b)
    ensures NotStarted(t, b)
  {
    forall n: nat ensures !StartedAt(t, b, n) {
      assert !StartedAt(s, b, n);
    }
  }

  lemma LineServes(s: State, step: Step, a: Request, b: Request)
    requires Tidy(s) && Enabled(s, step) && Ahead(s, a, b) && NotStarted(s, b)
    ensures Served(Next(s, step), a, b)
  {
    var t := Next(s, step);
    match step
    case Accept(call) =>
      assert Line(s) == s.queue && Line(t) == t.queue;
      if !Contains(s, call.id) {
        InsertedBefore(s.queue, Request(call.id, s.next), call.index, a, b);
      }
      SameLog(s, t, b);
    case Recall =>
      RecallKeepsAhead(s, step, a, b);
      SameLog(s, t, b);
    case RecallDone(_) =>
      RecallKeepsAhead(s, step, a, b);
      SameLog(s, t, b);
    case CancelDone(ok) =>
      SameLog(s, t, b);
      if ok && s.lock.request != a && s.lock.request != b {
        assert Line(s) == s.queue && Line(t) == t.queue;
        RemovedBefore(s.queue, s.lock.request, a, b);
      } else if ok {
        assert t.cancelled[|s.cancelled|] == s.lock.request.ticket;
      } else {
        assert Line(t) == Line(s);
      }
    case Shutdown =>
      var i, j :| 0 <= i < j < |Line(s)| && Line(s)[i] == a && Line(s)[j] == b;
      DrainedAll(s, a);
    case Take => TakeServes(s, a, b);
    case Arrive(_) => OthersServe(s, step, a, b);
    case Cancel(_) => OthersServe(s, step, a, b);
    case Close => OthersServe(s, step, a, b);
    case Settle(_) => OthersServe(s, step, a, b);
    case Clear => OthersServe(s, step, a, b);
    case Leave => OthersServe(s, step, a, b);
  }

  /** The lists of what has happened only grow. */
  lemma HistoryGrows(s: State, step: Step)
    requires Enabled(s, step)
    ensures var t := Next(s, step);
      s.log <= t.log && s.recalled <= t.recalled && s.cancelled <= t.cancelled && s.drained <= t.drained
  {
  }

  lemma StepServes(s: State, step: Step, a: Request, b: Request)
    requires Tidy(s) && Enabled(s, step) && Served(s, a, b)
    ensures Served(Next(s, step), a, b)
  {
    var t := Next(s, step);
    HistoryGrows(s, step);
    if Withdrawn(s, a) || Withdrawn(s, b) {
      assert Withdrawn(t, a) || Withdrawn(t, b);
    } else if StartedFirst(s, a, b) {
      var m: nat :| StartedAt(s, a, m) && forall n: nat | StartedAt(s, b, n) :: m < n;
      assert StartedAt(t, a, m);
      forall n: nat | StartedAt(t, b, n) ensures m < n {
        if n < |s.log| {
          assert StartedAt(s, b, n);
        }
      }
    } else {
      LineServes(s, step, a, b);
    }
  }

  lemma InvariantsAt(states: seq<State>, steps: seq<Step>, k: nat, ticket: nat)
    requires Run(states, steps) && k <= |steps|
    ensures Tidy(states[k]) && Paired(states[k]) && Places(states[k], ticket) <= 1
  {
    assert Run(states[..k + 1], steps[..k]);
    AlwaysTidy(states[..k + 1], steps[..k]);
    StartedAreFinished(states[..k + 1], steps[..k]);
    Conservation(states[..k + 1], steps[..k], ticket);
  }

  lemma {:induction false} ServedLater(states: seq<State>, steps: seq<Step>, i: nat, k: nat, a: Request, b: Request)
    requires Run(states, steps) && i <= k <= |steps| && Served(states[i], a, b)
    ensures Served(states[k], a, b)
    decreases k
  {
    if i < k {
      ServedLater(states, steps, i, k - 1, a, b);
      InvariantsAt(states, steps, k - 1, a.ticket);
      StepServes(states[k - 1], steps[k - 1], a, b);
    }
  }

  lemma InTimes(tickets: seq<nat>, ticket: nat)
    requires ticket in tickets
    ensures Times(tickets, ticket) >= 1
  {
  }

  lemma QueuedTimes(queue: seq<Request>, r: Request)
    requires r in queue
    ensures Times(TicketsOf(queue), r.ticket) >= 1
  {
    var k :| 0 <= k < |queue| && queue[k] == r;
    assert TicketsOf(queue)[k] == r.ticket;
  }

  lemma HandTimes(s: State, ticket: nat)
    ensures Times(InHand(s), ticket) ==
      (if s.worker.Working? && s.worker.request.ticket == ticket then 1 else 0)
      + if s.lock.Recalling? && s.lock.request.ticket == ticket then 1 else 0
  {
  }

  /** A started request is neither in the line nor withdrawn. */
  lemma StartedIsGone(s: State, r: Request, n: nat)
    requires Paired(s) && Places(s, r.ticket) <= 1 && StartedAt(s, r, n)
    ensures !Withdrawn(s, r) && r !in Line(s)
  {
    FinishFollows(s, n);
    HandTimes(s, r.ticket);
    if n + 1 < |s.log| {
      FinishedIn(s.log, n + 1);
    }
    if r in s.queue {
      QueuedTimes(s.queue, r);
    }
    if r.ticket in s.recalled {
      InTimes(s.recalled, r.ticket);
    } else if r.ticket in s.cancelled {
      InTimes(s.cancelled, r.ticket);
    } else if r.ticket in s.drained {
      InTimes(s.drained, r.ticket);
    }
  }

  /** The line is served in its order: of two requests in it, the later one is only started after the earlier one
      was started, recalled, cancelled or drained by shutdown. */
  lemma ServedInOrder(states: seq<State>, steps: seq<Step>, i: nat, k: nat, a: Request, b: Request, n: nat)
    requires Run(states, steps) && i <= k <= |steps| && Ahead(states[i], a, b) && StartedAt(states[k], b, n)
    ensures Withdrawn(states[k], a) || exists m: nat :: m < n && StartedAt(states[k], a, m)
  {
    InvariantsAt(states, steps, i, b.ticket);
    InvariantsAt(states, steps, k, b.ticket);
    var x, y :| 0 <= x < y < |Line(states[i])| && Line(states[i])[x] == a && Line(states[i])[y] == b;
    assert b in Line(states[i]);
    forall l: nat ensures !StartedAt(states[i], b, l) {
      if StartedAt(states[i], b, l) {
        StartedIsGone(states[i], b, l);
      }
    }
    ServedLater(states, steps, i, k, a, b);
    StartedIsGone(states[k], b, n);
  }

  /** A request accepted at an index is started before everything then queued from that index on, and after everything
      before it, unless what should come first is recalled, cancelled or drained. */
  lemma AcceptedInTurn(states: seq<State>, steps: seq<Step>, i: nat, k: nat, call: Call, q: nat, n: nat)
    requires Run(states, steps) && i < k <= |steps| && steps[i] == Accept(call) && q < |states[i].queue|
    requires states[i].active != Some(call.id) && forall r | r in states[i].queue :: r.id != call.id
    ensures
      var at := if call.index.None? || call.index.value > |states[i].queue| then |states[i].queue|
        else if call.index.value < 0 then 0 else call.index.value;
      var mine, other := Request(call.id, states[i].next), states[i].queue[q];
      && (at <= q && StartedAt(states[k], other, n) ==>
            Withdrawn(states[k], mine) || exists m: nat :: m < n && StartedAt(states[k], mine, m))
      && (q < at && StartedAt(states[k], mine, n) ==>
            Withdrawn(states[k], other) || exists m: nat :: m < n && StartedAt(states[k], other, m))
  {
    var s, t := states[i], states[i + 1];
    AcceptPlaces(s, call);
    var at := if call.index.None? || call.index.value > |s.queue| then |s.queue|
      else if call.index.value < 0 then 0 else call.index.value;
    var mine, other := Request(call.id, s.next), s.queue[q];
    assert t == Accepted(s, call);
    if at <= q {
      assert Line(t)[at] == mine && Line(t)[q + 1] == other;
      if StartedAt(states[k], other, n) {
        ServedInOrder(states, steps, i + 1, k, mine, other, n);
      }
    } else {
      assert Line(t)[q] == other && Line(t)[at] == mine;
      if StartedAt(states[k], mine, n) {
        ServedInOrder(states, steps, i + 1, k, other, mine, n);
      }
    }
  }
}
