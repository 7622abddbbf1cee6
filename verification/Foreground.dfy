/** The foreground run controller as a state machine over its lock and await points: a queue, one
    worker, recall, cancel and shutdown. */
module Foreground {
  import opened Options

  /** A queued request. The ticket numbers the accepted requests, since an id may come back later. */
  datatype Request = Request(id: string, ticket: nat)

  /** A call of `enqueue_item` that has passed the shutdown test and waits for the lock. */
  datatype Call = Call(id: string, index: Option<int>)

  /** Who holds the lock across an await: `recall_latest` or `cancel` while the session is asked. */
  datatype Lock = Free | Recalling(request: Request) | Cancelling(request: Request)

  /** Where the worker is. `Clearing` waits for the lock after FINISHED; a worker that `dies` leaves
      its loop with the error of a failed cancellation. */
  datatype Worker = Unstarted | Waiting | Working(request: Request) | Clearing(dies: bool) | Exited

  datatype Event = Started(request: Request) | Finished(request: Request)

  datatype State = State(
    queue: seq<Request>,
    active: Option<string>,
    idle: bool,
    closing: bool,
    closed: bool,
    lock: Lock,
    worker: Worker,
    entering: multiset<Call>,
    next: nat,
    log: seq<Event>,
    recalled: seq<nat>,
    cancelled: seq<nat>,
    drained: seq<nat>)

  const INITIAL := State([], None, true, false, false, Free, Unstarted, multiset{}, 0, [], [], [], [])

  datatype Step =
    | Arrive(call: Call)
    | Accept(call: Call)
    | Recall
    | RecallDone(ok: bool)
    | Cancel(request: Request)
    | CancelDone(ok: bool)
    | Shutdown
    | Close
    | Take
    | Settle(dies: bool)
    | Clear
    | Leave

  predicate Queued(queue: seq<Request>, id: string) {
    exists r | r in queue :: r.id == id
  }

  predicate Contains(s: State, id: string) {
    s.active == Some(id) || Queued(s.queue, id)
  }

  /** `list.insert`, or `append` without an index or past the end. */
  function Inserted(queue: seq<Request>, r: Request, index: Option<int>): seq<Request> {
    if index.None? || index.value >= |queue| then queue + [r]
    else
      var i := if index.value < 0 then 0 else index.value;
      queue[..i] + [r] + queue[i..]
  }

  /** `deque.remove`: the first occurrence goes. */
  function Removed(queue: seq<Request>, r: Request): seq<Request> {
    if queue == [] then []
    else if queue[0] == r then queue[1..]
    else [queue[0]] + Removed(queue[1..], r)
  }

  function TicketsOf(queue: seq<Request>): (t: seq<nat>)
    ensures |t| == |queue| && forall i | 0 <= i < |t| :: t[i] == queue[i].ticket
  {
    seq(|queue|, i requires 0 <= i < |queue| => queue[i].ticket)
  }

  predicate Enabled(s: State, step: Step) {
    match step
    case Arrive(_) => !s.closing
    case Accept(call) => call in s.entering && s.lock.Free?
    case Recall => s.lock.Free? && s.queue != []
    case RecallDone(_) => s.lock.Recalling?
    case Cancel(r) => s.lock.Free? && r in s.queue
    case CancelDone(_) => s.lock.Cancelling?
    case Shutdown => s.lock.Free?
    case Close => s.closing && (s.worker.Unstarted? || s.worker.Exited?)
    case Take => s.worker.Waiting? && s.lock.Free? && s.queue != []
    case Settle(_) => s.worker.Working?
    case Clear => s.worker.Clearing? && s.lock.Free?
    case Leave => s.worker.Waiting? && s.lock.Free? && s.queue == [] && s.closing
  }

  function Arrived(s: State, call: Call): State {
    s.(entering := s.entering + multiset{call}, worker := if s.worker.Unstarted? then Waiting else s.worker)
  }

  function Accepted(s: State, call: Call): State {
    var left := s.(entering := s.entering - multiset{call});
    if Contains(s, call.id) then left
    else left.(idle := false, queue := Inserted(s.queue, Request(call.id, s.next), call.index), next := s.next + 1)
  }

  function Popped(s: State): State
    requires s.queue != []
  {
    var last := |s.queue| - 1;
    s.(queue := s.queue[..last], lock := Recalling(s.queue[last]))
  }

  function RecallEnded(s: State, ok: bool): State
    requires s.lock.Recalling?
  {
    if ok then s.(lock := Free, recalled := s.recalled + [s.lock.request.ticket])
    else s.(lock := Free, queue := s.queue + [s.lock.request])
  }

  function CancelEnded(s: State, ok: bool): State
    requires s.lock.Cancelling?
  {
    if ok then
      var queue := Removed(s.queue, s.lock.request);
      s.(lock := Free, queue := queue, cancelled := s.cancelled + [s.lock.request.ticket],
         idle := s.idle || (queue == [] && s.active.None?))
    else s.(lock := Free)
  }

  function ShutDown(s: State): State {
    s.(closing := true, drained := s.drained + TicketsOf(s.queue), queue := [])
  }

  function Taken(s: State): State
    requires s.queue != []
  {
    var r := s.queue[0];
    s.(queue := s.queue[1..], active := Some(r.id), worker := Working(r), log := s.log + [Started(r)])
  }

  function Settled(s: State, dies: bool): State
    requires s.worker.Working?
  {
    s.(active := None, worker := Clearing(dies), log := s.log + [Finished(s.worker.request)])
  }

  function Cleared(s: State): State
    requires s.worker.Clearing?
  {
    s.(idle := s.idle || s.queue == [], worker := if s.worker.dies then Exited else Waiting)
  }

  function Next(s: State, step: Step): State
    requires Enabled(s, step)
  {
    match step
    case Arrive(call) => Arrived(s, call)
    case Accept(call) => Accepted(s, call)
    case Recall => Popped(s)
    case RecallDone(ok) => RecallEnded(s, ok)
    case Cancel(r) => s.(lock := Cancelling(r))
    case CancelDone(ok) => CancelEnded(s, ok)
    case Shutdown => ShutDown(s)
    case Close => s.(idle := true, closed := true)
    case Take => Taken(s)
    case Settle(dies) => Settled(s, dies)
    case Clear => Cleared(s)
    case Leave => s.(worker := Exited)
  }

  /******* Runs *******/

  ghost predicate Run(states: seq<State>, steps: seq<Step>) {
    && |states| == |steps| + 1
    && states[0] == INITIAL
    && forall i | 0 <= i < |steps| :: Enabled(states[i], steps[i]) && states[i + 1] == Next(states[i], steps[i])
  }

  lemma {:induction false} RunPrefix(states: seq<State>, steps: seq<Step>)
    requires Run(states, steps) && steps != []
    ensures Run(states[..|steps|], steps[..|steps| - 1])
    ensures var i := |steps| - 1; Enabled(states[i], steps[i]) && states[i + 1] == Next(states[i], steps[i])
  {
  }

  /******* Conservation *******/

  function FinishedTickets(log: seq<Event>): seq<nat> {
    if log == [] then []
    else
      var last := log[|log| - 1];
      FinishedTickets(log[..|log| - 1]) + if last.Finished? then [last.request.ticket] else []
  }

  /** The tickets that are neither queued nor done: with the worker, or popped by a recall under way. */
  function InHand(s: State): seq<nat> {
    (if s.worker.Working? then [s.worker.request.ticket] else [])
    + if s.lock.Recalling? then [s.lock.request.ticket] else []
  }

  ghost function Times(tickets: seq<nat>, ticket: nat): nat {
    multiset(tickets)[ticket]
  }

  /** In how many places a ticket is. */
  ghost function Places(s: State, ticket: nat): nat {
    Times(TicketsOf(s.queue), ticket) + Times(InHand(s), ticket) + Times(FinishedTickets(s.log), ticket)
    + Times(s.recalled, ticket) + Times(s.cancelled, ticket) + Times(s.drained, ticket)
  }

  ghost predicate DistinctIds(queue: seq<Request>) {
    forall i, j | 0 <= i < j < |queue| :: queue[i].id != queue[j].id
  }

  /** No id twice across the queue, the active slot and a recall under way; the worker's request is the
      active one. */
  ghost predicate Tidy(s: State) {
    && DistinctIds(s.queue)
    && (s.active == if s.worker.Working? then Some(s.worker.request.id) else None)
    && (s.active.Some? ==> !Queued(s.queue, s.active.value))
    && (s.lock.Recalling? ==> !Contains(s, s.lock.request.id))
    && (s.lock.Cancelling? ==> s.lock.request in s.queue)
  }

  function One(ticket: nat, other: nat): nat {
    if ticket == other then 1 else 0
  }

  lemma TicketsSplit(queue: seq<Request>, i: nat, r: Request)
    requires i <= |queue|
    ensures forall k ::
      Times(TicketsOf(queue[..i] + [r] + queue[i..]), k) == Times(TicketsOf(queue), k) + One(k, r.ticket)
  {
    assert TicketsOf(queue[..i] + [r] + queue[i..]) == TicketsOf(queue[..i]) + [r.ticket] + TicketsOf(queue[i..]);
    assert TicketsOf(queue) == TicketsOf(queue[..i]) + TicketsOf(queue[i..]);
  }

  lemma TimesAppend(tickets: seq<nat>, more: seq<nat>)
    ensures forall k :: Times(tickets + more, k) == Times(tickets, k) + Times(more, k)
  {
  }

  lemma InsertedTickets(queue: seq<Request>, r: Request, index: Option<int>)
    ensures forall k :: Times(TicketsOf(Inserted(queue, r, index)), k) == Times(TicketsOf(queue), k) + One(k, r.ticket)
    ensures forall x :: x in Inserted(queue, r, index) <==> x == r || x in queue
  {
    var i := if index.None? || index.value >= |queue| then |queue| else if index.value < 0 then 0 else index.value;
    assert Inserted(queue, r, index) == queue[..i] + [r] + queue[i..];
    assert queue == queue[..i] + queue[i..];
    TicketsSplit(queue, i, r);
  }

  lemma {:induction false} RemovedAt(queue: seq<Request>, r: Request) returns (i: nat)
    requires r in queue
    ensures i < |queue| && queue[i] == r && Removed(queue, r) == queue[..i] + queue[i + 1..]
  {
    if queue[0] == r {
      i := 0;
    } else {
      var rest := RemovedAt(queue[1..], r);
      i := rest + 1;
      assert queue[..i] == [queue[0]] + queue[1..][..rest];
      assert queue[i + 1..] == queue[1..][rest + 1..];
    }
  }

  lemma RemovedTickets(queue: seq<Request>, r: Request)
    requires r in queue
    ensures forall k :: Times(TicketsOf(queue), k) == Times(TicketsOf(Removed(queue, r)), k) + One(k, r.ticket)
    ensures forall x | x in Removed(queue, r) :: x in queue
  {
    var i := RemovedAt(queue, r);
    var left := Removed(queue, r);
    TicketsSplit(left, i, r);
    assert left[..i] + [r] + left[i..] == queue;
  }

  /** The queue loses its first, or its last, request. */
  lemma EndTickets(queue: seq<Request>)
    requires queue != []
    ensures forall k :: Times(TicketsOf(queue), k) == Times(TicketsOf(queue[1..]), k) + One(k, queue[0].ticket)
    ensures var last := |queue| - 1;
      forall k :: Times(TicketsOf(queue), k) == Times(TicketsOf(queue[..last]), k) + One(k, queue[last].ticket)
  {
    var last := |queue| - 1;
    TicketsSplit(queue[1..], 0, queue[0]);
    assert queue[1..][..0] + [queue[0]] + queue[1..][0..] == queue;
    TicketsSplit(queue[..last], last, queue[last]);
    assert queue[..last][..last] + [queue[last]] + queue[..last][last..] == queue;
  }

  lemma InsertedDistinct(queue: seq<Request>, r: Request, index: Option<int>)
    requires DistinctIds(queue) && !Queued(queue, r.id)
    ensures DistinctIds(Inserted(queue, r, index))
    ensures forall id :: Queued(Inserted(queue, r, index), id) <==> id == r.id || Queued(queue, id)
  {
    InsertedTickets(queue, r, index);
    var longer := Inserted(queue, r, index);
    forall id ensures Queued(longer, id) <==> id == r.id || Queued(queue, id) {
      assert r in longer;
      if x :| x in queue && x.id == id {
        assert x in longer;
      }
    }
    InsertedDistinctAt(queue, r, index);
  }

  lemma InsertedDistinctAt(queue: seq<Request>, r: Request, index: Option<int>)
    requires DistinctIds(queue) && !Queued(queue, r.id)
    ensures DistinctIds(Inserted(queue, r, index))
  {
  }

  lemma RemovedDistinct(queue: seq<Request>, r: Request)
    requires DistinctIds(queue) && r in queue
    ensures DistinctIds(Removed(queue, r))
    ensures forall id | Queued(Removed(queue, r), id) :: Queued(queue, id)
  {
    var i := RemovedAt(queue, r);
    RemovedTickets(queue, r);
  }

  lemma AcceptKeepsTidy(s: State, call: Call)
    requires Tidy(s) && s.lock.Free?
    ensures Tidy(Accepted(s, call))
  {
    if !Contains(s, call.id) {
      InsertedDistinct(s.queue, Request(call.id, s.next), call.index);
    }
  }

  lemma RecallKeepsTidy(s: State)
    requires Tidy(s) && s.lock.Free? && s.queue != []
    ensures Tidy(Popped(s))
  {
  }

  lemma RecallDoneKeepsTidy(s: State, ok: bool)
    requires Tidy(s) && s.lock.Recalling?
    ensures Tidy(RecallEnded(s, ok))
  {
  }

  lemma CancelDoneKeepsTidy(s: State, ok: bool)
    requires Tidy(s) && s.lock.Cancelling?
    ensures Tidy(CancelEnded(s, ok))
  {
    if ok {
      RemovedDistinct(s.queue, s.lock.request);
    }
  }

  lemma TakeKeepsTidy(s: State)
    requires Tidy(s) && s.worker.Waiting? && s.lock.Free? && s.queue != []
    ensures Tidy(Taken(s))
  {
  }

  lemma StepKeepsTidy(s: State, step: Step)
    requires Tidy(s) && Enabled(s, step)
    ensures Tidy(Next(s, step))
  {
    match step
    case Accept(call) => AcceptKeepsTidy(s, call);
    case Recall => RecallKeepsTidy(s);
    case RecallDone(ok) => RecallDoneKeepsTidy(s, ok);
    case CancelDone(ok) => CancelDoneKeepsTidy(s, ok);
    case Take => TakeKeepsTidy(s);
    case Arrive(_) => OthersKeepTidy(s, step);
    case Cancel(_) => OthersKeepTidy(s, step);
    case Shutdown => OthersKeepTidy(s, step);
    case Close => OthersKeepTidy(s, step);
    case Settle(_) => OthersKeepTidy(s, step);
    case Clear => OthersKeepTidy(s, step);
    case Leave => OthersKeepTidy(s, step);
  }

  lemma OthersKeepTidy(s: State, step: Step)
    requires Tidy(s) && Enabled(s, step)
    requires !step.Accept? && !step.Recall? && !step.RecallDone? && !step.CancelDone? && !step.Take?
    ensures Tidy(Next(s, step))
  {
  }

  lemma OneMoreEvent(log: seq<Event>, e: Event)
    ensures FinishedTickets(log + [e]) == FinishedTickets(log) + if e.Finished? then [e.request.ticket] else []
  {
  }

  /** A step moves a ticket from one place to another, or hands out the next one. */
  ghost predicate Conserves(s: State, t: State, k: nat) {
    Places(t, k) == Places(s, k) + if t.next == s.next then 0 else One(k, s.next)
  }

  lemma AcceptConserves(s: State, call: Call, k: nat)
    requires s.lock.Free?
    ensures Conserves(s, Accepted(s, call), k)
  {
    InsertedTickets(s.queue, Request(call.id, s.next), call.index);
  }

  lemma CancelDoneConserves(s: State, ok: bool, k: nat)
    requires s.lock.Cancelling? && s.lock.request in s.queue
    ensures Conserves(s, CancelEnded(s, ok), k)
  {
    RemovedTickets(s.queue, s.lock.request);
    TimesAppend(s.cancelled, [s.lock.request.ticket]);
  }

  lemma ShutdownConserves(s: State, k: nat)
    requires s.lock.Free?
    ensures Conserves(s, ShutDown(s), k)
  {
  }

  lemma RecallConserves(s: State, k: nat)
    requires s.lock.Free? && s.queue != []
    ensures Conserves(s, Popped(s), k)
  {
    EndTickets(s.queue);
    var t := Popped(s);
    assert InHand(t) == InHand(s) + [t.lock.request.ticket];
  }

  lemma RecallDoneConserves(s: State, ok: bool, k: nat)
    requires s.lock.Recalling?
    ensures Conserves(s, RecallEnded(s, ok), k)
  {
    var t := RecallEnded(s, ok);
    assert InHand(s) == InHand(t) + [s.lock.request.ticket];
    TimesAppend(InHand(t), [s.lock.request.ticket]);
    TimesAppend(s.recalled, [s.lock.request.ticket]);
    InsertedTickets(s.queue, s.lock.request, None);
  }

  lemma TakeConserves(s: State, k: nat)
    requires s.worker.Waiting? && s.lock.Free? && s.queue != []
    ensures Conserves(s, Taken(s), k)
  {
    EndTickets(s.queue);
    OneMoreEvent(s.log, Started(s.queue[0]));
    assert InHand(Taken(s)) == [s.queue[0].ticket] + InHand(s);
  }

  lemma SettleConserves(s: State, dies: bool, k: nat)
    requires s.worker.Working?
    ensures Conserves(s, Settled(s, dies), k)
  {
  }

  lemma OthersConserve(s: State, step: Step, k: nat)
    requires Enabled(s, step) && (step.Arrive? || step.Cancel? || step.Close? || step.Clear? || step.Leave?)
    ensures Conserves(s, Next(s, step), k)
  {
    assert InHand(Next(s, step)) == InHand(s);
  }

  lemma StepConserves(s: State, step: Step, k: nat)
    requires Tidy(s) && Enabled(s, step)
    ensures Conserves(s, Next(s, step), k)
  {
    match step
    case Accept(call) => AcceptConserves(s, call, k);
    case Recall => RecallConserves(s, k);
    case RecallDone(ok) => RecallDoneConserves(s, ok, k);
    case CancelDone(ok) => CancelDoneConserves(s, ok, k);
    case Shutdown => ShutdownConserves(s, k);
    case Take => TakeConserves(s, k);
    case Settle(dies) => SettleConserves(s, dies, k);
    case Arrive(_) => OthersConserve(s, step, k);
    case Cancel(_) => OthersConserve(s, step, k);
    case Close => OthersConserve(s, step, k);
    case Clear => OthersConserve(s, step, k);
    case Leave => OthersConserve(s, step, k);
  }

  lemma {:induction false} AlwaysTidy(states: seq<State>, steps: seq<Step>)
    requires Run(states, steps)
    ensures Tidy(states[|steps|])
  {
    if steps != [] {
      RunPrefix(states, steps);
      AlwaysTidy(states[..|steps|], steps[..|steps| - 1]);
      StepKeepsTidy(states[|steps| - 1], steps[|steps| - 1]);
    }
  }

  /** Every accepted request is in exactly one place: queued, in hand, finished, recalled, cancelled or
      drained by shutdown. */
  lemma {:induction false} Conservation(states: seq<State>, steps: seq<Step>, ticket: nat)
    requires Run(states, steps)
    ensures var s := states[|steps|]; Places(s, ticket) == if ticket < s.next then 1 else 0
  {
    if steps != [] {
      RunPrefix(states, steps);
      var s, step := states[|steps| - 1], steps[|steps| - 1];
      Conservation(states[..|steps|], steps[..|steps| - 1], ticket);
      AlwaysTidy(states[..|steps|], steps[..|steps| - 1]);
      StepConserves(s, step, ticket);
      NextTicket(s, step);
    }
  }

  lemma NextTicket(s: State, step: Step)
    requires Enabled(s, step)
    ensures var t := Next(s, step); t.next == s.next || t.next == s.next + 1
  {
  }

  /******* STARTED and FINISHED *******/

  /** STARTED and FINISHED alternate, each pair for one request; a last STARTED without its FINISHED is
      the request the worker is on. */
  ghost predicate Paired(s: State) {
    && (forall i | 0 <= i < |s.log| :: s.log[i].Started? <==> i % 2 == 0)
    && (forall i, j | 0 <= i < j < |s.log| && j == i + 1 && j % 2 == 1 :: s.log[j].request == s.log[i].request)
    && (|s.log| % 2 == 1 <==> s.worker.Working?)
    && (s.worker.Working? ==> s.log[|s.log| - 1].request == s.worker.request)
  }

  lemma TakeKeepsPaired(s: State)
    requires Paired(s) && s.worker.Waiting? && s.queue != []
    ensures Paired(Taken(s))
  {
  }

  lemma SettleKeepsPaired(s: State, dies: bool)
    requires Paired(s) && s.worker.Working?
    ensures Paired(Settled(s, dies))
  {
  }

  lemma StepKeepsPaired(s: State, step: Step)
    requires Paired(s) && Enabled(s, step)
    ensures Paired(Next(s, step))
  {
    if step.Take? {
      TakeKeepsPaired(s);
    } else if step.Settle? {
      SettleKeepsPaired(s, step.dies);
    } else {
      var t := Next(s, step);
      assert t.log == s.log && (t.worker.Working? <==> s.worker.Working?);
      assert s.worker.Working? ==> t.worker == s.worker;
    }
  }

  lemma {:induction false} StartedAreFinished(states: seq<State>, steps: seq<Step>)
    requires Run(states, steps)
    ensures Paired(states[|steps|])
  {
    if steps != [] {
      RunPrefix(states, steps);
      StartedAreFinished(states[..|steps|], steps[..|steps| - 1]);
      StepKeepsPaired(states[|steps| - 1], steps[|steps| - 1]);
    }
  }

  lemma {:induction false} FinishedIn(log: seq<Event>, i: nat)
    requires i < |log| && log[i].Finished?
    ensures Times(FinishedTickets(log), log[i].request.ticket) >= 1
  {
    var last := |log| - 1;
    OneMoreEvent(log[..last], log[last]);
    assert log == log[..last] + [log[last]];
    if i < last {
      FinishedIn(log[..last], i);
    }
  }

  lemma {:induction false} FinishedTwice(log: seq<Event>, i: nat, j: nat)
    requires i < j < |log| && log[i].Finished? && log[j].Finished? && log[i].request.ticket == log[j].request.ticket
    ensures Times(FinishedTickets(log), log[i].request.ticket) >= 2
  {
    var last := |log| - 1;
    OneMoreEvent(log[..last], log[last]);
    assert log == log[..last] + [log[last]];
    if j < last {
      FinishedTwice(log[..last], i, j);
    } else {
      FinishedIn(log[..last], i);
      TimesAppend(FinishedTickets(log[..last]), [log[last].request.ticket]);
    }
  }

  lemma FinishFollows(s: State, i: nat)
    requires Paired(s) && i < |s.log| && s.log[i].Started?
    ensures if i + 1 < |s.log| then s.log[i + 1] == Finished(s.log[i].request)
      else s.worker.Working? && s.worker.request == s.log[i].request
  {
  }

  lemma WorkingInHand(s: State)
    requires s.worker.Working?
    ensures Times(InHand(s), s.worker.request.ticket) >= 1
  {
    assert InHand(s)[0] == s.worker.request.ticket;
  }

  /** A finish of the request, and then another one or the worker being on it, make two places. */
  lemma TwoPlaces(s: State, i: nat, j: nat, r: Request)
    requires i < j <= |s.log| && s.log[i] == Finished(r)
    requires if j < |s.log| then s.log[j].Finished? && s.log[j].request.ticket == r.ticket
      else s.worker.Working? && s.worker.request.ticket == r.ticket
    ensures Places(s, r.ticket) >= 2
  {
    if j < |s.log| {
      FinishedTwice(s.log, i, j);
    } else {
      FinishedIn(s.log, i);
      WorkingInHand(s);
    }
  }

  /** No request is started twice. */
  lemma StartedOnce(states: seq<State>, steps: seq<Step>, i: nat, j: nat)
    requires Run(states, steps) && i < j < |states[|steps|].log|
    requires states[|steps|].log[i].Started? && states[|steps|].log[j].Started?
    ensures states[|steps|].log[i].request.ticket != states[|steps|].log[j].request.ticket
  {
    StartedAreFinished(states, steps);
    Conservation(states, steps, states[|steps|].log[i].request.ticket);
    var s := states[|steps|];
    FinishFollows(s, i);
    FinishFollows(s, j);
    if s.log[j].request.ticket == s.log[i].request.ticket {
      TwoPlaces(s, i + 1, j + 1, s.log[i].request);
    }
  }

  /******* Order *******/

  ghost predicate PlainRun(steps: seq<Step>) {
    forall i | 0 <= i < |steps| :: steps[i].Accept? ==> steps[i].call.index.None?
  }

  /** Everything started was accepted before everything queued, and the queue is in acceptance order. */
  ghost predicate InOrder(s: State) {
    && (forall i, j | 0 <= i < j < |s.queue| :: s.queue[i].ticket < s.queue[j].ticket)
    && (forall i | 0 <= i < |s.queue| :: s.queue[i].ticket < s.next)
    && (forall i | 0 <= i < |s.log| :: s.log[i].request.ticket < s.next)
    && (forall i, j | 0 <= i < |s.log| && 0 <= j < |s.queue| :: s.log[i].request.ticket < s.queue[j].ticket)
    && (s.lock.Recalling? ==>
          && s.lock.request.ticket < s.next
          && (forall i | 0 <= i < |s.queue| :: s.queue[i].ticket < s.lock.request.ticket)
          && (forall i | 0 <= i < |s.log| :: s.log[i].request.ticket < s.lock.request.ticket))
    && (forall i, j | 0 <= i < j < |s.log| && s.log[i].Started? && s.log[j].Started? ::
          s.log[i].request.ticket < s.log[j].request.ticket)
    && (s.worker.Working? ==> exists i :: 0 <= i < |s.log| && s.log[i].request == s.worker.request)
  }

  /** A request later than everything else goes to the end. */
  lemma LaterInOrder(s: State, t: State, r: Request)
    requires InOrder(s) && t.queue == s.queue + [r] && t.log == s.log && t.worker == s.worker && t.lock.Free?
    requires s.next <= t.next && r.ticket < t.next
    requires forall i | 0 <= i < |s.queue| :: s.queue[i].ticket < r.ticket
    requires forall i | 0 <= i < |s.log| :: s.log[i].request.ticket < r.ticket
    ensures InOrder(t)
  {
  }

  lemma AcceptKeepsOrder(s: State, id: string)
    requires InOrder(s) && s.lock.Free?
    ensures InOrder(Accepted(s, Call(id, None)))
  {
    if !Contains(s, id) {
      LaterInOrder(s, Accepted(s, Call(id, None)), Request(id, s.next));
    }
  }

  lemma RecallKeepsOrder(s: State)
    requires InOrder(s) && s.lock.Free? && s.queue != []
    ensures InOrder(Popped(s))
  {
  }

  lemma RecallDoneKeepsOrder(s: State, ok: bool)
    requires InOrder(s) && s.lock.Recalling?
    ensures InOrder(RecallEnded(s, ok))
  {
    if !ok {
      LaterInOrder(s, RecallEnded(s, ok), s.lock.request);
    }
  }

  /** Dropping requests from the queue keeps the order. */
  lemma FewerInOrder(s: State, t: State, i: nat)
    requires InOrder(s) && i < |s.queue| && t.queue == s.queue[..i] + s.queue[i + 1..]
    requires t.log == s.log && t.next == s.next && t.worker == s.worker && t.lock.Free?
    ensures InOrder(t)
  {
    assert forall k | 0 <= k < |t.queue| :: t.queue[k] == s.queue[if k < i then k else k + 1];
  }

  lemma CancelDoneKeepsOrder(s: State, ok: bool)
    requires InOrder(s) && s.lock.Cancelling? && s.lock.request in s.queue
    ensures InOrder(CancelEnded(s, ok))
  {
    if ok {
      var i := RemovedAt(s.queue, s.lock.request);
      FewerInOrder(s, CancelEnded(s, ok), i);
    }
  }

  lemma TakeKeepsOrder(s: State)
    requires InOrder(s) && s.worker.Waiting? && s.lock.Free? && s.queue != []
    ensures InOrder(Taken(s))
  {
    var t := Taken(s);
    assert t.log[|s.log|].request == t.worker.request;
  }

  lemma SettleKeepsOrder(s: State, dies: bool)
    requires InOrder(s) && s.worker.Working?
    ensures InOrder(Settled(s, dies))
  {
  }

  lemma OthersKeepOrder(s: State, step: Step)
    requires InOrder(s) && Enabled(s, step)
    requires step.Arrive? || step.Cancel? || step.Close? || step.Clear? || step.Leave? || step.Shutdown?
    ensures InOrder(Next(s, step))
  {
  }

  lemma StepKeepsOrder(s: State, step: Step)
    requires Tidy(s) && InOrder(s) && Enabled(s, step) && (step.Accept? ==> step.call.index.None?)
    ensures InOrder(Next(s, step))
  {
    match step
    case Accept(call) => AcceptKeepsOrder(s, call.id);
    case Recall => RecallKeepsOrder(s);
    case RecallDone(ok) => RecallDoneKeepsOrder(s, ok);
    case CancelDone(ok) => CancelDoneKeepsOrder(s, ok);
    case Take => TakeKeepsOrder(s);
    case Settle(dies) => SettleKeepsOrder(s, dies);
    case Shutdown => OthersKeepOrder(s, step);
    case Arrive(_) => OthersKeepOrder(s, step);
    case Cancel(_) => OthersKeepOrder(s, step);
    case Close => OthersKeepOrder(s, step);
    case Clear => OthersKeepOrder(s, step);
    case Leave => OthersKeepOrder(s, step);
  }

  /** Plain enqueues start in the order in which they were accepted. */
  lemma {:induction false} StartOrder(states: seq<State>, steps: seq<Step>)
    requires Run(states, steps) && PlainRun(steps)
    ensures InOrder(states[|steps|])
  {
    if steps != [] {
      RunPrefix(states, steps);
      var fewer := steps[..|steps| - 1];
      assert forall i | 0 <= i < |fewer| :: fewer[i] == steps[i];
      StartOrder(states[..|steps|], fewer);
      AlwaysTidy(states[..|steps|], fewer);
      StepKeepsOrder(states[|steps| - 1], steps[|steps| - 1]);
    }
  }

  /******* Idleness *******/

  ghost predicate Inactive(s: State) {
    s.queue == [] && s.active.None? && !s.worker.Working? && !s.lock.Recalling?
  }

  /** No call of `enqueue_item` is between its shutdown test and the lock when shutdown takes it. */
  ghost predicate NoOverlap(states: seq<State>, steps: seq<Step>)
    requires |states| == |steps| + 1
  {
    forall i | 0 <= i < |steps| :: steps[i].Shutdown? ==> states[i].entering == multiset{}
  }

  /** Before shutdown has returned, idle means that there is nothing to do, whatever overlaps. */
  ghost predicate IdleUntilClosed(s: State) {
    s.idle && !s.closed ==> Inactive(s)
  }

  ghost predicate Drained(s: State) {
    s.closing ==> s.queue == [] && s.entering == multiset{} && !s.lock.Recalling? && !s.lock.Cancelling?
  }

  ghost predicate Calm(s: State) {
    Drained(s) && (s.idle ==> Inactive(s))
  }

  lemma StepKeepsIdleUntilClosed(s: State, step: Step)
    requires Tidy(s) && IdleUntilClosed(s) && Enabled(s, step)
    ensures IdleUntilClosed(Next(s, step))
  {
  }

  lemma StepKeepsCalm(s: State, step: Step)
    requires Tidy(s) && Calm(s) && Enabled(s, step) && (step.Shutdown? ==> s.entering == multiset{})
    ensures Calm(Next(s, step))
  {
  }

  /** Idle means that the queue is empty and nothing is active: always before shutdown returns, and
      afterwards too unless an enqueue overlapped it. */
  lemma {:induction false} IdleMeansNothingToDo(states: seq<State>, steps: seq<Step>)
    requires Run(states, steps)
    ensures IdleUntilClosed(states[|steps|])
    ensures NoOverlap(states, steps) ==> Calm(states[|steps|])
  {
    if steps != [] {
      RunPrefix(states, steps);
      var earlier, fewer := states[..|steps|], steps[..|steps| - 1];
      assert forall i | 0 <= i < |fewer| :: fewer[i] == steps[i] && earlier[i] == states[i];
      IdleMeansNothingToDo(earlier, fewer);
      AlwaysTidy(earlier, fewer);
      var s, step := states[|steps| - 1], steps[|steps| - 1];
      StepKeepsIdleUntilClosed(s, step);
      if NoOverlap(states, steps) {
        assert NoOverlap(earlier, fewer);
        StepKeepsCalm(s, step);
      }
    }
  }

  /** Neither recall, which never sets idle, nor shutdown, which drains the queue before it does. */
  ghost predicate NoRecallNorShutdown(steps: seq<Step>) {
    forall i | 0 <= i < |steps| :: !steps[i].Recall? && !steps[i].Shutdown?
  }

  /** With the worker at rest and the queue empty, the controller is idle. */
  ghost predicate RestIsIdle(s: State) {
    s.queue == [] && !s.worker.Working? && !s.worker.Clearing? ==> s.idle
  }

  lemma {:induction false} NothingToDoMeansIdle(states: seq<State>, steps: seq<Step>)
    requires Run(states, steps) && NoRecallNorShutdown(steps)
    ensures RestIsIdle(states[|steps|]) && !states[|steps|].lock.Recalling? && !states[|steps|].closing
  {
    if steps != [] {
      RunPrefix(states, steps);
      var fewer := steps[..|steps| - 1];
      assert forall i | 0 <= i < |fewer| :: fewer[i] == steps[i];
      NothingToDoMeansIdle(states[..|steps|], fewer);
      AlwaysTidy(states[..|steps|], fewer);
      StepKeepsRest(states[|steps| - 1], steps[|steps| - 1]);
    }
  }

  lemma StepKeepsRest(s: State, step: Step)
    requires Tidy(s) && RestIsIdle(s) && !s.lock.Recalling? && !s.closing
    requires Enabled(s, step) && !step.Recall? && !step.Shutdown?
    ensures var t := Next(s, step); RestIsIdle(t) && !t.lock.Recalling? && !t.closing
  {
  }

  /******* Two runs that fall outside these conditions *******/

  lemma Extend(states: seq<State>, steps: seq<Step>, step: Step, t: State)
    requires Run(states, steps) && Enabled(states[|steps|], step) && t == Next(states[|steps|], step)
    ensures Run(states + [t], steps + [step])
  {
  }

  lemma OneRequest(s: State, call: Call)
    requires s.queue == [] && s.active.None? && s.next == 0 && s.entering == multiset{call} && call.index.None?
    ensures Accepted(s, call) == s.(entering := multiset{}, idle := false, queue := [Request(call.id, 0)], next := 1)
  {
  }

  /** While a recall holds the lock, an enqueue passes the shutdown test and waits; it is accepted after shutdown
      has taken the lock and the worker has left, and shutdown then reports idle over a request nobody will serve. */
  lemma OverlapLeavesIdleBusy() returns (states: seq<State>, steps: seq<Step>)
    ensures Run(states, steps) && !NoOverlap(states, steps)
    ensures var a, b := Call("a", None), Call("b", None);
      steps == [Arrive(a), Accept(a), Recall, Arrive(b), RecallDone(true), Shutdown, Leave, Accept(b), Close]
    ensures states[3].lock.Recalling?
    ensures states[9].idle && states[9].queue == [Request("b", 1)] && states[9].worker.Exited?
  {
    var a, b := Call("a", None), Call("b", None);
    states, steps := WorkerLeaves(a, b);
    var s7 := states[7];
    var s8 := s7.(entering := multiset{}, idle := false, queue := [Request("b", 1)], next := 2);
    assert multiset{b} - multiset{b} == multiset{};
    Extend(states, steps, Accept(b), s8);
    var s9 := s8.(idle := true, closed := true);
    Extend(states + [s8], steps + [Accept(b)], Close, s9);
    states, steps := states + [s8] + [s9], steps + [Accept(b)] + [Close];
    assert steps[5].Shutdown? && states[5].entering == multiset{b};
  }

  lemma WorkerLeaves(a: Call, b: Call) returns (states: seq<State>, steps: seq<Step>)
    requires a.index.None?
    ensures Run(states, steps) && steps == [Arrive(a), Accept(a), Recall, Arrive(b), RecallDone(true), Shutdown, Leave]
    ensures states[3].lock.Recalling? && states[5].entering == multiset{b}
    ensures states[7] ==
      INITIAL.(worker := Exited, idle := false, closing := true, next := 1, entering := multiset{b}, recalled := [0])
  {
    states, steps := OverlapBegins(a, b);
    var s5 := states[5];
    var s6, s7 := s5.(closing := true), s5.(closing := true, worker := Exited);
    assert ShutDown(s5) == s6;
    Extend(states, steps, Shutdown, s6);
    Extend(states + [s6], steps + [Shutdown], Leave, s7);
    states, steps := states + [s6] + [s7], steps + [Shutdown] + [Leave];
  }

  lemma OverlapBegins(a: Call, b: Call) returns (states: seq<State>, steps: seq<Step>)
    requires a.index.None?
    ensures Run(states, steps) && steps == [Arrive(a), Accept(a), Recall, Arrive(b), RecallDone(true)]
    ensures states[3].lock.Recalling?
    ensures states[5] == INITIAL.(worker := Waiting, idle := false, next := 1, entering := multiset{b}, recalled := [0])
  {
    states, steps := OneQueued(a);
    var s2 := states[2];
    var s3 := s2.(queue := [], lock := Recalling(Request(a.id, 0)));
    assert Popped(s2) == s3;
    Extend(states, steps, Recall, s3);
    var s4 := s3.(entering := multiset{b});
    assert multiset{} + multiset{b} == multiset{b};
    Extend(states + [s3], steps + [Recall], Arrive(b), s4);
    var s5 := s4.(lock := Free, recalled := [0]);
    Extend(states + [s3] + [s4], steps + [Recall] + [Arrive(b)], RecallDone(true), s5);
    states, steps := states + [s3] + [s4] + [s5], steps + [Recall] + [Arrive(b)] + [RecallDone(true)];
  }

  lemma OneQueued(call: Call) returns (states: seq<State>, steps: seq<Step>)
    requires call.index.None?
    ensures Run(states, steps) && steps == [Arrive(call), Accept(call)]
    ensures states[2] == INITIAL.(worker := Waiting, idle := false, queue := [Request(call.id, 0)], next := 1)
  {
    var s1 := INITIAL.(worker := Waiting, entering := multiset{call});
    OneRequest(s1, call);
    Extend([INITIAL], [], Arrive(call), s1);
    Extend([INITIAL, s1], [Arrive(call)], Accept(call), Accepted(s1, call));
    states, steps := [INITIAL, s1] + [Accepted(s1, call)], [Arrive(call)] + [Accept(call)];
  }

  /** A recalled last request leaves the controller busy with nothing to do. */
  lemma RecallLeavesBusy() returns (states: seq<State>, steps: seq<Step>)
    ensures Run(states, steps) && !NoRecallNorShutdown(steps)
    ensures var a := Call("a", None); steps == [Arrive(a), Accept(a), Recall, RecallDone(true)]
    ensures !RestIsIdle(states[|steps|]) && states[|steps|].worker.Waiting? && states[|steps|].lock.Free?
  {
    var earlier, fewer := OneQueued(Call("a", None));
    var s3 := Popped(earlier[2]);
    var s4 := RecallEnded(s3, true);
    Extend(earlier, fewer, Recall, s3);
    Extend(earlier + [s3], fewer + [Recall], RecallDone(true), s4);
    states, steps := earlier + [s3] + [s4], fewer + [Recall] + [RecallDone(true)];
    assert steps[2].Recall?;
  }
}
