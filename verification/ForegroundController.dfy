/** The controller object itself: every stretch between two awaits is one method, and each method is one
    step of the state machine. */
module ForegroundController {
  import opened Foreground
  import opened Options

  lemma {:induction false} FirstRemoved(queue: seq<Request>, r: Request, i: nat)
    requires i < |queue| && queue[i] == r && forall k | 0 <= k < i :: queue[k] != r
    ensures Removed(queue, r) == queue[..i] + queue[i + 1..]
  {
    if i > 0 {
      FirstRemoved(queue[1..], r, i - 1);
      assert queue[..i] == [queue[0]] + queue[1..][..i - 1];
      assert queue[i + 1..] == queue[1..][i..];
    }
  }

  class ForegroundRunController {
    var queue: seq<Request>
    var activeItemId: Option<string>
    var idle: bool
    var shutdownRequested: bool

    // Where the coroutines are: the holder of the lock, the worker, and the calls waiting to enter.
    var lock: Lock
    var worker: Worker
    var tickets: nat
    ghost var entering: multiset<Call>
    ghost var closed: bool

    // What has happened.
    ghost var log: seq<Event>
    ghost var recalled: seq<nat>
    ghost var cancelled: seq<nat>
    ghost var drained: seq<nat>

    ghost function View(): State
      reads this
    {
      State(queue, activeItemId, idle, shutdownRequested, closed, lock, worker, entering, tickets, log, recalled,
            cancelled, drained)
    }

    constructor ()
      ensures View() == INITIAL
    {
      queue, activeItemId, idle, shutdownRequested := [], None, true, false;
      lock, worker, tickets, entering, closed := Free, Unstarted, 0, multiset{}, false;
      log, recalled, cancelled, drained := [], [], [], [];
    }

    /** `contains`. */
    method HasItem(id: string) returns (found: bool)
      ensures found == Contains(View(), id)
    {
      if activeItemId == Some(id) {
        return true;
      }
      for i := 0 to |queue|
        invariant forall k | 0 <= k < i :: queue[k].id != id
      {
        if queue[i].id == id {
          return true;
        }
      }
      return false;
    }

    /** `enqueue_item` up to the lock: the shutdown test and the start of the worker. */
    method EnqueueItem(call: Call) returns (open: bool)
      modifies this
      ensures open == !old(shutdownRequested)
      ensures View() == if open then Next(old(View()), Arrive(call)) else old(View())
    {
      if shutdownRequested {
        return false;
      }
      if worker.Unstarted? {
        worker := Waiting;
      }
      entering := entering + multiset{call};
      return true;
    }

    /** `enqueue_item` under the lock. */
    method AcceptItem(call: Call)
      requires call in entering && lock.Free?
      modifies this
      ensures View() == Accepted(old(View()), call)
    {
      entering := entering - multiset{call};
      var known := HasItem(call.id);
      if known {
        return;
      }
      idle := false;
      var request := Request(call.id, tickets);
      tickets := tickets + 1;
      Insert(request, call.index);
    }

    method Insert(request: Request, index: Option<int>)
      modifies this`queue
      ensures queue == Inserted(old(queue), request, index)
    {
      if index.None? || index.value >= |queue| {
        queue := queue + [request];
      } else {
        var at := if index.value < 0 then 0 else index.value;
        queue := queue[..at] + [request] + queue[at..];
      }
    }

    /** `recall_latest` up to the call of the session; the lock stays taken. */
    method RecallLatest() returns (request: Option<Request>)
      requires lock.Free?
      modifies this
      ensures request.Some? <==> old(queue) != []
      ensures View() == if request.Some? then Next(old(View()), Recall) else old(View())
      ensures request.Some? ==> lock == Recalling(request.value)
    {
      if queue == [] {
        return None;
      }
      var last := |queue| - 1;
      lock, request := Recalling(queue[last]), Some(queue[last]);
      queue := queue[..last];
    }

    /** `recall_latest` after the session answered, or failed. */
    method RecallAnswered(ok: bool)
      requires Enabled(View(), RecallDone(ok))
      modifies this
      ensures View() == Next(old(View()), RecallDone(ok))
    {
      if ok {
        recalled := recalled + [lock.request.ticket];
      } else {
        queue := queue + [lock.request];
      }
      lock := Free;
    }

    /** `cancel` of a queued item up to the call of the session. */
    method CancelQueued(id: string) returns (found: bool)
      requires lock.Free?
      modifies this
      ensures found <==> Queued(old(queue), id)
      ensures found ==> exists r :: r in old(queue) && r.id == id && View() == Next(old(View()), Cancel(r))
      ensures !found ==> View() == old(View())
    {
      for i := 0 to |queue|
        invariant forall k | 0 <= k < i :: queue[k].id != id
        invariant View() == old(View())
      {
        if queue[i].id == id {
          lock := Cancelling(queue[i]);
          return true;
        }
      }
      return false;
    }

    method CancelAnswered(ok: bool)
      requires Enabled(View(), CancelDone(ok)) && lock.request in queue
      modifies this
      ensures View() == Next(old(View()), CancelDone(ok))
    {
      var pending := lock.request;
      if ok {
        var i := 0;
        while queue[i] != pending
          invariant 0 <= i < |queue| && forall k | 0 <= k < i :: queue[k] != pending
          invariant View() == old(View())
          decreases |queue| - i
        {
          assert exists k :: i < k < |queue| && queue[k] == pending;
          i := i + 1;
        }
        FirstRemoved(queue, pending, i);
        queue := queue[..i] + queue[i + 1..];
        cancelled := cancelled + [pending.ticket];
        if queue == [] && activeItemId.None? {
          idle := true;
        }
      }
      lock := Free;
    }

    /** `shutdown` under the lock. */
    method RequestShutdown() returns (pending: seq<Request>)
      requires lock.Free?
      modifies this
      ensures View() == Next(old(View()), Shutdown) && pending == old(queue)
    {
      shutdownRequested := true;
      pending := queue;
      drained := drained + TicketsOf(queue);
      queue := [];
    }

    /** `shutdown` after the worker has gone. */
    method FinishShutdown()
      requires Enabled(View(), Close)
      modifies this
      ensures View() == Next(old(View()), Close)
    {
      idle := true;
      closed := true;
    }

    /** The worker takes the lock with a request waiting or with shutdown requested; it leaves its loop
        only when the queue is empty. */
    method TakeNext() returns (request: Option<Request>)
      requires worker.Waiting? && lock.Free? && (queue != [] || shutdownRequested)
      modifies this
      ensures request.Some? <==> old(queue) != []
      ensures View() == Next(old(View()), if request.Some? then Take else Leave)
      ensures request.Some? ==> worker == Working(request.value) && activeItemId == Some(request.value.id)
    {
      if queue == [] {
        worker := Exited;
        return None;
      }
      request := Some(queue[0]);
      activeItemId, worker := Some(queue[0].id), Working(queue[0]);
      log := log + [Started(queue[0])];
      queue := queue[1..];
    }

    /** However the run ended, the worker's `finally` block up to the lock. */
    method SettleRun(dies: bool)
      requires Enabled(View(), Settle(dies))
      modifies this
      ensures View() == Next(old(View()), Settle(dies))
    {
      activeItemId := None;
      log := log + [Finished(worker.request)];
      worker := Clearing(dies);
    }

    /** The worker's `finally` block under the lock. */
    method ClearRun()
      requires Enabled(View(), Clear)
      modifies this
      ensures View() == Next(old(View()), Clear)
    {
      if queue == [] {
        idle := true;
      }
      worker := if worker.dies then Exited else Waiting;
    }
  }
}
