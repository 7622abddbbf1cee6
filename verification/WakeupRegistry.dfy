/** The registry and its mailboxes as objects. Looking a mailbox up and acting on it under its lock are separate calls;
    every call is one step of the protocol, except that `unregister` takes its two steps without a suspension. */
module WakeupRegistry {
  import opened Options
  import opened Wakeup

  class MailboxState {
    const generation: nat
    ghost const key: string
    var revision: nat
    var actionableRevision: nat
    var closed: bool
    var consumedRevision: nat

    constructor (key: string, generation: nat)
      ensures this.generation == generation && View() == Mailbox(key, 0, 0, false, 0)
    {
      this.key, this.generation := key, generation;
      revision, actionableRevision, closed, consumedRevision := 0, 0, false, 0;
    }

    ghost function View(): Mailbox
      reads this
    {
      Mailbox(key, revision, actionableRevision, closed, consumedRevision)
    }

    method TakeSnapshot() returns (snap: Snapshot)
      ensures snap == SnapshotOf(View(), generation)
    {
      snap := Snapshot(revision, actionableRevision, closed, generation);
    }

    method HasChanged(previous: Snapshot, actionableOnly: bool) returns (changed: bool)
      ensures changed == Changed(View(), generation, previous, actionableOnly)
    {
      changed := closed || generation != previous.generation
        || (if actionableOnly then actionableRevision != previous.actionable else revision != previous.revision);
    }
  }

  class MailboxWakeupRegistry {
    var states: map<string, MailboxState>
    var generation: nat
    /** The readers asleep on a condition. */
    var waiters: seq<Waiter>
    /** Every mailbox made so far. */
    ghost var made: map<nat, MailboxState>

    ghost function Repr(): set<object>
      reads this`made
    {
      set g | g in made :: made[g]
    }

    ghost predicate Valid()
      reads this`made, this`states, this`generation
    {
      && (forall g | g in made :: made[g].generation == g && 1 <= g <= generation)
      && (forall key | key in states :: Made(states[key]))
    }

    ghost predicate Made(state: MailboxState)
      reads this`made
    {
      state.generation in made && made[state.generation] == state
    }

    ghost function Mailboxes(): map<nat, Mailbox>
      reads this`made, Repr()
    {
      map g | g in made :: made[g].View()
    }

    ghost function Current(): map<string, nat>
      reads this`states
    {
      map key | key in states :: states[key].generation
    }

    ghost function View(): State
      reads this, Repr()
    {
      State(Mailboxes(), Current(), generation, waiters)
    }

    constructor ()
      ensures Valid() && View() == INITIAL
    {
      states, generation, waiters, made := map[], 0, [], map[];
    }

    /** `self._states.get(key)`. */
    method Find(key: string) returns (state: MailboxState?)
      requires Valid()
      ensures state == null <==> key !in Current()
      ensures state != null ==> Made(state) && Current()[key] == state.generation
    {
      if key !in states {
        return null;
      }
      return states[key];
    }

    /** A new mailbox of the next generation takes the key. */
    method Replace(key: string) returns (state: MailboxState)
      requires Valid()
      modifies this
      ensures Valid() && Made(state) && fresh(state)
      ensures generation == old(generation) + 1 == state.generation && waiters == old(waiters)
      ensures Mailboxes() == old(Mailboxes())[generation := Mailbox(key, 0, 0, false, 0)]
      ensures Current() == old(Current())[key := generation]
    {
      state := new MailboxState(key, generation + 1);
      generation := generation + 1;
      states := states[key := state];
      made := made[generation := state];
    }

    method Register(key: string) returns (snap: Snapshot)
      requires Valid()
      modifies this
      ensures Valid() && View() == Next(old(View()), Step.Register(key)) && SnapshotAt(View(), key, snap)
    {
      ghost var before := View();
      var state := Find(key);
      if state == null || state.closed {
        assert !Open(before, key);
        state := Replace(key);
        assert Mailboxes() == before.mailboxes[generation := Mailbox(key, 0, 0, false, 0)];
        assert Current() == before.current[key := generation];
        return Snapshot(0, 0, false, state.generation);
      }
      snap := state.TakeSnapshot();
    }

    /** Writing to one mailbox changes that mailbox only. */
    twostate lemma Written(state: MailboxState)
      requires old(Valid()) && Made(state) && unchanged(this)
      requires forall g | g in made && g != state.generation :: unchanged(made[g])
      ensures Valid() && Mailboxes() == old(Mailboxes())[state.generation := state.View()]
    {
    }

    method Count(state: MailboxState, actionable: bool)
      requires Valid() && Made(state)
      modifies state
      ensures Valid() && Mailboxes() == old(Mailboxes())[state.generation := Notified(old(state.View()), actionable)]
    {
      state.revision := state.revision + 1;
      if actionable {
        state.actionableRevision := state.actionableRevision + 1;
      }
      assert state.View() == Notified(old(state.View()), actionable);
      Written(state);
    }

    /** `notify` under the mailbox's lock. */
    method Notify(state: MailboxState, actionable: bool) returns (delivered: bool)
      requires Valid() && Made(state)
      modifies this`waiters, state
      ensures Valid() && View() == Next(old(View()), Step.Notify(state.generation, actionable))
      ensures delivered <==> !old(state.closed)
    {
      ghost var before := View();
      assert before.mailboxes[state.generation] == state.View();
      if state.closed {
        return false;
      }
      assert Accepts(before, state.generation);
      Count(state, actionable);
      NotifyAll(state.generation);
      return true;
    }

    /** `condition.notify_all`. */
    method NotifyAll(number: nat)
      modifies this`waiters
      ensures waiters == WokenAll(old(waiters), number)
    {
      for i := 0 to |waiters|
        invariant |waiters| == |old(waiters)|
        invariant forall k | i <= k < |waiters| :: waiters[k] == old(waiters)[k]
        invariant forall k | 0 <= k < i :: waiters[k] == WokenAll(old(waiters), number)[k]
      {
        if waiters[i].generation == number {
          waiters := waiters[i := waiters[i].(woken := true)];
        }
      }
    }

    /** `close` under the mailbox's lock. */
    method Close(state: MailboxState, expected: Option<nat>) returns (done: bool)
      requires Valid() && Made(state)
      modifies this`waiters, state
      ensures Valid() && View() == Next(old(View()), Step.Close(state.generation, expected))
      ensures done <==> expected.None? || old(state.revision) == expected.value
      ensures state.closed <==> old(state.closed) || done
    {
      if expected.Some? && state.revision != expected.value {
        return false;
      }
      state.closed := true;
      Written(state);
      NotifyAll(state.generation);
      return true;
    }

    /** `unregister` after its close. */
    method Drop(key: string)
      requires Valid()
      modifies this`states
      ensures Valid() && View() == Next(old(View()), Step.Drop(key))
    {
      states := states - {key};
      assert Current() == old(Current()) - {key};
    }

    /** The mailbox registered under the key is closed and removed in one stretch. */
    method Unregister(key: string)
      requires Valid()
      modifies this`waiters, this`states, Repr()
      ensures Valid()
      ensures
        var closed := if key in old(Current()) then Next(old(View()), Step.Close(old(Current())[key], None))
          else old(View());
        View() == Next(closed, Step.Drop(key))
    {
      var state := Find(key);
      if state != null {
        var _ := Close(state, None);
      }
      Drop(key);
    }

    /** `wait_since` from its lookup to where it answers or goes to sleep. A timeout of zero answers too. */
    method WaitSince(key: string, previous: Snapshot, actionableOnly: bool, poll: bool)
      returns (asleep: bool, answer: Option<Snapshot>)
      requires Valid()
      modifies this`waiters
      ensures Valid()
      ensures AnswersAtOnce(old(View()), key, previous, actionableOnly) || poll <==> !asleep
      ensures View() ==
        if asleep then Next(old(View()), Sleep(View().current[key], previous, actionableOnly)) else old(View())
      ensures answer.Some? <==> key in states && AnswersAtOnce(View(), key, previous, actionableOnly)
      ensures answer.Some? ==> SnapshotAt(View(), key, answer.value)
    {
      var state := Find(key);
      if state == null {
        return false, None;
      }
      var changed := state.HasChanged(previous, actionableOnly);
      if changed {
        var snap := state.TakeSnapshot();
        return false, Some(snap);
      }
      if poll {
        return false, None;
      }
      waiters := waiters + [Waiter(state.generation, previous, actionableOnly, false)];
      return true, None;
    }
  }
}
