/** Versioned mailbox notifications as a protocol. Finding a mailbox and acting on it are separate steps, in any order;
    the code takes them without a suspension between them, so its runs are among these. */
module Wakeup {
  import opened Options

  datatype Snapshot = Snapshot(revision: nat, actionable: nat, closed: bool, generation: nat)

  datatype Mailbox = Mailbox(key: string, revision: nat, actionable: nat, closed: bool, consumed: nat)

  /** A reader asleep on a mailbox; `woken` once it has been notified and will look again. */
  datatype Waiter = Waiter(generation: nat, previous: Snapshot, actionableOnly: bool, woken: bool)

  /** Every mailbox ever made, by generation, and which of them is registered under each key. */
  datatype State = State(mailboxes: map<nat, Mailbox>, current: map<string, nat>, generation: nat, waiters: seq<Waiter>)

  const INITIAL := State(map[], map[], 0, [])

  datatype Step =
    | Register(key: string)
    | Notify(generation: nat, urgent: bool)
    | Close(generation: nat, expected: Option<nat>)
    | Drop(key: string)
    | Sleep(generation: nat, previous: Snapshot, actionableOnly: bool)
    | Look(index: nat)
    | TimeOut(index: nat)
    | Consume(generation: nat)

  function SnapshotOf(m: Mailbox, generation: nat): Snapshot {
    Snapshot(m.revision, m.actionable, m.closed, generation)
  }

  /** The condition `wait_since` waits for. */
  predicate Changed(m: Mailbox, generation: nat, previous: Snapshot, actionableOnly: bool) {
    || m.closed
    || generation != previous.generation
    || (if actionableOnly then m.actionable != previous.actionable else m.revision != previous.revision)
  }

  /** `notify_all`. */
  function WokenAll(waiters: seq<Waiter>, generation: nat): (r: seq<Waiter>)
    ensures |r| == |waiters|
    ensures forall i | 0 <= i < |r| ::
      r[i] == if waiters[i].generation == generation then waiters[i].(woken := true) else waiters[i]
  {
    seq(|waiters|, i requires 0 <= i < |waiters| =>
      if waiters[i].generation == generation then waiters[i].(woken := true) else waiters[i])
  }

  function Notified(m: Mailbox, urgent: bool): Mailbox {
    m.(revision := m.revision + 1, actionable := m.actionable + if urgent then 1 else 0)
  }

  /** The registered mailbox of a key is kept when it is open. */
  predicate Open(s: State, key: string) {
    key in s.current && s.current[key] in s.mailboxes && !s.mailboxes[s.current[key]].closed
  }

  predicate Accepts(s: State, generation: nat) {
    generation in s.mailboxes && !s.mailboxes[generation].closed
  }

  predicate Closes(s: State, generation: nat, expected: Option<nat>)
    requires generation in s.mailboxes
  {
    expected.None? || s.mailboxes[generation].revision == expected.value
  }

  predicate Enabled(s: State, step: Step) {
    match step
    case Register(_) => true
    case Notify(g, _) => g in s.mailboxes
    case Close(g, _) => g in s.mailboxes
    case Drop(_) => true
    case Sleep(g, previous, actionableOnly) => g in s.mailboxes && !Changed(s.mailboxes[g], g, previous, actionableOnly)
    case Look(i) => i < |s.waiters| && s.waiters[i].woken && s.waiters[i].generation in s.mailboxes
    case TimeOut(i) => i < |s.waiters|
    case Consume(g) => g in s.mailboxes && !s.mailboxes[g].closed
  }

  function Without(waiters: seq<Waiter>, i: nat): seq<Waiter>
    requires i < |waiters|
  {
    waiters[..i] + waiters[i + 1..]
  }

  function Next(s: State, step: Step): State
    requires Enabled(s, step)
  {
    match step
    case Register(key) =>
      if Open(s, key) then s
      else
        var g := s.generation + 1;
        s.(mailboxes := s.mailboxes[g := Mailbox(key, 0, 0, false, 0)], current := s.current[key := g], generation := g)
    case Notify(g, urgent) =>
      if s.mailboxes[g].closed then s
      else s.(mailboxes := s.mailboxes[g := Notified(s.mailboxes[g], urgent)], waiters := WokenAll(s.waiters, g))
    case Close(g, expected) =>
      if !Closes(s, g, expected) then s
      else s.(mailboxes := s.mailboxes[g := s.mailboxes[g].(closed := true)], waiters := WokenAll(s.waiters, g))
    case Drop(key) => s.(current := s.current - {key})
    case Sleep(g, previous, actionableOnly) => s.(waiters := s.waiters + [Waiter(g, previous, actionableOnly, false)])
    case Look(i) =>
      var w := s.waiters[i];
      if Changed(s.mailboxes[w.generation], w.generation, w.previous, w.actionableOnly) then
        s.(waiters := Without(s.waiters, i))
      else s.(waiters := s.waiters[i := w.(woken := false)])
    case TimeOut(i) => s.(waiters := Without(s.waiters, i))
    case Consume(g) => s.(mailboxes := s.mailboxes[g := s.mailboxes[g].(consumed := s.mailboxes[g].revision)])
  }

  /** What `wait_since` does when it is called now: a missing, or a changed, mailbox answers at once. */
  ghost predicate AnswersAtOnce(s: State, key: string, previous: Snapshot, actionableOnly: bool) {
    key !in s.current
    || (s.current[key] in s.mailboxes && Changed(s.mailboxes[s.current[key]], s.current[key], previous, actionableOnly))
  }

  /******* Runs *******/

  ghost predicate Run(states: seq<State>, steps: seq<Step>) {
    && |states| == |steps| + 1
    && states[0] == INITIAL
    && forall i | 0 <= i < |steps| :: Enabled(states[i], steps[i]) && states[i + 1] == Next(states[i], steps[i])
  }

  ghost predicate Sound(s: State) {
    && (forall g | g in s.mailboxes :: 1 <= g <= s.generation && s.mailboxes[g].actionable <= s.mailboxes[g].revision
                                       && s.mailboxes[g].consumed <= s.mailboxes[g].revision)
    && (forall key | key in s.current :: s.current[key] in s.mailboxes && s.mailboxes[s.current[key]].key == key)
    && (forall i | 0 <= i < |s.waiters| :: s.waiters[i].generation in s.mailboxes)
  }

  /** No reader sleeps through a change. */
  ghost predicate Awake(s: State) {
    forall i | 0 <= i < |s.waiters| && s.waiters[i].generation in s.mailboxes && !s.waiters[i].woken ::
      var w := s.waiters[i];
      !Changed(s.mailboxes[w.generation], w.generation, w.previous, w.actionableOnly)
  }

  /** What may happen to one mailbox: its counters grow, it closes once and then stays as it is. */
  ghost predicate Grows(m: Mailbox, n: Mailbox) {
    && n.key == m.key
    && m.revision <= n.revision && m.actionable <= n.actionable
    && n.actionable - m.actionable <= n.revision - m.revision
    && (m.closed ==> n.closed && n.revision == m.revision && n.actionable == m.actionable)
  }

  lemma StepKeepsSound(s: State, step: Step)
    requires Sound(s) && Enabled(s, step)
    ensures Sound(Next(s, step))
  {
  }

  lemma StepKeepsAwake(s: State, step: Step)
    requires Sound(s) && Awake(s) && Enabled(s, step)
    ensures Awake(Next(s, step))
  {
  }

  lemma StepGrows(s: State, step: Step)
    requires Sound(s) && Enabled(s, step)
    ensures var t := Next(s, step);
      && s.generation <= t.generation
      && forall g | g in s.mailboxes :: g in t.mailboxes && Grows(s.mailboxes[g], t.mailboxes[g])
  {
  }

  lemma {:induction false} RunPrefix(states: seq<State>, steps: seq<Step>)
    requires Run(states, steps) && steps != []
    ensures Run(states[..|steps|], steps[..|steps| - 1])
    ensures var i := |steps| - 1; Enabled(states[i], steps[i]) && states[i + 1] == Next(states[i], steps[i])
  {
  }

  /** In every reachable state the counters are in order, the registered mailboxes exist, and a sleeping
      reader has missed nothing. */
  lemma {:induction false} AlwaysSound(states: seq<State>, steps: seq<Step>)
    requires Run(states, steps)
    ensures Sound(states[|steps|]) && Awake(states[|steps|])
  {
    if steps != [] {
      RunPrefix(states, steps);
      AlwaysSound(states[..|steps|], steps[..|steps| - 1]);
      StepKeepsSound(states[|steps| - 1], steps[|steps| - 1]);
      StepKeepsAwake(states[|steps| - 1], steps[|steps| - 1]);
    }
  }

  lemma SoundAt(states: seq<State>, steps: seq<Step>, k: nat)
    requires Run(states, steps) && k <= |steps|
    ensures Sound(states[k]) && Awake(states[k])
  {
    assert Run(states[..k + 1], steps[..k]);
    AlwaysSound(states[..k + 1], steps[..k]);
  }

  /** What one state has become of an earlier one. */
  ghost predicate Later(s: State, t: State) {
    && s.generation <= t.generation
    && (forall g | g in s.mailboxes :: g in t.mailboxes && Grows(s.mailboxes[g], t.mailboxes[g]))
    && (forall g | g in t.mailboxes && g !in s.mailboxes :: g > s.generation)
  }

  lemma LaterYet(s: State, t: State, step: Step)
    requires Later(s, t) && Sound(t) && Enabled(t, step)
    ensures Later(s, Next(t, step))
  {
    StepGrows(t, step);
  }

  /** Generations are never reused, revisions only grow, and a closed mailbox stays closed. */
  lemma {:induction false} MailboxesGrow(states: seq<State>, steps: seq<Step>, i: nat, k: nat)
    requires Run(states, steps) && i <= k <= |steps|
    ensures Later(states[i], states[k])
    decreases k
  {
    if i < k {
      MailboxesGrow(states, steps, i, k - 1);
      SoundAt(states, steps, k - 1);
      LaterYet(states[i], states[k - 1], steps[k - 1]);
    }
  }

  /** The registered generation of a key only moves forward, and never back to one that was replaced. */
  lemma {:induction false} RegistrationsAdvance(states: seq<State>, steps: seq<Step>, key: string, i: nat, k: nat)
    requires Run(states, steps) && i <= k <= |steps|
    requires key in states[k].current
    ensures
      || states[k].current[key] > states[i].generation
      || (key in states[i].current && states[k].current[key] == states[i].current[key])
    decreases k
  {
    if i < k {
      var s, t := states[k - 1], states[k];
      assert t == Next(s, steps[k - 1]);
      MailboxesGrow(states, steps, i, k - 1);
      if key in s.current && s.current[key] == t.current[key] {
        RegistrationsAdvance(states, steps, key, i, k - 1);
      }
    }
  }

  /******* No lost wakeups *******/

  /** The step is a notification that `notify` reports as delivered. */
  ghost predicate Delivered(s: State, step: Step, generation: nat) {
    step.Notify? && step.generation == generation && Accepts(s, generation)
  }

  ghost predicate SnapshotAt(s: State, key: string, snap: Snapshot) {
    key in s.current && s.current[key] in s.mailboxes && snap == SnapshotOf(s.mailboxes[s.current[key]], s.current[key])
  }

  /** A notification delivered to the snapshotted mailbox, or to a later one of the key, makes every later
      wait on the snapshot answer at once: nothing that happens in between consumes it. */
  lemma DeliveredIsSeen(states: seq<State>, steps: seq<Step>, i: nat, j: nat, k: nat, key: string, snap: Snapshot,
                        generation: nat, actionableOnly: bool)
    requires Run(states, steps) && i <= j < k <= |steps| && SnapshotAt(states[i], key, snap)
    requires Delivered(states[j], steps[j], generation) && (actionableOnly ==> steps[j].urgent)
    requires generation >= snap.generation && states[j].mailboxes[generation].key == key
    ensures AnswersAtOnce(states[k], key, snap, actionableOnly)
  {
    if key in states[k].current {
      SoundAt(states, steps, i);
      SoundAt(states, steps, j);
      SoundAt(states, steps, k);
      MailboxesGrow(states, steps, i, j);
      MailboxesGrow(states, steps, j + 1, k);
      if generation == snap.generation {
        RegistrationsAdvance(states, steps, key, i, k);
      } else {
        Superseded(states, steps, key, snap.generation, generation, i, j);
        RegistrationsAdvance(states, steps, key, j, k);
      }
    }
  }

  lemma Supersedes(s: State, step: Step, newer: nat)
    requires Enabled(s, step) && newer !in s.mailboxes && newer in Next(s, step).mailboxes
    ensures var t := Next(s, step); t.mailboxes[newer].key in t.current && t.current[t.mailboxes[newer].key] == newer
  {
  }

  lemma NotBack(s: State, step: Step, key: string, older: nat)
    requires Enabled(s, step) && older <= s.generation && (key in s.current ==> s.current[key] != older)
    ensures var t := Next(s, step); key in t.current ==> t.current[key] != older
  {
  }

  /** Once a later generation of the key exists, the earlier one is not registered. */
  lemma {:induction false} Superseded(states: seq<State>, steps: seq<Step>, key: string, older: nat, newer: nat, i: nat,
                                      j: nat)
    requires Run(states, steps) && i <= j <= |steps|
    requires older < newer && newer in states[j].mailboxes && states[j].mailboxes[newer].key == key
    requires key in states[i].current && states[i].current[key] == older
    ensures key in states[j].current ==> states[j].current[key] != older
    decreases j
  {
    if i < j {
      var s, step, t := states[j - 1], steps[j - 1], states[j];
      assert t == Next(s, step);
      if newer in s.mailboxes {
        assert s.mailboxes[newer].key == key by {
          MailboxesGrow(states, steps, j - 1, j);
        }
        assert older <= s.generation by {
          SoundAt(states, steps, i);
          MailboxesGrow(states, steps, i, j - 1);
        }
        Superseded(states, steps, key, older, newer, i, j - 1);
        NotBack(s, step, key, older);
      } else {
        Supersedes(s, step, newer);
      }
    } else {
      NewestRegistered(states, steps, key, newer, i);
    }
  }

  /** A registered mailbox is the newest of its key. */
  lemma {:induction false} NewestRegistered(states: seq<State>, steps: seq<Step>, key: string, g: nat, k: nat)
    requires Run(states, steps) && k <= |steps|
    requires key in states[k].current && g in states[k].mailboxes && states[k].mailboxes[g].key == key
    ensures g <= states[k].current[key]
  {
    if k > 0 {
      var s, step, t := states[k - 1], steps[k - 1], states[k];
      assert t == Next(s, step);
      SoundAt(states, steps, k - 1);
      SoundAt(states, steps, k);
      if key in s.current && g in s.mailboxes {
        NewestRegistered(states, steps, key, g, k - 1);
      }
    }
  }

  /** `unregister` closes and removes without a suspension in between, so that a registered mailbox is removed
      directly after its close. */
  ghost predicate Unregisters(states: seq<State>, steps: seq<Step>)
    requires |states| == |steps| + 1
  {
    forall i | 0 <= i < |steps| && steps[i].Drop? && steps[i].key in states[i].current ::
      i > 0 && steps[i - 1] == Close(states[i].current[steps[i].key], None)
  }

  /** What is removed is closed. */
  ghost predicate DropsClosed(states: seq<State>, steps: seq<Step>)
    requires |states| == |steps| + 1
  {
    forall i | 0 <= i < |steps| && steps[i].Drop? :: !Open(states[i], steps[i].key)
  }

  lemma DropIsClosed(states: seq<State>, steps: seq<Step>, k: nat)
    requires Run(states, steps) && Unregisters(states, steps) && k < |steps| && steps[k].Drop?
    ensures !Open(states[k], steps[k].key)
  {
    if steps[k].key in states[k].current {
      assert states[k] == Next(states[k - 1], steps[k - 1]);
    }
  }

  lemma UnregisteredIsClosed(states: seq<State>, steps: seq<Step>)
    requires Run(states, steps) && Unregisters(states, steps)
    ensures DropsClosed(states, steps)
  {
    forall i | 0 <= i < |steps| && steps[i].Drop? ensures !Open(states[i], steps[i].key) {
      DropIsClosed(states, steps, i);
    }
  }

  ghost predicate OpenIsRegistered(s: State) {
    forall g | Accepts(s, g) :: s.mailboxes[g].key in s.current && s.current[s.mailboxes[g].key] == g
  }

  lemma {:induction false} OnlyRegisteredAreOpen(states: seq<State>, steps: seq<Step>, k: nat)
    requires Run(states, steps) && DropsClosed(states, steps) && k <= |steps|
    ensures OpenIsRegistered(states[k])
  {
    if k > 0 {
      OnlyRegisteredAreOpen(states, steps, k - 1);
      SoundAt(states, steps, k - 1);
      assert states[k] == Next(states[k - 1], steps[k - 1]);
    }
  }

  /** No lost wakeup: whatever notification of the key is delivered after a snapshot, every later wait on
      the snapshot answers at once. */
  lemma NoLostWakeup(states: seq<State>, steps: seq<Step>, i: nat, j: nat, k: nat, key: string, snap: Snapshot,
                     generation: nat, actionableOnly: bool)
    requires Run(states, steps) && Unregisters(states, steps)
    requires i <= j < k <= |steps| && SnapshotAt(states[i], key, snap)
    requires Delivered(states[j], steps[j], generation) && (actionableOnly ==> steps[j].urgent)
    requires states[j].mailboxes[generation].key == key
    ensures AnswersAtOnce(states[k], key, snap, actionableOnly)
  {
    UnregisteredIsClosed(states, steps);
    OnlyRegisteredAreOpen(states, steps, j);
    RegistrationsAdvance(states, steps, key, i, j);
    SoundAt(states, steps, i);
    DeliveredIsSeen(states, steps, i, j, k, key, snap, generation, actionableOnly);
  }

  /** What a wait on a snapshot of the mailbox is waiting for. */
  ghost predicate Stirs(s: State, step: Step, generation: nat, actionableOnly: bool) {
    || (Delivered(s, step, generation) && (actionableOnly ==> step.urgent))
    || (step.Close? && step.generation == generation && generation in s.mailboxes
        && Closes(s, generation, step.expected))
  }

  /** The mailbox has at least what the snapshot saw of it. */
  ghost predicate Since(s: State, snap: Snapshot) {
    && snap.generation <= s.generation
    && snap.generation in s.mailboxes
    && snap.revision <= s.mailboxes[snap.generation].revision
    && snap.actionable <= s.mailboxes[snap.generation].actionable
  }

  lemma AnswersStep(s: State, step: Step, key: string, snap: Snapshot, actionableOnly: bool)
    requires Sound(s) && Enabled(s, step) && Since(s, snap)
    ensures AnswersAtOnce(Next(s, step), key, snap, actionableOnly) <==>
      || AnswersAtOnce(s, key, snap, actionableOnly)
      || Stirs(s, step, snap.generation, actionableOnly)
      || step == Drop(key)
  {
  }

  lemma StepAnswers(states: seq<State>, steps: seq<Step>, i: nat, k: nat, key: string, snap: Snapshot,
                    actionableOnly: bool)
    requires Run(states, steps) && i <= k < |steps| && SnapshotAt(states[i], key, snap)
    ensures AnswersAtOnce(states[k + 1], key, snap, actionableOnly) <==>
      || AnswersAtOnce(states[k], key, snap, actionableOnly)
      || Stirs(states[k], steps[k], snap.generation, actionableOnly)
      || steps[k] == Drop(key)
  {
    SoundAt(states, steps, i);
    SoundAt(states, steps, k);
    MailboxesGrow(states, steps, i, k);
    AnswersStep(states[k], steps[k], key, snap, actionableOnly);
  }

  lemma DropAnswers(states: seq<State>, steps: seq<Step>, k: nat, snap: Snapshot, actionableOnly: bool)
    requires Run(states, steps) && Unregisters(states, steps) && k < |steps| && steps[k].Drop?
    ensures AnswersAtOnce(states[k], steps[k].key, snap, actionableOnly)
  {
    SoundAt(states, steps, k);
    DropIsClosed(states, steps, k);
  }

  /** A wait on a snapshot answers at once if and only if the snapshotted mailbox was closed, or got a notification
      the wait is for, at or after the snapshot: nothing is lost, and nothing else ends a wait. */
  lemma {:induction false} AnswersIff(states: seq<State>, steps: seq<Step>, i: nat, k: nat, key: string, snap: Snapshot,
                                      actionableOnly: bool)
    requires Run(states, steps) && Unregisters(states, steps) && i <= k <= |steps| && SnapshotAt(states[i], key, snap)
    ensures AnswersAtOnce(states[k], key, snap, actionableOnly) <==>
      snap.closed || exists m :: i <= m < k && Stirs(states[m], steps[m], snap.generation, actionableOnly)
    decreases k
  {
    if i < k {
      AnswersIff(states, steps, i, k - 1, key, snap, actionableOnly);
      StepAnswers(states, steps, i, k - 1, key, snap, actionableOnly);
      if steps[k - 1] == Drop(key) {
        DropAnswers(states, steps, k - 1, snap, actionableOnly);
      }
    }
  }

  /** A delivered notification wakes everyone asleep on the mailbox, and they will find the change. */
  lemma DeliveryWakes(s: State, generation: nat, urgent: bool, i: nat)
    requires Sound(s) && Awake(s) && Accepts(s, generation) && i < |s.waiters| && s.waiters[i].generation == generation
    requires !s.waiters[i].woken && (s.waiters[i].actionableOnly ==> urgent)
    ensures var t := Next(s, Notify(generation, urgent));
      t.waiters[i].woken && Enabled(t, Look(i)) && |Next(t, Look(i)).waiters| == |s.waiters| - 1
  {
  }

  /******* Conditional close *******/

  /** The revision counts the notifications delivered. */
  lemma {:induction false} NoneDelivered(states: seq<State>, steps: seq<Step>, generation: nat, i: nat, k: nat)
    requires Run(states, steps) && i <= k <= |steps| && generation in states[i].mailboxes
    requires generation in states[k].mailboxes
    requires states[k].mailboxes[generation].revision == states[i].mailboxes[generation].revision
    ensures forall j | i <= j < k :: !Delivered(states[j], steps[j], generation)
  {
    forall j | i <= j < k ensures !Delivered(states[j], steps[j], generation) {
      MailboxesGrow(states, steps, i, j);
      MailboxesGrow(states, steps, j + 1, k);
      assert states[j + 1] == Next(states[j], steps[j]);
    }
  }

  /** One notification of the mailbox: an open one counts it, a closed one does not. */
  lemma NotifyCounts(states: seq<State>, steps: seq<Step>, generation: nat, j: nat)
    requires Run(states, steps) && j < |steps| && generation in states[j].mailboxes
    requires steps[j].Notify? && steps[j].generation == generation
    ensures generation in states[j + 1].mailboxes
    ensures var m, n := states[j].mailboxes[generation], states[j + 1].mailboxes[generation];
      && n.revision == m.revision + (if m.closed then 0 else 1)
      && n.actionable == m.actionable + (if !m.closed && steps[j].urgent then 1 else 0)
      && n.closed == m.closed
  {
    assert states[j + 1] == Next(states[j], steps[j]);
  }

  lemma StepUndelivered(s: State, step: Step, generation: nat)
    requires Enabled(s, step) && generation in s.mailboxes && generation <= s.generation
    requires !Delivered(s, step, generation)
    ensures var t := Next(s, step);
      generation in t.mailboxes && t.mailboxes[generation].revision == s.mailboxes[generation].revision
  {
  }

  /** Without a delivery the revision stands. */
  lemma {:induction false} Undelivered(states: seq<State>, steps: seq<Step>, generation: nat, i: nat, k: nat)
    requires Run(states, steps) && i <= k <= |steps| && generation in states[i].mailboxes
    requires forall m | i <= m < k :: !Delivered(states[m], steps[m], generation)
    ensures generation in states[k].mailboxes
    ensures states[k].mailboxes[generation].revision == states[i].mailboxes[generation].revision
    decreases k
  {
    if i < k {
      Undelivered(states, steps, generation, i, k - 1);
      SoundAt(states, steps, k - 1);
      StepUndelivered(states[k - 1], steps[k - 1], generation);
    }
  }

  lemma CloseStep(s: State, generation: nat, expected: Option<nat>)
    requires generation in s.mailboxes
    ensures var m := s.mailboxes[generation];
      Next(s, Close(generation, expected)).mailboxes[generation].closed <==>
        m.closed || expected.None? || m.revision == expected.value
  {
  }

  /** A close that is conditional on the revision of a snapshot closes the snapshotted mailbox if and only if no
      notification was delivered to it since the snapshot, unless it was closed already. */
  lemma ConditionalCloseIff(states: seq<State>, steps: seq<Step>, key: string, snap: Snapshot, i: nat, j: nat)
    requires Run(states, steps) && i <= j < |steps| && SnapshotAt(states[i], key, snap)
    requires steps[j] == Close(snap.generation, Some(snap.revision))
    ensures snap.generation in states[j].mailboxes && snap.generation in states[j + 1].mailboxes
    ensures states[j + 1].mailboxes[snap.generation].closed <==>
      || states[j].mailboxes[snap.generation].closed
      || forall m | i <= m < j :: !Delivered(states[m], steps[m], snap.generation)
  {
    var g := snap.generation;
    MailboxesGrow(states, steps, i, j);
    assert states[j + 1] == Next(states[j], steps[j]);
    CloseStep(states[j], g, Some(snap.revision));
    if states[j].mailboxes[g].revision == snap.revision {
      NoneDelivered(states, steps, g, i, j);
    } else if forall m | i <= m < j :: !Delivered(states[m], steps[m], g) {
      Undelivered(states, steps, g, i, j);
    }
  }

  /** A close without a condition always closes. */
  lemma CloseAlways(states: seq<State>, steps: seq<Step>, generation: nat, j: nat)
    requires Run(states, steps) && j < |steps| && steps[j] == Close(generation, None)
    ensures generation in states[j + 1].mailboxes && states[j + 1].mailboxes[generation].closed
  {
    assert states[j + 1] == Next(states[j], steps[j]);
    CloseStep(states[j], generation, None);
  }

  /** A key keeps its open mailbox until that is closed or the key is dropped, however often it is registered. */
  lemma {:induction false} RegistrationKept(states: seq<State>, steps: seq<Step>, key: string, g: nat, i: nat, k: nat)
    requires Run(states, steps) && i <= k <= |steps|
    requires key in states[i].current && states[i].current[key] == g
    requires g in states[i].mailboxes && !states[i].mailboxes[g].closed
    requires forall m | i <= m < k :: steps[m] != Drop(key) && !(steps[m].Close? && steps[m].generation == g)
    ensures key in states[k].current && states[k].current[key] == g
    ensures g in states[k].mailboxes && !states[k].mailboxes[g].closed
    decreases k
  {
    if i < k {
      RegistrationKept(states, steps, key, g, i, k - 1);
      SoundAt(states, steps, k - 1);
      StepKeepsRegistration(states[k - 1], steps[k - 1], key, g);
    }
  }

  lemma StepKeepsRegistration(s: State, step: Step, key: string, g: nat)
    requires Sound(s) && Enabled(s, step) && step != Drop(key) && !(step.Close? && step.generation == g)
    requires key in s.current && s.current[key] == g && g in s.mailboxes && !s.mailboxes[g].closed
    ensures var t := Next(s, step);
      key in t.current && t.current[key] == g && g in t.mailboxes && !t.mailboxes[g].closed
  {
  }

  /** Registering a key without an open mailbox gives it a new one, open and unnotified. */
  lemma RegisteredAnew(states: seq<State>, steps: seq<Step>, key: string, j: nat)
    requires Run(states, steps) && j < |steps| && steps[j] == Register(key)
    requires key in states[j].current ==>
      states[j].current[key] in states[j].mailboxes && states[j].mailboxes[states[j].current[key]].closed
    ensures key in states[j + 1].current && states[j + 1].current[key] !in states[j].mailboxes
    ensures states[j + 1].current[key] in states[j + 1].mailboxes
    ensures states[j + 1].mailboxes[states[j + 1].current[key]] == Mailbox(key, 0, 0, false, 0)
  {
    SoundAt(states, steps, j);
    assert states[j + 1] == Next(states[j], steps[j]);
  }

  /** A close that was conditional on the revision of a snapshot, and succeeded on the snapshotted mailbox,
      means that nothing was delivered to it since the snapshot, and that nothing ever will be. */
  lemma CloseMeansNothingMissed(states: seq<State>, steps: seq<Step>, key: string, snap: Snapshot, i: nat, j: nat,
                                k: nat)
    requires Run(states, steps) && i <= j < |steps| && SnapshotAt(states[i], key, snap)
    requires steps[j] == Close(snap.generation, Some(snap.revision))
    requires Closes(states[j], snap.generation, Some(snap.revision))
    requires i <= k < |steps|
    ensures !Delivered(states[k], steps[k], snap.generation)
  {
    MailboxesGrow(states, steps, i, j);
    NoneDelivered(states, steps, snap.generation, i, j);
    if k >= j {
      assert states[j + 1] == Next(states[j], steps[j]);
      if k > j {
        MailboxesGrow(states, steps, j + 1, k);
      }
    }
  }

  lemma StaysShut(s: State, step: Step, key: string)
    requires Sound(s) && Enabled(s, step) && !Open(s, key) && step != Register(key)
    ensures !Open(Next(s, step), key)
  {
  }

  /** Until the key is registered again, no notification of it is delivered at all. */
  lemma {:induction false} ClosedUntilRegistered(states: seq<State>, steps: seq<Step>, key: string, j: nat, k: nat)
    requires Run(states, steps) && Unregisters(states, steps) && j <= k < |steps| && !Open(states[j], key)
    requires forall m | j <= m < k :: steps[m] != Register(key)
    ensures !Open(states[k], key)
    ensures forall g | Delivered(states[k], steps[k], g) :: states[k].mailboxes[g].key != key
    decreases k
  {
    UnregisteredIsClosed(states, steps);
    OnlyRegisteredAreOpen(states, steps, k);
    if j < k {
      ClosedUntilRegistered(states, steps, key, j, k - 1);
      SoundAt(states, steps, k - 1);
      StaysShut(states[k - 1], steps[k - 1], key);
    }
  }

  lemma {:induction false} RevisionHasCause(states: seq<State>, steps: seq<Step>, generation: nat, i: nat, j: nat)
    requires Run(states, steps) && i <= j <= |steps| && generation !in states[i].mailboxes
    requires generation in states[j].mailboxes && states[j].mailboxes[generation].revision > 0
    ensures exists m :: i <= m < j && Delivered(states[m], steps[m], generation)
    decreases j
  {
    if i < j {
      var s, step := states[j - 1], steps[j - 1];
      assert states[j] == Next(s, step);
      if !Delivered(s, step, generation) {
        RevisionHasCause(states, steps, generation, i, j - 1);
      }
    }
  }

  lemma {:induction false} NoCauseNoRevision(states: seq<State>, steps: seq<Step>, generation: nat, i: nat, j: nat)
    requires Run(states, steps) && i <= j <= |steps| && generation !in states[i].mailboxes
    requires generation in states[j].mailboxes && states[j].mailboxes[generation].revision == 0
    ensures forall m | i <= m < j :: !Delivered(states[m], steps[m], generation)
  {
    forall m | i <= m < j ensures !Delivered(states[m], steps[m], generation) {
      MailboxesGrow(states, steps, m + 1, j);
      assert states[m + 1] == Next(states[m], steps[m]);
    }
  }

  /** The condition looks at the revision only. When the key was registered again in between, a close that
      succeeds has overlooked a delivered notification exactly when the revision is not zero. */
  lemma CloseOnLaterMailbox(states: seq<State>, steps: seq<Step>, key: string, snap: Snapshot, generation: nat, i: nat,
                            j: nat)
    requires Run(states, steps) && i <= j < |steps| && SnapshotAt(states[i], key, snap)
    requires generation !in states[i].mailboxes && generation in states[j].mailboxes
    requires Closes(states[j], generation, Some(snap.revision))
    ensures (exists m :: i <= m < j && Delivered(states[m], steps[m], generation)) <==> snap.revision > 0
  {
    if snap.revision > 0 {
      RevisionHasCause(states, steps, generation, i, j);
    } else {
      NoCauseNoRevision(states, steps, generation, i, j);
    }
  }
}
