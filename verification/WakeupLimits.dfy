/** Why `unregister` must not suspend between its close and its removal: a run that the code cannot take, because it
    never suspends while it holds the lock of a mailbox, in which a notification is delivered to nobody. */
module WakeupLimits {
  import opened Options
  import opened Wakeup

  lemma Extend(states: seq<State>, steps: seq<Step>, step: Step, t: State)
    requires Run(states, steps) && Enabled(states[|steps|], step) && t == Next(states[|steps|], step)
    ensures Run(states + [t], steps + [step])
  {
  }

  const MAILBOX := Mailbox("k", 0, 0, false, 0)

  /** The first mailbox is closed and replaced, and an `unregister` suspended after its lookup closes it once more. */
  lemma ClosedTwice() returns (states: seq<State>, steps: seq<Step>)
    ensures Run(states, steps) && steps == [Register("k"), Close(1, None), Register("k"), Close(1, None)]
    ensures states[4] == State(map[1 := MAILBOX.(closed := true), 2 := MAILBOX], map["k" := 2], 2, [])
  {
    var closed := MAILBOX.(closed := true);
    var s1 := State(map[1 := MAILBOX], map["k" := 1], 1, []);
    var s2 := s1.(mailboxes := map[1 := closed]);
    var s3 := State(map[1 := closed, 2 := MAILBOX], map["k" := 2], 2, []);
    assert WokenAll([], 1) == [];
    Extend([INITIAL], [], Register("k"), s1);
    Extend([INITIAL, s1], [Register("k")], Close(1, None), s2);
    Extend([INITIAL, s1, s2], [Register("k"), Close(1, None)], Register("k"), s3);
    Extend([INITIAL, s1, s2, s3], [Register("k"), Close(1, None), Register("k")], Close(1, None), s3);
    states, steps := [INITIAL, s1, s2, s3, s3], [Register("k"), Close(1, None), Register("k"), Close(1, None)];
  }

  /** That `unregister` would then remove the mailbox registered after the one it has closed. The mailbox would stay
      open without a key, and a notification that had already looked it up would be delivered to nobody. */
  lemma StaleDropLosesWakeup() returns (states: seq<State>, steps: seq<Step>, snap: Snapshot)
    ensures Run(states, steps) && !Unregisters(states, steps)
    ensures steps ==
      [Register("k"), Close(1, None), Register("k"), Close(1, None), Drop("k"), Register("k"), Notify(2, true)]
    ensures SnapshotAt(states[6], "k", snap) && Delivered(states[6], steps[6], 2) && states[6].mailboxes[2].key == "k"
    ensures !AnswersAtOnce(states[7], "k", snap, false)
  {
    var earlier, fewer := ClosedTwice();
    var s4 := earlier[4];
    var s5 := s4.(current := map[]);
    assert s4.current - {"k"} == map[];
    var s6 := State(s4.mailboxes[3 := MAILBOX], map["k" := 3], 3, []);
    var s7 := s6.(mailboxes := s6.mailboxes[2 := Mailbox("k", 1, 1, false, 0)]);
    assert WokenAll([], 2) == [];
    Extend(earlier, fewer, Drop("k"), s5);
    Extend(earlier + [s5], fewer + [Drop("k")], Register("k"), s6);
    Extend(earlier + [s5] + [s6], fewer + [Drop("k")] + [Register("k")], Notify(2, true), s7);
    states, steps := earlier + [s5] + [s6] + [s7], fewer + [Drop("k")] + [Register("k")] + [Notify(2, true)];
    snap := Snapshot(0, 0, false, 3);
    assert steps[4].Drop? && steps[4].key in states[4].current && steps[3] == Close(1, None);
  }
}
