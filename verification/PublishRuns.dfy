/** Whole runs of snapshots, publishes and parent edits: what a committed write overwrites. */
module PublishRuns {
  import opened Options
  import opened Publishing

  /** `copies` holds what each child was given. */
  datatype State = State(parent: Tree, walks: map<nat, Walk>, copies: map<nat, Tree>, baselines: map<nat, Baseline>)

  /** A snapshot takes no lock, so that each of its looks at the parent is an event of its own.
      `Refused` is a publish that raised after a complete rollback, or before touching anything; `Broken` is one
      whose rollback failed for some targets. */
  datatype Event =
    | Start(id: nat)
    | Look(id: nat, step: WalkStep)
    | Register(id: nat)
    | Edit
    | Publish(id: nat, writes: Tree)
    | Refused
    | Broken(id: nat, writes: Tree)
    | Forget(id: nat)

  ghost predicate Enabled(s: State, e: Event) {
    match e
    case Start(id) => id !in s.walks && id !in s.baselines
    case Look(id, step) => id in s.walks && MayLook(s.walks[id], s.parent, step)
    case Register(id) => id in s.walks && id !in s.baselines && s.walks[id].names == s.walks[id].manifest.Keys
    case Edit => true
    case Publish(id, writes) => id in s.baselines && Current(s.parent, s.baselines[id], writes)
    case Refused => true
    case Broken(id, writes) => id in s.baselines && Current(s.parent, s.baselines[id], writes)
    case Forget(_) => true
  }

  /** The effects of the looks of `Create` and of its end, of a `PublishArtifacts` during which nobody writes past the
      lock, of any edit of the parent, and of dropping a snapshot or giving one up. */
  ghost predicate Step(s: State, e: Event, t: State) {
    && Enabled(s, e)
    && match e
       case Start(id) => t == s.(walks := s.walks[id := NEW_WALK])
       case Look(id, step) => t == s.(walks := s.walks[id := Looked(s.walks[id], s.parent, step)])
       case Register(id) =>
         t == s.(walks := s.walks - {id}, copies := s.copies[id := s.walks[id].copy],
                 baselines := s.baselines[id := s.walks[id].manifest])
       case Edit => t == s.(parent := t.parent)
       case Publish(id, writes) => t == s.(parent := s.parent + writes, baselines := Rebased(s.baselines, id, writes))
       case Refused => t == s
       case Broken(id, writes) =>
         && t == s.(parent := t.parent)
         && forall p: Path :: Lookup(t.parent, p) == Lookup(s.parent, p)
                              || (p in writes && Lookup(t.parent, p) == Some(writes[p]))
       case Forget(id) => t == s.(walks := s.walks - {id}, copies := s.copies - {id}, baselines := s.baselines - {id})
  }

  function EventOf(r: Outcome, id: nat, writes: Tree): Event {
    match r
    case Published => Publish(id, writes)
    case Raised => Refused
    case NeedsRecovery(_) => Broken(id, writes)
  }

  /** A finished publish without outside writers is one step of a run. */
  lemma PublishIsStep(s: State, now: Files, baselines: map<nat, Baseline>, r: Outcome, id: nat, writes: Tree)
    requires id in s.baselines && forall p: Path :: AllOrNothing(s.parent, now, r, s.baselines[id], writes, p)
    requires !r.Raised? ==> Current(s.parent, s.baselines[id], writes)
    requires baselines == if r.Published? then Rebased(s.baselines, id, writes) else s.baselines
    ensures Step(s, EventOf(r, id, writes), s.(parent := ParentTree(now), baselines := baselines))
  {
    var after := ParentTree(now);
    match r
    case Published =>
      forall p: Path ensures Lookup(after, p) == Lookup(s.parent + writes, p) {
        assert AllOrNothing(s.parent, now, r, s.baselines[id], writes, p);
      }
      SameLookups(after, s.parent + writes);
    case Raised =>
      forall p: Path ensures Lookup(after, p) == Lookup(s.parent, p) {
        assert AllOrNothing(s.parent, now, r, s.baselines[id], writes, p);
      }
      SameLookups(after, s.parent);
    case NeedsRecovery(_) =>
      forall p: Path
        ensures Lookup(after, p) == Lookup(s.parent, p) || (p in writes && Lookup(after, p) == Some(writes[p]))
      {
        assert AllOrNothing(s.parent, now, r, s.baselines[id], writes, p);
      }
  }

  /******* A call of `Create` as part of a run *******/

  /** The snapshot after the looks of a trace, over the parent tree of its last look. */
  ghost function During(s: State, id: nat, r: Trace): State
    requires Proper(r)
  {
    s.(parent := r.tree, walks := s.walks[id := WalkOf(r)])
  }

  /** Each look, after an edit by foreign writers, is one event of a run. */
  lemma LookIsStep(s: State, id: nat, r: Trace)
    requires Proper(r) && r.After?
    ensures var edited := During(s, id, r.earlier).(parent := r.tree);
      && Step(During(s, id, r.earlier), Edit, edited)
      && Step(edited, Look(id, r.step), During(s, id, r))
  {
    var w := WalkOf(r.earlier);
    assert s.walks[id := w][id := WalkOf(r)] == s.walks[id := WalkOf(r)];
  }

  ghost predicate Linked(states: seq<State>, events: seq<Event>) {
    |states| == |events| + 1 && forall i | 0 <= i < |events| :: Step(states[i], events[i], states[i + 1])
  }

  lemma OneMoreStep(states: seq<State>, events: seq<Event>, e: Event, t: State)
    requires Linked(states, events) && Step(states[|events|], e, t)
    ensures Linked(states + [t], events + [e])
  {
  }

  lemma {:induction false} LooksAreSteps(s: State, id: nat, r: Trace) returns (states: seq<State>, events: seq<Event>)
    requires id !in s.walks && id !in s.baselines && Proper(r) && s.parent == First(r)
    ensures Linked(states, events) && states[0] == s && states[|events|] == During(s, id, r)
  {
    if r.Begin? {
      states, events := [s, During(s, id, r)], [Start(id)];
    } else {
      states, events := LooksAreSteps(s, id, r.earlier);
      LookIsStep(s, id, r);
      var edited := During(s, id, r.earlier).(parent := r.tree);
      OneMoreStep(states, events, Edit, edited);
      states, events := states + [edited], events + [Edit];
      OneMoreStep(states, events, Look(id, r.step), During(s, id, r));
      states, events := states + [During(s, id, r)], events + [Look(id, r.step)];
    }
  }

  /** A finished `Create`, with whatever foreign writers did during it, is a stretch of a run: it leaves the parent as
      its last look saw it and registers what it took. */
  lemma CreateIsSteps(s: State, id: nat, r: Trace, done: iset<Path>, copy: Tree, manifest: Baseline)
    returns (states: seq<State>, events: seq<Event>)
    requires id !in s.walks && id !in s.baselines && s.parent == First(r) && Taken(r, done, {}, copy, manifest)
    ensures Linked(states, events) && events != [] && events[|events| - 1] == Register(id)
    ensures states[0] == s
    ensures states[|events|] ==
      s.(parent := r.tree, copies := s.copies[id := copy], baselines := s.baselines[id := manifest])
  {
    states, events := LooksAreSteps(s, id, r);
    var t := s.(parent := r.tree, copies := s.copies[id := copy], baselines := s.baselines[id := manifest]);
    assert s.walks[id := WalkOf(r)] - {id} == s.walks;
    OneMoreStep(states, events, Register(id), t);
    states, events := states + [t], events + [Register(id)];
  }

  ghost predicate Run(states: seq<State>, events: seq<Event>) {
    && Linked(states, events)
    && states[0].walks == map[] && states[0].copies == map[] && states[0].baselines == map[]
  }

  /******* What a baseline records *******/

  ghost predicate Wrote(e: Event, id: nat, p: Path) {
    e.Publish? && e.id == id && p in e.writes
  }

  /** The event settles what the snapshot records of the path: its digest, or its absence. */
  ghost predicate Settles(s: State, e: Event, id: nat, p: Path) {
    || e == Look(id, Note(p))
    || e == Look(id, Skip(p))
    || (e.Look? && e.id == id && e.step.List? && p in e.step.directory && p !in s.parent)
  }

  /** Some earlier event of `id` left the given digest of `p`: the second read of its snapshot, or its own write. */
  ghost predicate Recorded(states: seq<State>, events: seq<Event>, id: nat, p: Path, d: Digest, k: nat)
    requires |states| == |events| + 1 && k <= |events|
  {
    exists i :: 0 <= i < k && (events[i] == Look(id, Note(p)) || Wrote(events[i], id, p))
                && p in states[i + 1].parent && Sha256(states[i + 1].parent[p]) == d
  }

  ghost function RecordOf(s: State, id: nat, p: Path): Option<Digest> {
    if id in s.baselines then Lookup(s.baselines[id], p)
    else if id in s.walks then Lookup(s.walks[id].manifest, p) else None
  }

  lemma RecordedLater(states: seq<State>, events: seq<Event>, id: nat, p: Path, d: Digest, j: nat, k: nat)
    requires |states| == |events| + 1 && j <= k <= |events| && Recorded(states, events, id, p, d, j)
    ensures Recorded(states, events, id, p, d, k)
  {
  }

  lemma RecordChanges(s: State, e: Event, t: State, id: nat, p: Path)
    requires Step(s, e, t) && Apart(s) && RecordOf(t, id, p).Some?
    ensures if e == Look(id, Note(p)) || Wrote(e, id, p) then
        p in t.parent && RecordOf(t, id, p) == Some(Sha256(t.parent[p]))
      else RecordOf(s, id, p) == RecordOf(t, id, p)
  {
  }

  /** No id is both on its way and registered. */
  ghost predicate Apart(s: State) {
    && (forall id | id in s.walks :: id !in s.baselines)
    && (forall id | id in s.baselines :: id in s.copies)
    && (forall id | id in s.walks :: var w := s.walks[id];
          w.manifest.Keys <= w.copy.Keys && w.copy.Keys <= w.names && forall p | p in w.names :: p in w.listed)
  }

  lemma StepKeepsApart(s: State, e: Event, t: State)
    requires Apart(s) && Step(s, e, t)
    ensures Apart(t)
  {
  }

  lemma {:induction false} AlwaysApart(states: seq<State>, events: seq<Event>, k: nat)
    requires Run(states, events) && k <= |events|
    ensures Apart(states[k])
  {
    if k > 0 {
      AlwaysApart(states, events, k - 1);
      StepKeepsApart(states[k - 1], events[k - 1], states[k - 1 + 1]);
    }
  }

  /** Every record is the digest of what the parent had at the second read, or of the child's own write. */
  lemma {:induction false} BaselineSeen(states: seq<State>, events: seq<Event>, id: nat, p: Path, k: nat)
    requires Run(states, events) && k <= |events| && RecordOf(states[k], id, p).Some?
    ensures Recorded(states, events, id, p, RecordOf(states[k], id, p).value, k)
  {
    if k > 0 {
      var e := events[k - 1];
      AlwaysApart(states, events, k - 1);
      RecordChanges(states[k - 1], e, states[k - 1 + 1], id, p);
      if !(e == Look(id, Note(p)) || Wrote(e, id, p)) {
        BaselineSeen(states, events, id, p, k - 1);
        RecordedLater(states, events, id, p, RecordOf(states[k], id, p).value, k - 1, k);
      }
    }
  }

  /******* No lost updates *******/

  /** The child of `id` knows the content: its snapshot copied it, or it wrote it itself. */
  ghost predicate Known(states: seq<State>, events: seq<Event>, id: nat, p: Path, c: Content, k: nat)
    requires |states| == |events| + 1 && k <= |events|
  {
    exists i :: 0 <= i < k && (events[i] == Look(id, Copy(p)) || Wrote(events[i], id, p))
                && Lookup(states[i + 1].parent, p) == Some(c)
  }

  /** At the second read of `p` the file is as it was copied. */
  ghost predicate Steady(s: State, e: Event, id: nat, p: Path) {
    e == Look(id, Note(p)) && id in s.walks ==> Lookup(s.walks[id].copy, p) == Lookup(s.parent, p)
  }

  lemma CopyChanges(s: State, e: Event, t: State, id: nat, p: Path)
    requires Step(s, e, t) && id in t.walks && p in t.walks[id].copy
    ensures if e == Look(id, Copy(p)) then Lookup(t.parent, p) == Some(t.walks[id].copy[p])
      else id in s.walks && p in s.walks[id].copy && s.walks[id].copy[p] == t.walks[id].copy[p]
  {
  }

  lemma {:induction false} CopyIsKnown(states: seq<State>, events: seq<Event>, id: nat, p: Path, k: nat)
    requires Run(states, events) && k <= |events| && id in states[k].walks && p in states[k].walks[id].copy
    ensures Known(states, events, id, p, states[k].walks[id].copy[p], k)
  {
    if k > 0 {
      CopyChanges(states[k - 1], events[k - 1], states[k - 1 + 1], id, p);
      if events[k - 1] != Look(id, Copy(p)) {
        CopyIsKnown(states, events, id, p, k - 1);
        KnownLater(states, events, id, p, states[k].walks[id].copy[p], k - 1, k);
      }
    }
  }

  lemma KnownLater(states: seq<State>, events: seq<Event>, id: nat, p: Path, c: Content, j: nat, k: nat)
    requires |states| == |events| + 1 && j <= k <= |events| && Known(states, events, id, p, c, j)
    ensures Known(states, events, id, p, c, k)
  {
  }

  /** No lost updates: as long as no file changes between its two reads, every content a publish overwrites is one
      its own child knows. */
  lemma NoLostUpdates(states: seq<State>, events: seq<Event>, k: nat, p: Path)
    requires Run(states, events) && k < |events| && (events[k].Publish? || events[k].Broken?)
    requires forall j | 0 <= j < k :: Steady(states[j], events[j], events[k].id, p)
    requires p in states[k].parent && Lookup(states[k + 1].parent, p) != Some(states[k].parent[p])
    ensures Known(states, events, events[k].id, p, states[k].parent[p], k)
  {
    assert Step(states[k], events[k], states[k + 1]);
    var id, c := events[k].id, states[k].parent[p];
    assert Untouched(states[k].parent, p, Lookup(states[k].baselines[id], p));
    BaselineSeen(states, events, id, p, k);
    RecordedIsKnown(states, events, id, p, c, k);
  }

  lemma RecordedIsKnown(states: seq<State>, events: seq<Event>, id: nat, p: Path, c: Content, k: nat)
    requires Run(states, events) && k <= |events| && Recorded(states, events, id, p, Sha256(c), k)
    requires forall j | 0 <= j < k :: Steady(states[j], events[j], id, p)
    ensures Known(states, events, id, p, c, k)
  {
    var i :| 0 <= i < k && (events[i] == Look(id, Note(p)) || Wrote(events[i], id, p))
      && p in states[i + 1].parent && Sha256(states[i + 1].parent[p]) == Sha256(c);
    assert Step(states[i], events[i], states[i + 1]);
    if events[i] == Look(id, Note(p)) {
      CopyIsKnown(states, events, id, p, i);
      KnownLater(states, events, id, p, c, i, k);
    }
  }

  /******* What a first publish overwrites *******/

  /** Nothing drops the snapshot, and it writes nothing to the path. */
  ghost predicate Undisturbed(events: seq<Event>, id: nat, p: Path, i: nat, k: nat)
    requires k <= |events|
  {
    forall j | i < j < k :: events[j] != Forget(id) && !Wrote(events[j], id, p)
  }

  ghost function CopyOf(s: State, id: nat, p: Path): Option<Content> {
    if id in s.baselines && id in s.copies then Lookup(s.copies[id], p)
    else if id in s.walks then Lookup(s.walks[id].copy, p) else None
  }

  /** The path is settled: its record and its copy are what they will be. */
  ghost predicate Held(s: State, id: nat, p: Path, d: Option<Digest>, c: Option<Content>) {
    && (id in s.walks || id in s.baselines)
    && RecordOf(s, id, p) == d && CopyOf(s, id, p) == c
    && (id in s.walks ==> p in s.walks[id].listed && (d.None? ==> p !in s.walks[id].names))
  }

  lemma LookHolds(w: Walk, t: Tree, step: WalkStep, p: Path, d: Option<Digest>, c: Option<Content>)
    requires MayLook(w, t, step) && w.manifest.Keys <= w.copy.Keys <= w.names
    requires p in w.listed && (d.None? ==> p !in w.names) && Lookup(w.manifest, p) == d && Lookup(w.copy, p) == c
    ensures var v := Looked(w, t, step);
      p in v.listed && (d.None? ==> p !in v.names) && Lookup(v.manifest, p) == d && Lookup(v.copy, p) == c
  {
  }

  lemma StepHolds(s: State, e: Event, t: State, id: nat, p: Path, d: Option<Digest>, c: Option<Content>)
    requires Step(s, e, t) && Apart(s) && Held(s, id, p, d, c) && e != Forget(id) && !Wrote(e, id, p)
    ensures Held(t, id, p, d, c)
  {
    if e.Look? && e.id == id && id in s.walks {
      LookHolds(s.walks[id], s.parent, e.step, p, d, c);
    }
  }

  lemma Settled(s: State, e: Event, t: State, id: nat, p: Path)
    requires Step(s, e, t) && Apart(s) && Settles(s, e, id, p)
    ensures Held(t, id, p, Lookup(Digests(s.parent), p), if e == Look(id, Note(p)) then CopyOf(s, id, p) else None)
  {
  }

  /** What was settled stands until the child writes the path or is dropped. */
  lemma {:induction false} RecordStands(states: seq<State>, events: seq<Event>, id: nat, p: Path, i: nat, k: nat)
    requires Run(states, events) && i < k <= |events|
    requires Settles(states[i], events[i], id, p) && Undisturbed(events, id, p, i, k)
    ensures Held(states[k], id, p, Lookup(Digests(states[i].parent), p),
                 if events[i] == Look(id, Note(p)) then CopyOf(states[i], id, p) else None)
    decreases k
  {
    AlwaysApart(states, events, k - 1);
    if k == i + 1 {
      Settled(states[i], events[i], states[i + 1], id, p);
    } else {
      RecordStands(states, events, id, p, i, k - 1);
      StepHolds(states[k - 1], events[k - 1], states[k - 1 + 1], id, p, Lookup(Digests(states[i].parent), p),
                if events[i] == Look(id, Note(p)) then CopyOf(states[i], id, p) else None);
    }
  }

  /** A first publish of `p` goes through only over what was there when the snapshot settled it, absence included. */
  lemma FirstPublish(states: seq<State>, events: seq<Event>, i: nat, k: nat, p: Path)
    requires Run(states, events) && i < k < |events|
    requires events[k].Publish? && p in events[k].writes
    requires Settles(states[i], events[i], events[k].id, p) && Undisturbed(events, events[k].id, p, i, k)
    ensures Lookup(states[k].parent, p) == Lookup(states[i].parent, p)
  {
    assert Step(states[k], events[k], states[k + 1]);
    RecordStands(states, events, events[k].id, p, i, k);
    assert Untouched(states[k].parent, p, Lookup(states[k].baselines[events[k].id], p));
  }

  /** It overwrites what the child was given if and only if the file was the same at its two reads. */
  lemma OverwritesCopyIff(states: seq<State>, events: seq<Event>, i: nat, k: nat, p: Path)
    requires Run(states, events) && i < k < |events|
    requires events[k].Publish? && p in events[k].writes
    requires events[i] == Look(events[k].id, Note(p)) && Undisturbed(events, events[k].id, p, i, k)
    ensures Lookup(states[k].parent, p) == CopyOf(states[k], events[k].id, p) <==>
      Steady(states[i], events[i], events[k].id, p)
  {
    assert Step(states[i], events[i], states[i + 1]);
    FirstPublish(states, events, i, k, p);
    AlwaysApart(states, events, i);
    RecordStands(states, events, events[k].id, p, i, k);
  }

  /** Without a change of the file between its two reads, they agree. */
  lemma {:induction false} UneditedIsSteady(states: seq<State>, events: seq<Event>, id: nat, p: Path, i: nat, k: nat)
    requires Run(states, events) && i < k < |events| && events[i] == Look(id, Copy(p)) && events[k] == Look(id, Note(p))
    requires forall j | i < j < k :: events[j] != Forget(id) && events[j] != Register(id)
    requires forall j | i < j <= k :: Lookup(states[j].parent, p) == Lookup(states[i].parent, p)
    ensures Steady(states[k], events[k], id, p)
  {
    CopyStands(states, events, id, p, i, k);
    assert Step(states[i], events[i], states[i + 1]);
  }

  lemma StepKeepsCopy(s: State, e: Event, t: State, id: nat, p: Path)
    requires Step(s, e, t) && id in s.walks && p in s.walks[id].copy && e != Forget(id) && e != Register(id)
    ensures id in t.walks && Lookup(t.walks[id].copy, p) == Lookup(s.walks[id].copy, p)
  {
  }

  lemma {:induction false} CopyStands(states: seq<State>, events: seq<Event>, id: nat, p: Path, i: nat, k: nat)
    requires Run(states, events) && i < k <= |events| && events[i] == Look(id, Copy(p))
    requires forall j | i < j < k :: events[j] != Forget(id) && events[j] != Register(id)
    ensures id in states[k].walks && Lookup(states[k].walks[id].copy, p) == Lookup(states[i].parent, p)
    decreases k
  {
    assert Step(states[k - 1], events[k - 1], states[k - 1 + 1]);
    if k > i + 1 {
      assert Step(states[i], events[i], states[i + 1]);
      CopyStands(states, events, id, p, i, k - 1);
      StepKeepsCopy(states[k - 1], events[k - 1], states[k - 1 + 1], id, p);
    }
  }

  /******* Of two children at most one commits *******/

  /** Nothing between two moments gives `p` its old content back. */
  ghost predicate NotReverted(states: seq<State>, events: seq<Event>, p: Path, original: Option<Content>, i: nat,
                              k: nat)
    requires |states| == |events| + 1 && k <= |events|
  {
    forall j | i <= j < k && Lookup(states[j].parent, p) != original :: Lookup(states[j + 1].parent, p) != original
  }

  lemma {:induction false} StaysChanged(states: seq<State>, events: seq<Event>, p: Path, original: Option<Content>,
                                        i: nat, k: nat)
    requires Run(states, events) && i <= k <= |events| && NotReverted(states, events, p, original, i, k)
    requires Lookup(states[i].parent, p) != original
    ensures Lookup(states[k].parent, p) != original
    decreases k
  {
    if k > i {
      StaysChanged(states, events, p, original, i, k - 1);
    }
  }

  /** Of two children whose snapshots recorded the same content of `p`, once one of them has committed a different
      content, the other cannot commit `p` unless somebody puts the old content back. */
  lemma AtMostOneCommits(states: seq<State>, events: seq<Event>, p: Path, a: nat, b: nat, first: nat, second: nat)
    requires Run(states, events) && a < first < second < |events| && b < second
    requires events[first].Publish? && p in events[first].writes
    requires events[second].Publish? && p in events[second].writes
    requires events[first].id != events[second].id
    requires Settles(states[a], events[a], events[first].id, p) && Settles(states[b], events[b], events[second].id, p)
    requires Lookup(states[a].parent, p) == Lookup(states[b].parent, p)
    requires Some(events[first].writes[p]) != Lookup(states[a].parent, p)
    requires Undisturbed(events, events[second].id, p, b, second)
    ensures !NotReverted(states, events, p, Lookup(states[a].parent, p), first + 1, second)
  {
    assert Step(states[first], events[first], states[first + 1]);
    FirstPublish(states, events, b, second, p);
    if NotReverted(states, events, p, Lookup(states[a].parent, p), first + 1, second) {
      StaysChanged(states, events, p, Lookup(states[a].parent, p), first + 1, second);
    }
  }

  /******* A run that falls outside *******/

  const OLD: Tree := map["f" := "old"]
  const THEIRS: Tree := map["f" := "theirs"]
  const MINE: Tree := map["f" := "mine"]

  /** A snapshot of one file that is edited between its two reads. */
  function TornState(n: nat): State {
    if n == 0 then State(OLD, map[], map[], map[])
    else if n == 1 then State(OLD, map[1 := NEW_WALK], map[], map[])
    else if n == 2 then State(OLD, map[1 := Walk(iset{"f"}, {"f"}, map[], map[])], map[], map[])
    else if n == 3 then State(OLD, map[1 := Walk(iset{"f"}, {"f"}, OLD, map[])], map[], map[])
    else if n == 4 then State(THEIRS, map[1 := Walk(iset{"f"}, {"f"}, OLD, map[])], map[], map[])
    else if n == 5 then State(THEIRS, map[1 := Walk(iset{"f"}, {"f"}, OLD, Digests(THEIRS))], map[], map[])
    else if n == 6 then State(THEIRS, map[], map[1 := OLD], map[1 := Digests(THEIRS)])
    else State(MINE, map[], map[1 := OLD], map[1 := Digests(MINE)])
  }

  const TORN: seq<Event> :=
    [Start(1), Look(1, List(iset{"f"})), Look(1, Copy("f")), Edit, Look(1, Note("f")), Register(1), Publish(1, MINE)]

  lemma TornBegins()
    ensures forall n | 0 <= n < 4 :: Step(TornState(n), TORN[n], TornState(n + 1))
  {
    assert Looked(NEW_WALK, OLD, List(iset{"f"})) == Walk(iset{"f"}, {"f"}, map[], map[]);
  }

  lemma TornRecords()
    ensures Step(TornState(4), TORN[4], TornState(5))
  {
    assert map["f" := Sha256("theirs")] == Digests(THEIRS);
  }

  lemma TornRegisters()
    ensures Step(TornState(5), TORN[5], TornState(6))
  {
  }

  lemma TornPublishes()
    ensures Step(TornState(6), TORN[6], TornState(7))
  {
    assert THEIRS + MINE == MINE && Digests(THEIRS) + Digests(MINE) == Digests(MINE);
    assert Rebased(map[1 := Digests(THEIRS)], 1, MINE) == map[1 := Digests(MINE)];
  }

  /** An edit between the two reads of a file: the snapshot gives the child the old content and records the digest
      of the new one, so that the child's publish overwrites an edit it never saw. */
  lemma EditBetweenReads() returns (states: seq<State>)
    ensures Run(states, TORN)
    ensures TORN[2..] == [Look(1, Copy("f")), Edit, Look(1, Note("f")), Register(1), Publish(1, MINE)]
    ensures states[6].parent == THEIRS && states[7].parent == MINE && !Known(states, TORN, 1, "f", THEIRS["f"], 6)
  {
    states := seq(8, i requires 0 <= i < 8 => TornState(i));
    TornRun(states);
    TornUnknown(states);
  }

  lemma TornRun(states: seq<State>)
    requires |states| == 8 && forall i | 0 <= i < 8 :: states[i] == TornState(i)
    ensures Run(states, TORN)
  {
    TornBegins();
    TornRecords();
    TornRegisters();
    TornPublishes();
  }

  /** The copy of the old content is all that the child knows. */
  lemma TornUnknown(states: seq<State>)
    requires |states| == 8 && states[3].parent == OLD
    ensures !Known(states, TORN, 1, "f", THEIRS["f"], 6)
  {
    assert forall i | 0 <= i < 6 :: TORN[i] == Look(1, Copy("f")) || Wrote(TORN[i], 1, "f") ==> i == 2;
  }

  /******* A child from its snapshot to its publish *******/

  /** The writes are current if the parent has, where the artifacts go, what it had at the snapshot. */
  lemma StillAsSnapshot(resolve: imap<string, Path>, work: Tree, was: Tree, now: Tree, directories: seq<iset<Path>>,
                        artifacts: seq<Artifact>)
    requires Stageable(resolve, work, artifacts)
    requires forall a | a in artifacts && a.requested in resolve ::
      exists d :: d in directories && resolve[a.requested] in d
    ensures Current(now, Digests(Visible(was, Within(directories))), Writes(resolve, artifacts)) <==>
      forall a | a in artifacts && a.requested in resolve ::
        Lookup(now, resolve[a.requested]) == Lookup(was, resolve[a.requested])
  {
    var baseline := Digests(Visible(was, Within(directories)));
    CurrentMeans(resolve, work, now, baseline, artifacts);
    forall a | a in artifacts && a.requested in resolve
      ensures Lookup(Digests(now), resolve[a.requested]) == Lookup(baseline, resolve[a.requested]) <==>
        Lookup(now, resolve[a.requested]) == Lookup(was, resolve[a.requested])
    {
      assert resolve[a.requested] in Within(directories);
    }
  }

  lemma WrittenOver(resolve: imap<string, Path>, work: Tree, now: Tree, after: Tree, artifacts: seq<Artifact>)
    requires Stageable(resolve, work, artifacts)
    requires forall p: Path :: Lookup(after, p) == Lookup(now + Writes(resolve, artifacts), p)
    ensures forall a | a in artifacts && a.requested in resolve ::
      Lookup(after, resolve[a.requested]) == Some(a.sha256.content)
    ensures forall p: Path | (forall a | a in artifacts && a.requested in resolve :: resolve[a.requested] != p) ::
      Lookup(after, p) == Lookup(now, p)
  {
    var writes := Writes(resolve, artifacts);
    forall a | a in artifacts && a.requested in resolve
      ensures Lookup(after, resolve[a.requested]) == Some(a.sha256.content)
    {
      WrittenAt(resolve, work, artifacts, a);
      assert Lookup(now + writes, resolve[a.requested]) == Lookup(writes, resolve[a.requested]);
    }
    forall p: Path | forall a | a in artifacts && a.requested in resolve :: resolve[a.requested] != p
      ensures Lookup(after, p) == Lookup(now, p)
    {
      if p in writes {
        var a := WrittenFor(resolve, work, artifacts, p);
        assert false;
      }
    }
  }

  /** Without faults and foreign writers, a publish that can be staged. */
  method PublishAlone(m: AgentWorkspaceManager, id: nat, artifacts: seq<Artifact>) returns (r: Outcome)
    requires m.Valid() && m.Quiet() && m.FaultlessFrom(m.operations) && id in m.trees && id in m.baselines
    requires Stageable(m.resolve, m.trees[id], artifacts)
    modifies m
    ensures r == if Current(old(ParentTree(m.files)), old(m.baselines)[id], Writes(m.resolve, artifacts)) then Published
      else Raised
    ensures ParentTree(m.files) ==
      if r.Published? then old(ParentTree(m.files)) + Writes(m.resolve, artifacts) else old(ParentTree(m.files))
  {
    ghost var now, writes, first := ParentTree(m.files), Writes(m.resolve, artifacts), 0;
    r, first := m.PublishArtifacts(id, artifacts);
    assert m.Publishable(old(m.files), m.trees, old(m.baselines), id, artifacts) <==>
      Current(now, old(m.baselines)[id], writes);
    if r.Published? {
      forall p: Path ensures Lookup(ParentTree(m.files), p) == Lookup(now + writes, p) {
        assert forall n: nat :: p !in m.outside(n);
        assert AllOrNothing(now, m.files, r, old(m.baselines)[id], writes, p);
      }
      SameLookups(ParentTree(m.files), now + writes);
    }
  }

  /** The second half of what follows: the work of the child and the edit of the parent are there. */
  method PublishWork(m: AgentWorkspaceManager, id: nat, ghost was: Tree, ghost directories: seq<iset<Path>>,
                     artifacts: seq<Artifact>) returns (r: Outcome)
    requires m.Valid() && m.Quiet() && m.FaultlessFrom(m.operations) && id in m.trees && id in m.baselines
    requires m.baselines[id] == Digests(Visible(was, Within(directories)))
    requires Stageable(m.resolve, m.trees[id], artifacts)
    requires forall a | a in artifacts && a.requested in m.resolve ::
      exists d :: d in directories && m.resolve[a.requested] in d
    modifies m
    ensures r == if forall a | a in artifacts && a.requested in m.resolve ::
        Lookup(old(ParentTree(m.files)), m.resolve[a.requested]) == Lookup(was, m.resolve[a.requested])
      then Published else Raised
    ensures r.Published? ==> forall a | a in artifacts && a.requested in m.resolve ::
      Lookup(ParentTree(m.files), m.resolve[a.requested]) == Some(a.sha256.content)
    ensures r.Published? ==>
      forall p: Path | (forall a | a in artifacts && a.requested in m.resolve :: m.resolve[a.requested] != p) ::
        Lookup(ParentTree(m.files), p) == Lookup(old(ParentTree(m.files)), p)
    ensures r.Raised? ==> ParentTree(m.files) == old(ParentTree(m.files))
  {
    ghost var now, work := ParentTree(m.files), m.trees[id];
    StillAsSnapshot(m.resolve, work, was, now, directories, artifacts);
    r := PublishAlone(m, id, artifacts);
    if r.Published? {
      WrittenOver(m.resolve, work, now, ParentTree(m.files), artifacts);
    }
  }

  /** A snapshot is made, the child does its work, the parent may be edited, and the artifacts are published. Without
      faults and without writers at the wrong moment this goes through if and only if the parent still has, where the
      artifacts go, what it had at the snapshot; otherwise it raises and the parent is as it was edited. */
  method CreateAndPublish(m: AgentWorkspaceManager, id: nat, directories: seq<iset<Path>>, work: Tree, edited: Files,
                          artifacts: seq<Artifact>) returns (r: Outcome)
    requires m.Valid() && id !in m.baselines && id !in m.trees
    requires forall i, j | 0 <= i < j < |directories| :: directories[i] !! directories[j]
    requires forall n :: m.behaviour(n) == Completes && m.outside(n) == map[]
    requires forall n: FileName | n.Temporary? :: Lookup(edited, n) == Lookup(m.files, n)
    requires forall a | a in artifacts ::
      && a.requested in m.resolve && Lookup(work, m.resolve[a.requested]) == Some(a.sha256.content)
      && exists d :: d in directories && m.resolve[a.requested] in d
    requires forall i, j | 0 <= i < j < |artifacts| ::
      m.resolve[artifacts[i].requested] != m.resolve[artifacts[j].requested]
    modifies m
    ensures r == if forall a | a in artifacts ::
        Lookup(ParentTree(edited), m.resolve[a.requested]) == Lookup(old(ParentTree(m.files)), m.resolve[a.requested])
      then Published else Raised
    ensures r.Published? ==> forall a | a in artifacts ::
      Lookup(ParentTree(m.files), m.resolve[a.requested]) == Some(a.sha256.content)
    ensures forall p: Path | r.Raised? || (forall a | a in artifacts :: m.resolve[a.requested] != p) ::
      Lookup(ParentTree(m.files), p) == Lookup(ParentTree(edited), p)
  {
    ghost var was := ParentTree(m.files);
    StageableIff(m.resolve, work, artifacts);
    var ok, trace := m.Create(id, directories);
    m.trees, m.files := m.trees[id := work], edited;
    StillValid(old(m.files), edited, m.temporaries);
    r := PublishWork(m, id, was, directories, artifacts);
  }
}
