/** Publishing verified child artifacts into the parent workspace: stage, prepare, revalidate, back up,
    replace, and roll back on failure. */
module Publishing {
  import opened Options

  type Path = string
  type Content = string

  /** SHA-256, idealised as injective: a digest determines the content. */
  datatype Digest = Sha256(content: Content)

  /** A file of the parent tree: one of the workspace's own, or one made by `mkstemp`. */
  datatype FileName = Parent(path: Path) | Temporary(id: nat)

  type Files = map<FileName, Content>
  type Tree = map<Path, Content>
  type Baseline = map<Path, Digest>

  /** What one burst of foreign writes does: new contents, and removals. */
  type Edits = map<Path, Option<Content>>

  /** What the operating system does with one operation: it completes, it raises, or (for a copy) it
      delivers other bytes than those read before. */
  datatype Behaviour = Completes | Raises | Delivers(content: Content)

  datatype Artifact = Artifact(requested: string, sha256: Digest)

  datatype Staged = Staged(content: Content, target: Path, original: Option<Digest>, digest: Digest)

  datatype Prepared = Prepared(temporary: FileName, target: Path, original: Option<Digest>, digest: Digest)

  datatype Outcome = Published | Raised | NeedsRecovery(failures: seq<FileName>)

  function Lookup<K, V>(m: map<K, V>, k: K): Option<V> {
    if k in m then Some(m[k]) else None
  }

  /** What `WorkspacePolicy.resolve` makes of a name: the path it is allowed to stand for, if any. */
  function Resolve(resolve: imap<string, Path>, requested: string): Option<Path> {
    if requested in resolve then Some(resolve[requested]) else None
  }

  /** The workspace's own files. */
  ghost function ParentTree(files: Files): (t: Tree)
    ensures forall p :: p in t <==> Parent(p) in files
    ensures forall p | p in t :: t[p] == files[Parent(p)]
  {
    var keys := set n | n in files && n.Parent? :: n.path;
    map p | p in keys && Parent(p) in files :: files[Parent(p)]
  }

  /** The target still has the content the snapshot was made from, or is still absent. */
  predicate Untouched(parent: Tree, target: Path, original: Option<Digest>) {
    match original
    case None => target !in parent
    case Some(d) => target in parent && Sha256(parent[target]) == d
  }

  ghost predicate DistinctTargets(prepared: seq<Prepared>) {
    forall i, j | 0 <= i < j < |prepared| :: prepared[i].target != prepared[j].target
  }

  /******* What the artifacts ask for *******/

  /** The writes a list of artifacts stands for: target to content. */
  ghost function Writes(resolve: imap<string, Path>, artifacts: seq<Artifact>): (w: Tree) {
    if artifacts == [] then map[]
    else
      var a := artifacts[|artifacts| - 1];
      var rest := Writes(resolve, artifacts[..|artifacts| - 1]);
      if Resolve(resolve, a.requested).None? then rest
      else rest[Resolve(resolve, a.requested).value := a.sha256.content]
  }

  /** Every artifact is inside the allowed paths, names a target of its own, and is in the child's tree
      with the verified content. */
  ghost predicate Stageable(resolve: imap<string, Path>, tree: Tree, artifacts: seq<Artifact>) {
    && (forall i | 0 <= i < |artifacts| ::
          var p := Resolve(resolve, artifacts[i].requested);
          p.Some? && p.value in tree && Sha256(tree[p.value]) == artifacts[i].sha256)
    && (forall i, j | 0 <= i < j < |artifacts| ::
        Resolve(resolve, artifacts[i].requested) != Resolve(resolve, artifacts[j].requested))
  }

  /** The staged copies are those of the artifacts, in order. */
  ghost predicate StagedFor(resolve: imap<string, Path>, baseline: Baseline, artifacts: seq<Artifact>,
                            staged: seq<Staged>) {
    && |staged| == |artifacts|
    && forall i | 0 <= i < |artifacts| ::
         && Resolve(resolve, artifacts[i].requested) == Some(staged[i].target)
         && staged[i].digest == artifacts[i].sha256 == Sha256(staged[i].content)
         && staged[i].original == Lookup(baseline, staged[i].target)
  }

  /** Every target of the writes is as the baseline recorded it. */
  ghost predicate Current(parent: Tree, baseline: Baseline, writes: Tree) {
    forall p | p in writes :: Untouched(parent, p, Lookup(baseline, p))
  }

  function Digests(writes: Tree): (b: Baseline)
    ensures b.Keys == writes.Keys
    ensures forall p | p in b :: b[p] == Sha256(writes[p])
  {
    map p | p in writes :: Sha256(writes[p])
  }

  /** The baselines after a publish: the written targets are as written. */
  ghost function Rebased(baselines: map<nat, Baseline>, id: nat, writes: Tree): map<nat, Baseline> {
    if id in baselines then baselines[id := baselines[id] + Digests(writes)] else baselines
  }

  /** The child's files; nothing is readable where no snapshot is. */
  function TreeOf(trees: map<nat, Tree>, id: nat): Tree {
    if id in trees then trees[id] else map[]
  }

  /** The part of the parent tree a snapshot copies. */
  ghost function Visible(parent: Tree, visible: iset<Path>): (t: Tree)
    ensures forall p :: p in t <==> p in parent && p in visible
    ensures forall p | p in t :: t[p] == parent[p]
  {
    map p | p in parent && p in visible :: parent[p]
  }

  lemma OverlayGrows(baseline: Baseline, writes: Tree, p: Path, content: Content)
    ensures baseline + Digests(writes[p := content]) == (baseline + Digests(writes))[p := Sha256(content)]
  {
  }

  /******* Backups *******/

  /** Files apart from the listed temporaries are as they were. */
  ghost predicate OnlyAdded(was: Files, now: Files, low: nat, high: nat, made: seq<FileName>) {
    && (forall n | n in made :: n.Temporary? && low <= n.id < high)
    && (forall n | n in now :: n in was || n in made)
    && (forall n | n in was :: n in now && now[n] == was[n])
  }

  /** One temporary per staged file, holding its content. */
  ghost predicate AllPrepared(files: Files, staged: seq<Staged>, prepared: seq<Prepared>, made: seq<FileName>) {
    && |made| == |prepared| == |staged|
    && (forall i, j | 0 <= i < j < |made| :: made[i] != made[j])
    && (forall i | 0 <= i < |staged| ::
          && prepared[i] == Prepared(made[i], staged[i].target, staged[i].original, staged[i].digest)
          && made[i] in files && Sha256(files[made[i]]) == staged[i].digest)
  }

  lemma OneMoreAdded(was: Files, mid: Files, now: Files, low: nat, high: nat, made: seq<FileName>)
    requires low <= high && OnlyAdded(was, mid, low, high, made)
    requires forall n | n in was && n.Temporary? :: n.id < low
    requires Temporary(high) in now && now == mid[Temporary(high) := now[Temporary(high)]]
    ensures OnlyAdded(was, now, low, high + 1, made + [Temporary(high)])
  {
  }

  lemma OneMorePrepared(mid: Files, now: Files, staged: seq<Staged>, index: nat, prepared: seq<Prepared>,
                        made: seq<FileName>, high: nat)
    requires index < |staged| && AllPrepared(mid, staged[..index], prepared, made)
    requires forall n | n in mid && n.Temporary? :: n.id < high
    requires Temporary(high) in now && now == mid[Temporary(high) := now[Temporary(high)]]
    requires Sha256(now[Temporary(high)]) == staged[index].digest
    ensures var s := staged[index];
      AllPrepared(now, staged[..index + 1], prepared + [Prepared(Temporary(high), s.target, s.original, s.digest)],
                  made + [Temporary(high)])
  {
  }

  /** A target with an original has a backup holding it; one without has none. */
  ghost predicate BackedUp(files: Files, p: Prepared, backups: map<Path, FileName>) {
    match p.original
    case None => p.target !in backups
    case Some(d) => p.target in backups && backups[p.target] in files && Sha256(files[backups[p.target]]) == d
  }

  /** Files apart from the backups are as they were, and no two targets share a backup. */
  ghost predicate OnlyBackups(was: Files, now: Files, low: nat, high: nat, backups: map<Path, FileName>) {
    && (forall t | t in backups :: backups[t].Temporary? && low <= backups[t].id < high)
    && (forall t, u | t in backups && u in backups && t != u :: backups[t] != backups[u])
    && (forall n | n in now :: n in was || IsBackup(n, backups))
    && (forall n | n in was :: n in now && now[n] == was[n])
  }

  ghost predicate IsBackup(n: FileName, backups: map<Path, FileName>) {
    BackupAmong(n, backups, backups.Keys)
  }

  ghost predicate BackupAmong(n: FileName, backups: map<Path, FileName>, targets: set<Path>) {
    exists t :: t in backups && t in targets && backups[t] == n
  }

  lemma AddBackup(was: Files, mid: Files, now: Files, low: nat, high: nat, backups: map<Path, FileName>, target: Path)
    requires low <= high && OnlyBackups(was, mid, low, high, backups) && target !in backups
    requires forall n | n in was && n.Temporary? :: n.id < low
    requires Temporary(high) in now && now == mid[Temporary(high) := now[Temporary(high)]]
    ensures OnlyBackups(was, now, low, high + 1, backups[target := Temporary(high)])
    ensures forall q: Prepared | q.target != target && BackedUp(mid, q, backups) ::
      BackedUp(now, q, backups[target := Temporary(high)])
  {
    var grown := backups[target := Temporary(high)];
    forall n | n in now ensures n in was || IsBackup(n, grown) {
      if n == Temporary(high) {
        assert grown[target] == n;
      } else if n !in was {
        var t :| t in backups && backups[t] == n;
        assert grown[t] == n;
      }
    }
  }

  /** The targets before `index` are backed up and the others have no backup yet. */
  ghost predicate AllBackedUp(files: Files, prepared: seq<Prepared>, index: nat, backups: map<Path, FileName>)
    requires index <= |prepared|
  {
    && (forall i | 0 <= i < index :: BackedUp(files, prepared[i], backups))
    && (forall i | index <= i < |prepared| :: prepared[i].target !in backups)
  }

  lemma StillBackedUp(mid: Files, now: Files, prepared: seq<Prepared>, index: nat,
                      backups: map<Path, FileName>, grown: map<Path, FileName>)
    requires DistinctTargets(prepared) && index < |prepared| && AllBackedUp(mid, prepared, index, backups)
    requires BackedUp(now, prepared[index], grown)
    requires forall q: Prepared | q.target != prepared[index].target && BackedUp(mid, q, backups) ::
      BackedUp(now, q, grown)
    requires grown.Keys <= backups.Keys + {prepared[index].target}
    ensures AllBackedUp(now, prepared, index + 1, grown)
  {
  }

  lemma SameParents(was: Files, now: Files, low: nat, high: nat, backups: map<Path, FileName>)
    requires OnlyBackups(was, now, low, high, backups)
    ensures ParentTree(now) == ParentTree(was)
  {
    assert forall n | n in now && n !in was :: n.Temporary?;
    assert forall p :: Parent(p) in now <==> Parent(p) in was;
  }

  /******* Rolling back *******/

  /** Where the content of a target is reported to be when rolling it back fails. */
  ghost function Location(p: Prepared, backups: map<Path, FileName>): FileName {
    if p.target in backups then backups[p.target] else Parent(p.target)
  }

  /** The target still holds what this publish wrote. */
  ghost predicate StillOurs(files: Files, p: Prepared) {
    Parent(p.target) in files && Sha256(files[Parent(p.target)]) == p.digest
  }

  /** A replaced target is either reported, with itself and its backup left alone, or restored, which
      only happens to content this publish wrote. */
  ghost predicate Settled(was: Files, now: Files, p: Prepared, backups: map<Path, FileName>, failures: seq<FileName>) {
    if Location(p, backups) in failures then
      && Lookup(now, Parent(p.target)) == Lookup(was, Parent(p.target))
      && Lookup(now, Location(p, backups)) == Lookup(was, Location(p, backups))
    else
      && StillOurs(was, p)
      && Lookup(now, Parent(p.target)) == if p.target in backups then Lookup(was, backups[p.target]) else None
  }

  /** Distinct targets with their own backups, all on disk. */
  ghost predicate Undoable(files: Files, replaced: seq<Prepared>, backups: map<Path, FileName>) {
    && DistinctTargets(replaced)
    && (forall t | t in backups :: backups[t].Temporary?)
    && (forall t, u | t in backups && u in backups && t != u :: backups[t] != backups[u])
    && (forall p | p in replaced && p.target in backups :: backups[p.target] in files)
  }

  ghost predicate Involved(n: FileName, replaced: seq<Prepared>, backups: map<Path, FileName>) {
    exists p :: p in replaced && (n == Parent(p.target) || n == Location(p, backups))
  }

  /** The replaced targets from `index` on are settled, everything else is as it was. */
  ghost predicate RolledBack(was: Files, now: Files, replaced: seq<Prepared>, index: nat,
                             backups: map<Path, FileName>, failures: seq<FileName>)
    requires index <= |replaced|
  {
    && (forall p | p in replaced[index..] :: Settled(was, now, p, backups, failures))
    && (forall f | f in failures :: exists p :: p in replaced[index..] && f == Location(p, backups))
    && (forall n | !Involved(n, replaced[index..], backups) :: Lookup(now, n) == Lookup(was, n))
  }

  /** The effect of undoing one replacement. */
  function Undone(files: Files, p: Prepared, backups: map<Path, FileName>): Files
    requires p.target in backups ==> backups[p.target] in files
  {
    if p.target in backups then (files - {backups[p.target]})[Parent(p.target) := files[backups[p.target]]]
    else files - {Parent(p.target)}
  }

  /** Two replaced targets have no file in common. */
  lemma Apart(files: Files, replaced: seq<Prepared>, backups: map<Path, FileName>, i: nat, p: Prepared)
    requires Undoable(files, replaced, backups) && i < |replaced| && p in replaced[i + 1..]
    ensures Parent(p.target) != Parent(replaced[i].target) && Parent(p.target) != Location(replaced[i], backups)
    ensures Location(p, backups) != Parent(replaced[i].target) && Location(p, backups) != Location(replaced[i], backups)
  {
  }

  lemma RollbackStep(was: Files, mid: Files, now: Files, replaced: seq<Prepared>, index: nat,
                     backups: map<Path, FileName>, failures: seq<FileName>, ok: bool)
    requires Undoable(was, replaced, backups) && index < |replaced|
    requires RolledBack(was, mid, replaced, index + 1, backups, failures)
    requires var p := replaced[index];
      if ok then
        StillOurs(mid, p) && (p.target in backups ==> backups[p.target] in mid) && now == Undone(mid, p, backups)
      else now == mid
    ensures RolledBack(was, now, replaced, index, backups,
                       if ok then failures else failures + [Location(replaced[index], backups)])
  {
    var p := replaced[index];
    var failures' := if ok then failures else failures + [Location(p, backups)];
    assert replaced[index..] == [p] + replaced[index + 1..];
    forall q | q in replaced[index + 1..] ensures Settled(was, now, q, backups, failures') {
      Apart(was, replaced, backups, index, q);
    }
    UntouchedSoFar(was, mid, replaced, index, backups, failures);
    assert Settled(was, now, p, backups, failures');
    forall n | !Involved(n, replaced[index..], backups) ensures Lookup(now, n) == Lookup(was, n) {
      assert p in replaced[index..];
      assert !Involved(n, replaced[index + 1..], backups);
    }
  }

  lemma UntouchedSoFar(was: Files, mid: Files, replaced: seq<Prepared>, index: nat,
                       backups: map<Path, FileName>, failures: seq<FileName>)
    requires Undoable(was, replaced, backups) && index < |replaced|
    requires RolledBack(was, mid, replaced, index + 1, backups, failures)
    ensures var p := replaced[index];
      && Lookup(mid, Parent(p.target)) == Lookup(was, Parent(p.target))
      && Lookup(mid, Location(p, backups)) == Lookup(was, Location(p, backups))
      && Location(p, backups) !in failures
  {
  }

  /******* The locked section after the backups *******/

  /** Temporaries hold the new content, backups the old one, and the targets are still untouched. */
  ghost predicate Committable(files: Files, prepared: seq<Prepared>, backups: map<Path, FileName>) {
    && DistinctTargets(prepared)
    && (forall i, j | 0 <= i < j < |prepared| :: prepared[i].temporary != prepared[j].temporary)
    && (forall p | p in prepared ::
        p.temporary.Temporary? && p.temporary in files && Sha256(files[p.temporary]) == p.digest)
    && (forall p | p in prepared :: Untouched(ParentTree(files), p.target, p.original))
    && (forall p | p in prepared :: BackedUp(files, p, backups))
    && (forall t | t in backups :: backups[t].Temporary?)
    && (forall t, u | t in backups && u in backups && t != u :: backups[t] != backups[u])
    && (forall t, p | t in backups && p in prepared :: backups[t] != p.temporary)
  }

  /** Every reported location belongs to a target, and a reported backup still holds the original. */
  ghost predicate Recoverable(now: Files, prepared: seq<Prepared>, backups: map<Path, FileName>,
                              failures: seq<FileName>) {
    && failures != []
    && (forall f | f in failures :: exists p :: p in prepared && f == Location(p, backups))
    && (forall p | p in prepared && p.target in backups && backups[p.target] in failures ::
          backups[p.target] in now && Some(Sha256(now[backups[p.target]])) == p.original)
  }

  lemma ReportedLocations(now: Files, prepared: seq<Prepared>, backups: map<Path, FileName>, failures: seq<FileName>)
    requires Recoverable(now, prepared, backups, failures)
    ensures forall f | f in failures :: f.Parent? || IsBackup(f, backups)
  {
  }

  /******* Foreign writers *******/

  ghost function Edited(t: Tree, edits: Edits): (r: Tree)
    ensures forall p {:trigger Lookup(r, p)} :: Lookup(r, p) == if p in edits then edits[p] else Lookup(t, p)
  {
    var r := map p | p in t.Keys + edits.Keys && !(p in edits && edits[p].None?) ::
      if p in edits then edits[p].value else t[p];
    assert forall p :: Lookup(r, p) == if p in edits then edits[p] else Lookup(t, p);
    r
  }

  /** The tree after our first `n` moves from operation `first` on, each of them after a burst of foreign writes. */
  ghost function Interleaved(t: Tree, moves: seq<(Path, Content)>, n: nat, outside: nat -> Edits, first: nat): Tree
    requires n <= |moves|
    decreases n, 0
  {
    if n == 0 then t
    else Interrupted(t, moves, n - 1, outside, first)[moves[n - 1].0 := moves[n - 1].1]
  }

  /** The tree when the move number `n` is due. */
  ghost function Interrupted(t: Tree, moves: seq<(Path, Content)>, n: nat, outside: nat -> Edits, first: nat): Tree
    requires n <= |moves|
    decreases n, 1
  {
    Edited(Interleaved(t, moves, n, outside, first), outside(first + n))
  }

  lemma OneMoreMove(now: Tree, edited: Tree, t: Tree, moves: seq<(Path, Content)>, n: nat, outside: nat -> Edits,
                    first: nat, operation: nat)
    requires n < |moves| && operation == first + n && now == Interleaved(t, moves, n, outside, first)
    requires edited == Edited(now, outside(operation))
    ensures edited == Interrupted(t, moves, n, outside, first)
    ensures edited[moves[n].0 := moves[n].1] == Interleaved(t, moves, n + 1, outside, first)
  {
  }

  /** One of the first `n` moves is to the path. */
  ghost predicate Moved(moves: seq<(Path, Content)>, n: nat, p: Path)
    requires n <= |moves|
  {
    exists i :: 0 <= i < n && moves[i].0 == p
  }

  /** A path that foreign writers leave alone holds what was moved there, or what it held. */
  lemma {:induction false} InterleavedAt(t: Tree, moves: seq<(Path, Content)>, n: nat, outside: nat -> Edits,
                                         first: nat, p: Path)
    requires n <= |moves| && forall k: nat :: p !in outside(k)
    ensures !Moved(moves, n, p) ==> Lookup(Interleaved(t, moves, n, outside, first), p) == Lookup(t, p)
    ensures Moved(moves, n, p) ==>
      exists i ::
        0 <= i < n && moves[i].0 == p && Lookup(Interleaved(t, moves, n, outside, first), p) == Some(moves[i].1)
  {
    if n > 0 {
      InterleavedAt(t, moves, n - 1, outside, first, p);
      assert Moved(moves, n - 1, p) || moves[n - 1].0 == p ==> Moved(moves, n, p);
      assert Lookup(Interleaved(t, moves, n, outside, first), p) ==
        if moves[n - 1].0 == p then Some(moves[n - 1].1) else Lookup(Interleaved(t, moves, n - 1, outside, first), p);
    }
  }

  lemma FoundAsMoved(t: Tree, moves: seq<(Path, Content)>, n: nat, outside: nat -> Edits, first: nat, i: nat)
    requires i < n <= |moves| && forall j | 0 <= j < n && j != i :: moves[j].0 != moves[i].0
    requires forall k: nat :: moves[i].0 !in outside(k)
    ensures Lookup(Interleaved(t, moves, n, outside, first), moves[i].0) == Some(moves[i].1)
  {
    InterleavedAt(t, moves, n, outside, first, moves[i].0);
    assert Moved(moves, n, moves[i].0);
  }

  function MovesOf(prepared: seq<Prepared>): (moves: seq<(Path, Content)>)
    ensures |moves| == |prepared|
    ensures forall i | 0 <= i < |moves| :: moves[i] == (prepared[i].target, prepared[i].digest.content)
  {
    seq(|prepared|, i requires 0 <= i < |prepared| => (prepared[i].target, prepared[i].digest.content))
  }

  /** The moves carry out the writes, one for each. */
  ghost predicate CarryOut(moves: seq<(Path, Content)>, writes: Tree) {
    && (forall i | 0 <= i < |moves| :: moves[i].0 in writes && moves[i].1 == writes[moves[i].0])
    && (forall i, j | 0 <= i < j < |moves| :: moves[i].0 != moves[j].0)
    && (forall p | p in writes :: Moved(moves, |moves|, p))
  }

  lemma MovedFile(was: Files, now: Files, p: Prepared)
    requires p.temporary.Temporary? && p.temporary in was
    requires now == (was - {p.temporary})[Parent(p.target) := was[p.temporary]]
    ensures ParentTree(now) == ParentTree(was)[p.target := was[p.temporary]]
  {
  }

  lemma EditedFiles(was: Files, now: Files, edits: Edits)
    requires forall p: Path :: Lookup(now, Parent(p)) == if p in edits then edits[p] else Lookup(was, Parent(p))
    ensures ParentTree(now) == Edited(ParentTree(was), edits)
  {
    forall p: Path ensures Lookup(ParentTree(now), p) == Lookup(Edited(ParentTree(was), edits), p) {
      assert Lookup(ParentTree(now), p) == Lookup(now, Parent(p));
      assert Lookup(ParentTree(was), p) == Lookup(was, Parent(p));
    }
    SameLookups(ParentTree(now), Edited(ParentTree(was), edits));
  }

  /******* What the locked section leaves *******/

  /** Where the rollback found what `mid` says, it reported a target and left it alone, or it restored the
      target, which then held what this publish wrote. */
  ghost predicate SettledFrom(mid: Tree, now: Files, p: Prepared, backups: map<Path, FileName>,
                              failures: seq<FileName>) {
    if Location(p, backups) in failures then Lookup(now, Parent(p.target)) == Lookup(mid, p.target)
    else
      && Lookup(mid, p.target) == Some(p.digest.content)
      && DigestAt(now, p.target) == p.original
  }

  ghost function DigestAt(files: Files, p: Path): Option<Digest> {
    if Parent(p) in files then Some(Sha256(files[Parent(p)])) else None
  }

  /** The first `n` targets were replaced and are settled; no other file of the parent was rolled back. */
  ghost predicate RolledBackFrom(mid: Tree, now: Files, prepared: seq<Prepared>, n: nat, backups: map<Path, FileName>,
                                 failures: seq<FileName>)
    requires n <= |prepared|
  {
    && (forall p | p in prepared[..n] :: SettledFrom(mid, now, p, backups, failures))
    && (forall q: Path | (forall p | p in prepared[..n] :: p.target != q) :: Lookup(now, Parent(q)) == Lookup(mid, q))
  }

  /** What replacing and rolling back leaves, for each outcome, whatever foreign writers do. */
  ghost predicate CommitResult(was: Tree, now: Files, r: Outcome, outside: nat -> Edits, first: nat,
                               prepared: seq<Prepared>, backups: map<Path, FileName>) {
    match r
    case Published => ParentTree(now) == Interleaved(was, MovesOf(prepared), |prepared|, outside, first)
    case Raised => FailedAt(was, now, [], outside, first, prepared, backups)
    case NeedsRecovery(failures) =>
      Recoverable(now, prepared, backups, failures) && FailedAt(was, now, failures, outside, first, prepared, backups)
  }

  /** Some move failed, and the moves before it are rolled back. */
  ghost predicate FailedAt(was: Tree, now: Files, failures: seq<FileName>, outside: nat -> Edits, first: nat,
                           prepared: seq<Prepared>, backups: map<Path, FileName>) {
    exists n :: 0 <= n < |prepared|
      && RolledBackFrom(Interrupted(was, MovesOf(prepared), n, outside, first), now, prepared, n, backups, failures)
  }

  /** A reported location is a backup with the original content, or a target that had none. */
  ghost predicate HoldsOriginal(now: Files, f: FileName, p: Path, baseline: Baseline) {
    if p in baseline then f in now && Sha256(now[f]) == baseline[p] else f == Parent(p)
  }

  ghost predicate Reported(now: Files, failures: seq<FileName>, p: Path, baseline: Baseline) {
    exists f :: f in failures && HoldsOriginal(now, f, p, baseline)
  }

  /** A replaced target is left as it was found and reported with the place of its original, or it was found
      with what this publish wrote and has its original back. */
  ghost predicate Unwound(mid: Tree, now: Files, failures: seq<FileName>, p: Path, baseline: Baseline, writes: Tree) {
    || (Lookup(now, Parent(p)) == Lookup(mid, p) && Reported(now, failures, p, baseline))
    || (Lookup(mid, p) == Lookup(writes, p) && DigestAt(now, p) == Lookup(baseline, p))
  }

  /** Move number `n` raised. The targets moved before it are unwound; every other path is as it was found. */
  ghost predicate UnwoundAll(was: Tree, now: Files, failures: seq<FileName>, outside: nat -> Edits, first: nat,
                             moves: seq<(Path, Content)>, n: nat, baseline: Baseline, writes: Tree) {
    && CarryOut(moves, writes) && n < |moves| && Current(was, baseline, writes)
    && var mid := Interrupted(was, moves, n, outside, first);
    && (forall p: Path | Moved(moves, n, p) :: Unwound(mid, now, failures, p, baseline, writes))
    && (forall p: Path | !Moved(moves, n, p) :: Lookup(now, Parent(p)) == Lookup(mid, p))
  }

  /** The same in terms of the writes and of the baseline, which tells originals from new files. The first move is the
      operation `first`, and the others follow it. */
  ghost predicate LockedResult(was: Tree, now: Files, r: Outcome, outside: nat -> Edits, first: nat, baseline: Baseline,
                               writes: Tree) {
    match r
    case Published =>
      exists moves :: CarryOut(moves, writes) && ParentTree(now) == Interleaved(was, moves, |moves|, outside, first)
    case Raised =>
      || ParentTree(now) == was
      || exists moves, n :: UnwoundAll(was, now, [], outside, first, moves, n, baseline, writes)
    case NeedsRecovery(failures) =>
      && failures != []
      && (forall f | f in failures :: exists p :: p in writes && HoldsOriginal(now, f, p, baseline))
      && exists moves, n :: UnwoundAll(was, now, failures, outside, first, moves, n, baseline, writes)
  }

  /** What one path holds after a publish if no foreign writer touches it: the write or what it held; after a
      failure what it held; and if that could not be put back, the place of its original is reported. */
  ghost predicate AllOrNothing(was: Tree, now: Files, r: Outcome, baseline: Baseline, writes: Tree, p: Path) {
    var held := Lookup(ParentTree(now), p);
    match r
    case Published => held == Lookup(was + writes, p)
    case Raised => held == Lookup(was, p)
    case NeedsRecovery(failures) =>
      held == Lookup(was, p) || (p in writes && held == Some(writes[p]) && Reported(now, failures, p, baseline))
  }

  lemma BackupsSurvive(was: Files, mid: Files, prepared: seq<Prepared>, replaced: seq<Prepared>,
                       backups: map<Path, FileName>)
    requires Committable(was, prepared, backups) && replaced <= prepared
    requires forall n: FileName | n.Temporary? && (forall p | p in prepared :: p.temporary != n) ::
      Lookup(mid, n) == Lookup(was, n)
    ensures Undoable(mid, replaced, backups)
    ensures forall p | p in prepared && p.target in backups ::
      Lookup(mid, backups[p.target]) == Lookup(was, backups[p.target])
  {
    forall p | p in prepared && p.target in backups
      ensures backups[p.target] in mid && Lookup(mid, backups[p.target]) == Lookup(was, backups[p.target])
    {
      assert BackedUp(was, p, backups);
    }
  }

  lemma RollbackKeeps(was: Files, mid: Files, now: Files, prepared: seq<Prepared>, replaced: seq<Prepared>,
                      backups: map<Path, FileName>, failures: seq<FileName>)
    requires Committable(was, prepared, backups) && replaced <= prepared && failures != []
    requires forall p | p in prepared && p.target in backups ::
      Lookup(mid, backups[p.target]) == Lookup(was, backups[p.target])
    requires RolledBack(mid, now, replaced, 0, backups, failures)
    ensures Recoverable(now, prepared, backups, failures)
  {
    assert replaced[0..] == replaced;
    forall p | p in prepared && p.target in backups && backups[p.target] in failures
      ensures backups[p.target] in now && Some(Sha256(now[backups[p.target]])) == p.original
    {
      assert BackedUp(was, p, backups);
      var q :| q in replaced && backups[p.target] == Location(q, backups);
      assert Settled(mid, now, q, backups, failures);
    }
  }

  /** Rolling back makes no file but the restored targets. */
  lemma NoNewTemporaries(mid: Files, now: Files, replaced: seq<Prepared>, backups: map<Path, FileName>,
                         failures: seq<FileName>)
    requires Undoable(mid, replaced, backups) && RolledBack(mid, now, replaced, 0, backups, failures)
    ensures forall n: FileName | n.Temporary? && n in now :: n in mid
  {
    assert replaced[0..] == replaced;
    forall n: FileName | n.Temporary? && n in now ensures n in mid {
      if p :| p in replaced && n == Location(p, backups) {
        assert p.target in backups;
      } else {
        assert !Involved(n, replaced, backups) && Lookup(now, n) == Lookup(mid, n);
      }
    }
  }

  lemma SettledMeans(was: Files, mid: Files, now: Files, backups: map<Path, FileName>, failures: seq<FileName>,
                     p: Prepared)
    requires BackedUp(was, p, backups) && Settled(mid, now, p, backups, failures)
    requires p.target in backups ==> Lookup(mid, backups[p.target]) == Lookup(was, backups[p.target])
    ensures SettledFrom(ParentTree(mid), now, p, backups, failures)
  {
    assert Lookup(ParentTree(mid), p.target) == Lookup(mid, Parent(p.target));
  }

  lemma NotInvolved(was: Files, prepared: seq<Prepared>, replaced: seq<Prepared>, backups: map<Path, FileName>, q: Path)
    requires Committable(was, prepared, backups) && forall p | p in replaced :: p.target != q
    ensures !Involved(Parent(q), replaced, backups)
  {
  }

  /** From whatever state the rollback found: each replaced target is left alone and reported, or it held what
      this publish wrote and has its original back; no other file of the parent changes. */
  lemma RollbackRestores(was: Files, mid: Files, now: Files, prepared: seq<Prepared>, replaced: seq<Prepared>,
                         backups: map<Path, FileName>, failures: seq<FileName>)
    requires Committable(was, prepared, backups) && replaced <= prepared
    requires forall p | p in prepared && p.target in backups ::
      Lookup(mid, backups[p.target]) == Lookup(was, backups[p.target])
    requires RolledBack(mid, now, replaced, 0, backups, failures)
    ensures RolledBackFrom(ParentTree(mid), now, prepared, |replaced|, backups, failures)
  {
    assert replaced[0..] == replaced == prepared[..|replaced|];
    forall p | p in replaced ensures SettledFrom(ParentTree(mid), now, p, backups, failures) {
      SettledMeans(was, mid, now, backups, failures, p);
    }
    forall q: Path | forall p | p in replaced :: p.target != q
      ensures Lookup(now, Parent(q)) == Lookup(ParentTree(mid), q)
    {
      NotInvolved(was, prepared, replaced, backups, q);
    }
  }

  /******* From artifacts to prepared files and back *******/

  /** The prepared files are those of the artifacts, in order. */
  ghost predicate PreparedFor(resolve: imap<string, Path>, baseline: Baseline, artifacts: seq<Artifact>,
                              prepared: seq<Prepared>) {
    && |prepared| == |artifacts|
    && forall i | 0 <= i < |artifacts| ::
         && Resolve(resolve, artifacts[i].requested) == Some(prepared[i].target)
         && prepared[i].digest == artifacts[i].sha256
         && prepared[i].original == Lookup(baseline, prepared[i].target)
  }

  /** The artifacts that can be staged, in terms of the policy and of the child's files. */
  lemma StageableIff(resolve: imap<string, Path>, tree: Tree, artifacts: seq<Artifact>)
    ensures Stageable(resolve, tree, artifacts) <==>
      && (forall a | a in artifacts ::
            a.requested in resolve && Lookup(tree, resolve[a.requested]) == Some(a.sha256.content))
      && forall i, j | 0 <= i < j < |artifacts| :: resolve[artifacts[i].requested] != resolve[artifacts[j].requested]
  {
    if Stageable(resolve, tree, artifacts) {
      forall a | a in artifacts
        ensures a.requested in resolve && Lookup(tree, resolve[a.requested]) == Some(a.sha256.content)
      {
        var i :| 0 <= i < |artifacts| && artifacts[i] == a;
      }
      forall i, j | 0 <= i < j < |artifacts|
        ensures resolve[artifacts[i].requested] != resolve[artifacts[j].requested]
      {
        assert Resolve(resolve, artifacts[i].requested) != Resolve(resolve, artifacts[j].requested);
      }
    }
  }

  /** The writes are current where the parent has what the baseline recorded, absence included. */
  lemma CurrentMeans(resolve: imap<string, Path>, tree: Tree, parent: Tree, baseline: Baseline,
                     artifacts: seq<Artifact>)
    requires Stageable(resolve, tree, artifacts)
    ensures Current(parent, baseline, Writes(resolve, artifacts)) <==>
      forall a | a in artifacts && a.requested in resolve ::
        Lookup(Digests(parent), resolve[a.requested]) == Lookup(baseline, resolve[a.requested])
  {
    WritesAre(resolve, artifacts);
    var w := Writes(resolve, artifacts);
    forall p ensures Untouched(parent, p, Lookup(baseline, p)) <==> Lookup(Digests(parent), p) == Lookup(baseline, p) {
    }
    forall a | a in artifacts ensures a.requested in resolve && resolve[a.requested] in w {
      var i :| 0 <= i < |artifacts| && artifacts[i] == a;
    }
    forall p | p in w ensures exists a :: a in artifacts && a.requested in resolve && resolve[a.requested] == p {
      var i :| 0 <= i < |artifacts| && Resolve(resolve, artifacts[i].requested) == Some(p);
      assert artifacts[i] in artifacts;
    }
  }

  /** The writes are those of the artifacts and no others. */
  lemma WrittenAt(resolve: imap<string, Path>, tree: Tree, artifacts: seq<Artifact>, a: Artifact)
    requires Stageable(resolve, tree, artifacts) && a in artifacts
    ensures a.requested in resolve
    ensures Lookup(Writes(resolve, artifacts), resolve[a.requested]) == Some(a.sha256.content)
  {
    WritesAre(resolve, artifacts);
    var i :| 0 <= i < |artifacts| && artifacts[i] == a;
  }

  lemma WrittenFor(resolve: imap<string, Path>, tree: Tree, artifacts: seq<Artifact>, p: Path) returns (a: Artifact)
    requires Stageable(resolve, tree, artifacts) && p in Writes(resolve, artifacts)
    ensures a in artifacts && a.requested in resolve && resolve[a.requested] == p
  {
    WritesAre(resolve, artifacts);
    var i :| 0 <= i < |artifacts| && Resolve(resolve, artifacts[i].requested) == Some(p);
    a := artifacts[i];
  }

  lemma {:induction false} WritesAre(resolve: imap<string, Path>, artifacts: seq<Artifact>)
    requires forall i | 0 <= i < |artifacts| :: Resolve(resolve, artifacts[i].requested).Some?
    requires forall i, j | 0 <= i < j < |artifacts| ::
      Resolve(resolve, artifacts[i].requested) != Resolve(resolve, artifacts[j].requested)
    ensures var w := Writes(resolve, artifacts);
      && (forall i | 0 <= i < |artifacts| ::
            var p := Resolve(resolve, artifacts[i].requested).value; p in w && w[p] == artifacts[i].sha256.content)
      && (forall p | p in w :: exists i :: 0 <= i < |artifacts| && Resolve(resolve, artifacts[i].requested) == Some(p))
  {
    if artifacts != [] {
      var last := |artifacts| - 1;
      var rest := artifacts[..last];
      WritesAre(resolve, rest);
      var w, v := Writes(resolve, artifacts), Writes(resolve, rest);
      forall i | 0 <= i < |artifacts|
        ensures var p := Resolve(resolve, artifacts[i].requested).value; p in w && w[p] == artifacts[i].sha256.content
      {
        if i < last {
          assert rest[i] == artifacts[i];
        }
      }
      forall p | p in w
        ensures exists i :: 0 <= i < |artifacts| && Resolve(resolve, artifacts[i].requested) == Some(p)
      {
        if p in v {
          var i :| 0 <= i < |rest| && Resolve(resolve, rest[i].requested) == Some(p);
          assert rest[i] == artifacts[i];
        } else {
          assert Resolve(resolve, artifacts[last].requested) == Some(p);
        }
      }
    }
  }

  /** The prepared targets are the keys of the writes, each with its content. */
  lemma PreparedAreWrites(resolve: imap<string, Path>, tree: Tree, baseline: Baseline, artifacts: seq<Artifact>,
                          prepared: seq<Prepared>)
    requires Stageable(resolve, tree, artifacts) && PreparedFor(resolve, baseline, artifacts, prepared)
    ensures DistinctTargets(prepared) && Stands(prepared, baseline, Writes(resolve, artifacts))
  {
    WritesAre(resolve, artifacts);
    var w := Writes(resolve, artifacts);
    forall t | t in w ensures exists p :: p in prepared && p.target == t {
      var i :| 0 <= i < |artifacts| && Resolve(resolve, artifacts[i].requested) == Some(t);
      assert prepared[i] in prepared;
    }
  }

  lemma CurrentIff(parent: Tree, baseline: Baseline, writes: Tree, prepared: seq<Prepared>)
    requires Stands(prepared, baseline, writes)
    ensures Current(parent, baseline, writes) <==> forall p | p in prepared :: Untouched(parent, p.target, p.original)
  {
  }

  /** The writes are what the prepared files stand for. */
  ghost predicate Stands(prepared: seq<Prepared>, baseline: Baseline, writes: Tree) {
    && (forall p | p in prepared ::
          p.target in writes && Sha256(writes[p.target]) == p.digest && p.original == Lookup(baseline, p.target))
    && (forall t | t in writes :: exists p :: p in prepared && p.target == t)
  }

  lemma SameLookups(t: Tree, u: Tree)
    requires forall p :: Lookup(t, p) == Lookup(u, p)
    ensures t == u
  {
    assert forall p :: Lookup(t, p).Some? <==> p in t;
    assert forall p :: Lookup(u, p).Some? <==> p in u;
  }

  lemma MovesCarryOut(prepared: seq<Prepared>, baseline: Baseline, writes: Tree)
    requires Stands(prepared, baseline, writes) && DistinctTargets(prepared)
    ensures CarryOut(MovesOf(prepared), writes)
  {
    var moves := MovesOf(prepared);
    forall p | p in writes ensures Moved(moves, |moves|, p) {
      var q :| q in prepared && q.target == p;
      var i :| 0 <= i < |prepared| && prepared[i] == q;
      assert moves[i].0 == p;
    }
  }

  /** The targets among the first `n` moves are those of the first `n` prepared files. */
  lemma MovedFirst(prepared: seq<Prepared>, n: nat, p: Path)
    requires n <= |prepared|
    ensures Moved(MovesOf(prepared), n, p) <==> exists q :: q in prepared[..n] && q.target == p
  {
    var moves := MovesOf(prepared);
    if Moved(moves, n, p) {
      var i :| 0 <= i < n && moves[i].0 == p;
      assert prepared[..n][i].target == p;
    }
    if q :| q in prepared[..n] && q.target == p {
      var i :| 0 <= i < n && prepared[..n][i] == q;
      assert moves[i].0 == p;
    }
  }

  /** The original of a reported target is where the report says. */
  lemma ReportedTarget(now: Files, prepared: seq<Prepared>, backups: map<Path, FileName>, baseline: Baseline,
                       writes: Tree, failures: seq<FileName>, p: Prepared)
    requires Stands(prepared, baseline, writes) && Recoverable(now, prepared, backups, failures) && p in prepared
    requires Location(p, backups) in failures && (p.target in backups <==> p.original.Some?)
    ensures HoldsOriginal(now, Location(p, backups), p.target, baseline)
  {
  }

  lemma FailedMeans(was: Files, now: Files, failures: seq<FileName>, outside: nat -> Edits, first: nat,
                    prepared: seq<Prepared>, backups: map<Path, FileName>, baseline: Baseline, writes: Tree)
    requires Stands(prepared, baseline, writes) && Committable(was, prepared, backups)
    requires failures == [] || Recoverable(now, prepared, backups, failures)
    requires FailedAt(ParentTree(was), now, failures, outside, first, prepared, backups)
    ensures exists moves, n :: UnwoundAll(ParentTree(was), now, failures, outside, first, moves, n, baseline, writes)
  {
    var moves := MovesOf(prepared);
    var n :| 0 <= n < |prepared|
      && RolledBackFrom(Interrupted(ParentTree(was), moves, n, outside, first), now, prepared, n, backups, failures);
    var mid := Interrupted(ParentTree(was), moves, n, outside, first);
    MovesCarryOut(prepared, baseline, writes);
    CurrentIff(ParentTree(was), baseline, writes, prepared);
    forall p: Path | Moved(moves, n, p) ensures Unwound(mid, now, failures, p, baseline, writes) {
      MovedFirst(prepared, n, p);
      var q :| q in prepared[..n] && q.target == p;
      assert SettledFrom(mid, now, q, backups, failures) && BackedUp(was, q, backups);
      if Location(q, backups) in failures {
        ReportedTarget(now, prepared, backups, baseline, writes, failures, q);
      }
    }
    forall p: Path | !Moved(moves, n, p) ensures Lookup(now, Parent(p)) == Lookup(mid, p) {
      MovedFirst(prepared, n, p);
    }
    assert UnwoundAll(ParentTree(was), now, failures, outside, first, moves, n, baseline, writes);
  }

  lemma RecoveryMeans(was: Files, now: Files, failures: seq<FileName>, prepared: seq<Prepared>,
                      backups: map<Path, FileName>, baseline: Baseline, writes: Tree)
    requires Stands(prepared, baseline, writes) && Committable(was, prepared, backups)
    requires Recoverable(now, prepared, backups, failures)
    ensures forall f | f in failures :: exists p :: p in writes && HoldsOriginal(now, f, p, baseline)
  {
    forall f | f in failures ensures exists p :: p in writes && HoldsOriginal(now, f, p, baseline) {
      var p :| p in prepared && f == Location(p, backups);
      assert BackedUp(was, p, backups);
      ReportedTarget(now, prepared, backups, baseline, writes, failures, p);
    }
  }

  /** Without foreign writers the rollback finds every replaced target as it was written. */
  lemma QuietlyReplaced(was: Files, mid: Files, prepared: seq<Prepared>, replaced: seq<Prepared>,
                        backups: map<Path, FileName>, outside: nat -> Edits, first: nat)
    requires Committable(was, prepared, backups) && replaced < prepared && forall n: nat :: outside(n) == map[]
    requires ParentTree(mid) == Interrupted(ParentTree(was), MovesOf(prepared), |replaced|, outside, first)
    ensures forall p | p in replaced :: StillOurs(mid, p)
  {
    forall i | 0 <= i < |replaced| ensures StillOurs(mid, replaced[i]) {
      FoundAsMoved(ParentTree(was), MovesOf(prepared), |replaced|, outside, first, i);
      assert Lookup(ParentTree(mid), replaced[i].target) == Some(replaced[i].digest.content);
    }
  }

  /** The outcome in terms of the prepared files gives the outcome in terms of the writes. */
  lemma CommitMeans(was: Files, now: Files, r: Outcome, outside: nat -> Edits, first: nat, prepared: seq<Prepared>,
                    backups: map<Path, FileName>, baseline: Baseline, writes: Tree)
    requires Stands(prepared, baseline, writes) && Committable(was, prepared, backups)
    requires CommitResult(ParentTree(was), now, r, outside, first, prepared, backups)
    ensures LockedResult(ParentTree(was), now, r, outside, first, baseline, writes)
  {
    match r
    case Published => MovesCarryOut(prepared, baseline, writes);
    case Raised => FailedMeans(was, now, [], outside, first, prepared, backups, baseline, writes);
    case NeedsRecovery(failures) =>
      RecoveryMeans(was, now, failures, prepared, backups, baseline, writes);
      FailedMeans(was, now, failures, outside, first, prepared, backups, baseline, writes);
  }

  lemma PublishedMeans(was: Tree, now: Tree, moves: seq<(Path, Content)>, outside: nat -> Edits, first: nat,
                       writes: Tree, p: Path)
    requires CarryOut(moves, writes) && now == Interleaved(was, moves, |moves|, outside, first)
    requires forall n: nat :: p !in outside(n)
    ensures Lookup(now, p) == Lookup(was + writes, p)
  {
    InterleavedAt(was, moves, |moves|, outside, first, p);
  }

  lemma UnwoundAt(was: Tree, now: Files, failures: seq<FileName>, outside: nat -> Edits, first: nat,
                  moves: seq<(Path, Content)>, n: nat, baseline: Baseline, writes: Tree, p: Path)
    requires UnwoundAll(was, now, failures, outside, first, moves, n, baseline, writes)
    requires forall n: nat :: p !in outside(n)
    ensures Lookup(now, Parent(p)) == Lookup(was, p)
            || (p in writes && Lookup(now, Parent(p)) == Some(writes[p]) && Reported(now, failures, p, baseline))
  {
    InterleavedAt(was, moves, n, outside, first, p);
    if Moved(moves, n, p) {
      var i :| 0 <= i < n && moves[i].0 == p
        && Lookup(Interleaved(was, moves, n, outside, first), p) == Some(moves[i].1);
      assert Unwound(Interrupted(was, moves, n, outside, first), now, failures, p, baseline, writes);
      assert Untouched(was, p, Lookup(baseline, p));
    }
  }

  /** All or nothing for every path that foreign writers leave alone, whatever they do elsewhere. */
  lemma LeftAlone(was: Tree, now: Files, r: Outcome, outside: nat -> Edits, first: nat, baseline: Baseline,
                  writes: Tree, p: Path)
    requires LockedResult(was, now, r, outside, first, baseline, writes) && forall n: nat :: p !in outside(n)
    ensures AllOrNothing(was, now, r, baseline, writes, p)
  {
    assert Lookup(ParentTree(now), p) == Lookup(now, Parent(p));
    match r
    case Published =>
      var moves :| CarryOut(moves, writes) && ParentTree(now) == Interleaved(was, moves, |moves|, outside, first);
      PublishedMeans(was, ParentTree(now), moves, outside, first, writes, p);
    case Raised =>
      if ParentTree(now) != was {
        var moves, n :| UnwoundAll(was, now, [], outside, first, moves, n, baseline, writes);
        UnwoundAt(was, now, [], outside, first, moves, n, baseline, writes, p);
      }
    case NeedsRecovery(failures) =>
      var moves, n :| UnwoundAll(was, now, failures, outside, first, moves, n, baseline, writes);
      UnwoundAt(was, now, failures, outside, first, moves, n, baseline, writes, p);
  }

  lemma RefusedChangesNothing(was: Tree, now: Files, r: Outcome, outside: nat -> Edits, first: nat, baseline: Baseline,
                              writes: Tree)
    requires LockedResult(was, now, r, outside, first, baseline, writes) && r.Raised? && !Current(was, baseline, writes)
    ensures ParentTree(now) == was
  {
  }

  lemma RaisedMeans(was: Files, now: Files)
    requires forall n: FileName | n.Parent? :: Lookup(now, n) == Lookup(was, n)
    ensures ParentTree(now) == ParentTree(was)
  {
  }

  lemma SameParentsAdded(was: Files, now: Files, low: nat, high: nat, made: seq<FileName>)
    requires OnlyAdded(was, now, low, high, made)
    ensures ParentTree(now) == ParentTree(was)
  {
  }

  lemma ReadyToCommit(was: Files, now: Files, low: nat, high: nat, staged: seq<Staged>, prepared: seq<Prepared>,
                      made: seq<FileName>, backups: map<Path, FileName>)
    requires DistinctTargets(prepared) && AllPrepared(was, staged, prepared, made)
    requires forall n | n in made :: n.Temporary? && n.id < low
    requires forall p | p in prepared :: Untouched(ParentTree(was), p.target, p.original)
    requires OnlyBackups(was, now, low, high, backups) && AllBackedUp(now, prepared, |prepared|, backups)
    ensures Committable(now, prepared, backups)
  {
  }

  lemma CleanUnwound(was: Tree, dirty: Files, now: Files, failures: seq<FileName>, outside: nat -> Edits, first: nat,
                     moves: seq<(Path, Content)>, n: nat, baseline: Baseline, writes: Tree)
    requires UnwoundAll(was, dirty, failures, outside, first, moves, n, baseline, writes)
    requires forall n: FileName | n.Parent? || n in failures :: Lookup(now, n) == Lookup(dirty, n)
    ensures UnwoundAll(was, now, failures, outside, first, moves, n, baseline, writes)
  {
    forall p: Path | Moved(moves, n, p)
      ensures Unwound(Interrupted(was, moves, n, outside, first), now, failures, p, baseline, writes)
    {
      assert Lookup(now, Parent(p)) == Lookup(dirty, Parent(p));
      if f :| f in failures && HoldsOriginal(dirty, f, p, baseline) {
        assert Lookup(now, f) == Lookup(dirty, f);
        assert HoldsOriginal(now, f, p, baseline);
      }
    }
  }

  /** Removing temporaries that are not reported changes no outcome. */
  lemma CleanResult(was: Tree, dirty: Files, now: Files, r: Outcome, outside: nat -> Edits, first: nat,
                    baseline: Baseline, writes: Tree)
    requires LockedResult(was, dirty, r, outside, first, baseline, writes)
    requires forall n: FileName | n.Parent? || (r.NeedsRecovery? && n in r.failures) ::
      Lookup(now, n) == Lookup(dirty, n)
    ensures LockedResult(was, now, r, outside, first, baseline, writes)
  {
    match r
    case Published => RaisedMeans(dirty, now);
    case Raised =>
      RaisedMeans(dirty, now);
      if ParentTree(dirty) != was {
        var moves, n :| UnwoundAll(was, dirty, [], outside, first, moves, n, baseline, writes);
        CleanUnwound(was, dirty, now, [], outside, first, moves, n, baseline, writes);
      }
    case NeedsRecovery(failures) =>
      forall f | f in failures ensures exists p :: p in writes && HoldsOriginal(now, f, p, baseline) {
        var p :| p in writes && HoldsOriginal(dirty, f, p, baseline);
        assert Lookup(now, f) == Lookup(dirty, f) && HoldsOriginal(now, f, p, baseline);
      }
      var moves, n :| UnwoundAll(was, dirty, failures, outside, first, moves, n, baseline, writes);
      CleanUnwound(was, dirty, now, failures, outside, first, moves, n, baseline, writes);
  }

  /** The temporaries from `index` on, and those of others, are as they were; no temporary is new. */
  ghost predicate Spent(was: Files, now: Files, prepared: seq<Prepared>, index: nat) {
    && (forall i | index <= i < |prepared| :: Lookup(now, prepared[i].temporary) == Lookup(was, prepared[i].temporary))
    && (forall n: FileName | n.Temporary? && (forall p | p in prepared :: p.temporary != n) ::
        Lookup(now, n) == Lookup(was, n))
    && (forall n: FileName {:trigger Lookup(now, n)} | n.Temporary? && Lookup(now, n).Some? :: Lookup(was, n).Some?)
  }

  lemma NoneMade(was: Files, now: Files, prepared: seq<Prepared>, index: nat)
    requires index <= |prepared| && Spent(was, now, prepared, index)
    ensures forall n: FileName | n.Temporary? && n in now :: n in was
  {
    forall n: FileName | n.Temporary? && n in now ensures n in was {
      assert Lookup(now, n).Some?;
    }
  }

  lemma StillStaged(was: Files, mid: Files, prepared: seq<Prepared>, index: nat)
    requires Spent(was, mid, prepared, index) && index < |prepared|
    requires forall p | p in prepared :: p.temporary in was && Sha256(was[p.temporary]) == p.digest
    ensures prepared[index].temporary in mid && mid[prepared[index].temporary] == prepared[index].digest.content
  {
    assert prepared[index] in prepared;
    assert Lookup(mid, prepared[index].temporary) == Lookup(was, prepared[index].temporary);
  }

  lemma OneMoreSpent(was: Files, mid: Files, now: Files, prepared: seq<Prepared>, index: nat, ok: bool)
    requires index < |prepared| && Spent(was, mid, prepared, index)
    requires forall i, j | 0 <= i < j < |prepared| :: prepared[i].temporary != prepared[j].temporary
    requires forall p | p in prepared :: p.temporary.Temporary?
    requires forall n: FileName | n.Temporary? && n != prepared[index].temporary :: Lookup(now, n) == Lookup(mid, n)
    requires Lookup(now, prepared[index].temporary) == if ok then None else Lookup(mid, prepared[index].temporary)
    ensures Spent(was, now, prepared, if ok then index + 1 else index)
  {
    var after := if ok then index + 1 else index;
    forall i | after <= i < |prepared|
      ensures Lookup(now, prepared[i].temporary) == Lookup(was, prepared[i].temporary)
    {
      assert prepared[i] in prepared;
    }
    forall n: FileName | n.Temporary? && n in now ensures n in was {
      assert Lookup(now, n).Some? ==> Lookup(mid, n).Some?;
    }
    forall n: FileName | n.Temporary? && (forall p | p in prepared :: p.temporary != n)
      ensures Lookup(now, n) == Lookup(was, n)
    {
      assert prepared[index] in prepared;
    }
  }

  /******* Snapshots *******/

  /** A snapshot under way: the paths whose directories have been listed, the files still named by the listings,
      what has been copied, and the digests recorded. */
  datatype Walk = Walk(listed: iset<Path>, names: set<Path>, copy: Tree, manifest: Baseline)

  const NEW_WALK := Walk(iset{}, {}, map[], map[])

  /** What a snapshot does with one look at the parent tree: list a directory, skip a listed file that is gone, pass
      one that is there, copy it, record its digest, or raise. */
  datatype WalkStep =
    | List(directory: iset<Path>)
    | Skip(path: Path)
    | Pass(path: Path)
    | Copy(path: Path)
    | Note(path: Path)
    | Fail

  ghost predicate MayLook(w: Walk, t: Tree, step: WalkStep) {
    match step
    case List(directory) => directory !! w.listed
    case Skip(p) => p in w.names && p !in w.copy && p !in t
    case Pass(p) => p in w.names && p !in w.copy && p in t
    case Copy(p) => p in w.names && p !in w.copy && p in t
    case Note(p) => p in w.copy && p !in w.manifest && p in t
    case Fail => true
  }

  ghost function Looked(w: Walk, t: Tree, step: WalkStep): Walk
    requires MayLook(w, t, step)
  {
    match step
    case List(directory) => w.(listed := w.listed + directory, names := w.names + set p | p in t && p in directory)
    case Skip(p) => w.(names := w.names - {p})
    case Pass(_) => w
    case Copy(p) => w.(copy := w.copy[p := t[p]])
    case Note(p) => w.(manifest := w.manifest[p := Sha256(t[p])])
    case Fail => w
  }

  /** A snapshot look by look: the tree there was at first, and then what each look saw and what was done with it. */
  datatype Trace = Begin(tree: Tree) | After(earlier: Trace, tree: Tree, step: WalkStep)

  ghost predicate Proper(r: Trace)
    decreases r, 0
  {
    r.After? ==> Proper(r.earlier) && MayLook(WalkOf(r.earlier), r.tree, r.step)
  }

  ghost function WalkOf(r: Trace): Walk
    requires Proper(r)
    decreases r, 1
  {
    if r.Begin? then NEW_WALK else Looked(WalkOf(r.earlier), r.tree, r.step)
  }

  ghost function Trees(r: Trace): (trees: seq<Tree>)
    ensures trees != [] && trees[|trees| - 1] == r.tree
  {
    if r.Begin? then [r.tree] else Trees(r.earlier) + [r.tree]
  }

  ghost function First(r: Trace): Tree {
    if r.Begin? then r.tree else First(r.earlier)
  }

  ghost function Looks(r: Trace): nat {
    if r.Begin? then 0 else Looks(r.earlier) + 1
  }

  /** Each tree is the one before it after a burst of foreign writes; the first look is the operation `first`. */
  ghost predicate Drift(r: Trace, outside: nat -> Edits, first: nat) {
    r.After? ==>
      Drift(r.earlier, outside, first) && r.tree == Edited(r.earlier.tree, outside(first + Looks(r.earlier)))
  }

  lemma Grew(r: Trace, now: Tree, step: WalkStep, outside: nat -> Edits, first: nat)
    requires Proper(r) && Drift(r, outside, first) && MayLook(WalkOf(r), now, step)
    requires now == Edited(r.tree, outside(first + Looks(r)))
    ensures var later := After(r, now, step);
      && Proper(later) && Drift(later, outside, first) && Looks(later) == Looks(r) + 1 && First(later) == First(r)
      && WalkOf(later) == Looked(WalkOf(r), now, step)
  {
  }

  lemma TookCopy(r: Trace, now: Tree, p: Path, content: Content)
    requires Proper(r) && MayLook(WalkOf(r), now, Copy(p)) && now[p] == content
    ensures var later, copied := After(r, now, Copy(p)), WalkOf(r).copy[p := content];
      Proper(later) && WalkOf(later) == WalkOf(r).(copy := copied) && copied.Keys == WalkOf(r).copy.Keys + {p}
  {
  }

  lemma TookDigest(r: Trace, now: Tree, p: Path, content: Content)
    requires Proper(r) && MayLook(WalkOf(r), now, Note(p)) && now[p] == content
    ensures var later, noted := After(r, now, Note(p)), WalkOf(r).manifest[p := Sha256(content)];
      Proper(later) && WalkOf(later) == WalkOf(r).(manifest := noted) && noted.Keys == WalkOf(r).manifest.Keys + {p}
  {
  }

  lemma {:induction false} QuietDrift(r: Trace, outside: nat -> Edits, first: nat, i: nat)
    requires Drift(r, outside, first) && i < |Trees(r)| && forall k: nat :: outside(k) == map[]
    ensures Trees(r)[i] == r.tree == First(r)
  {
    if r.After? {
      SameLookups(Edited(r.earlier.tree, map[]), r.earlier.tree);
QuietDrift(r.earlier, outside, first, if i < |Trees(r.earlier)| then i else 0);
    }
  }

  /** Everything listed is copied and recorded, or still to do, or was absent. */
  ghost predicate Taken(r: Trace, listed: iset<Path>, todo: set<Path>, copy: Tree, manifest: Baseline) {
    && Proper(r) && WalkOf(r) == Walk(listed, copy.Keys + todo, copy, manifest)
    && manifest.Keys == copy.Keys && todo !! copy.Keys && forall p | p in copy.Keys + todo :: p in listed
  }

  lemma TakenListed(r: Trace, now: Tree, done: iset<Path>, copy: Tree, manifest: Baseline, directory: iset<Path>,
                    names: set<Path>)
    requires Taken(r, done, {}, copy, manifest) && done !! directory && names == set p | p in now && p in directory
    ensures MayLook(WalkOf(r), now, List(directory))
    ensures Taken(After(r, now, List(directory)), done + directory, names, copy, manifest)
  {
    assert copy.Keys + {} + names == copy.Keys + names;
  }

  lemma TakenSkipped(r: Trace, later: Trace, listed: iset<Path>, todo: set<Path>, copy: Tree, manifest: Baseline,
                     p: Path)
    requires Taken(r, listed, todo, copy, manifest) && p in todo
    requires Proper(later) && WalkOf(later) == WalkOf(r).(names := WalkOf(r).names - {p})
    ensures Taken(later, listed, todo - {p}, copy, manifest)
  {
    assert copy.Keys + (todo - {p}) == (copy.Keys + todo) - {p};
  }

  lemma TakenCopied(r: Trace, later: Trace, listed: iset<Path>, todo: set<Path>, copy: Tree, manifest: Baseline,
                    p: Path, copied: Tree, noted: Baseline)
    requires Taken(r, listed, todo, copy, manifest) && p in todo
    requires Proper(later) && WalkOf(later) == WalkOf(r).(copy := copied, manifest := noted)
    requires copied.Keys == copy.Keys + {p} && noted.Keys == manifest.Keys + {p}
    ensures Taken(later, listed, todo - {p}, copied, noted)
  {
    assert copied.Keys + (todo - {p}) == copy.Keys + todo;
  }

  /** The digest recorded for a path is that of the second of two reads, the copy is the first one; or the path
      was absent at some moment and is in neither. */
  ghost predicate ReadTwice(history: seq<Tree>, p: Path, copy: Tree, manifest: Baseline) {
    if p in copy || p in manifest then
      exists i, k :: 0 <= i < k < |history| && Read(history[i], p, copy) && Noted(history[k], p, manifest)
    else
      exists i :: 0 <= i < |history| && p !in history[i]
  }

  ghost predicate Read(t: Tree, p: Path, copy: Tree) {
    p in t && p in copy && copy[p] == t[p]
  }

  ghost predicate Noted(t: Tree, p: Path, manifest: Baseline) {
    p in t && p in manifest && manifest[p] == Sha256(t[p])
  }

  /** Why a walk over the trees has what it has of a path: an earlier look at the path saw it. */
  ghost predicate Explained(history: seq<Tree>, w: Walk, p: Path) {
    && (p in w.copy ==> exists i :: 0 <= i < |history| && Read(history[i], p, w.copy))
    && (p in w.manifest ==> p in w.copy && ReadTwice(history, p, w.copy, w.manifest))
    && (p in w.listed && p !in w.names ==> exists i :: 0 <= i < |history| && p !in history[i])
  }

  lemma StillExplained(history: seq<Tree>, t: Tree, w: Walk, p: Path)
    requires Explained(history, w, p)
    ensures Explained(history + [t], w, p)
  {
    var later := history + [t];
    if i :| 0 <= i < |history| && Read(history[i], p, w.copy) {
      assert Read(later[i], p, w.copy);
    }
    if i, k :| 0 <= i < k < |history| && Read(history[i], p, w.copy) && Noted(history[k], p, w.manifest) {
      assert Read(later[i], p, w.copy) && Noted(later[k], p, w.manifest);
    }
    if i :| 0 <= i < |history| && p !in history[i] {
      assert p !in later[i];
    }
  }

  lemma StepExplains(history: seq<Tree>, t: Tree, w: Walk, step: WalkStep, p: Path)
    requires Explained(history, w, p) && MayLook(w, t, step)
    ensures Explained(history + [t], Looked(w, t, step), p)
  {
    var later, v := history + [t], Looked(w, t, step);
    StillExplained(history, t, w, p);
    assert later[|history|] == t;
    if step == Copy(p) {
      assert Read(later[|history|], p, v.copy);
    } else if step == Note(p) {
      var i :| 0 <= i < |history| && Read(history[i], p, w.copy);
      assert Read(later[i], p, v.copy) && Noted(later[|history|], p, v.manifest);
    } else {
      assert Lookup(v.copy, p) == Lookup(w.copy, p) && Lookup(v.manifest, p) == Lookup(w.manifest, p);
      SameEntries(later, w, v, p);
    }
  }

  lemma SameEntries(history: seq<Tree>, w: Walk, v: Walk, p: Path)
    requires Explained(history, w, p) && Lookup(v.copy, p) == Lookup(w.copy, p)
    requires Lookup(v.manifest, p) == Lookup(w.manifest, p)
    requires p in v.listed && p !in v.names ==>
      (p in w.listed && p !in w.names) || exists i :: 0 <= i < |history| && p !in history[i]
    ensures Explained(history, v, p)
  {
    if i :| 0 <= i < |history| && Read(history[i], p, w.copy) {
      assert Read(history[i], p, v.copy);
    }
    if i, k :| 0 <= i < k < |history| && Read(history[i], p, w.copy) && Noted(history[k], p, w.manifest) {
      assert Read(history[i], p, v.copy) && Noted(history[k], p, v.manifest);
    }
  }

  lemma {:induction false} AlwaysExplained(r: Trace, p: Path)
    requires Proper(r)
    ensures Explained(Trees(r), WalkOf(r), p)
  {
    if r.After? {
      AlwaysExplained(r.earlier, p);
      StepExplains(Trees(r.earlier), r.tree, WalkOf(r.earlier), r.step, p);
    }
  }

  lemma StillValid(was: Files, now: Files, temporaries: nat)
    requires SameTemporaries(was, now) && forall n | n in was && n.Temporary? :: n.id < temporaries
    ensures forall n | n in now && n.Temporary? :: n.id < temporaries
  {
    forall n | n in now && n.Temporary? ensures n.id < temporaries {
      assert Lookup(now, n) == Lookup(was, n);
    }
  }

  ghost predicate SameTemporaries(was: Files, now: Files) {
    forall n: FileName | n.Temporary? :: Lookup(now, n) == Lookup(was, n)
  }

  /** The paths of all the directories. */
  ghost function Within(directories: seq<iset<Path>>): iset<Path> {
    iset d, p | d in directories && p in d :: p
  }

  lemma WithinMore(directories: seq<iset<Path>>, index: nat)
    requires index < |directories| && forall i, j | 0 <= i < j < |directories| :: directories[i] !! directories[j]
    ensures Within(directories[..index + 1]) == Within(directories[..index]) + directories[index]
    ensures Within(directories[..index]) !! directories[index]
  {
    assert directories[..index + 1] == directories[..index] + [directories[index]];
  }

  /** The paths of `done` have been dealt with, and nothing else has been taken. */
  ghost predicate Walked(history: seq<Tree>, done: iset<Path>, copy: Tree, manifest: Baseline) {
    && (forall p | p in done :: ReadTwice(history, p, copy, manifest))
    && (forall p | p !in done :: p !in copy && p !in manifest)
  }

  lemma TakenIsWalked(r: Trace, done: iset<Path>, copy: Tree, manifest: Baseline)
    requires Taken(r, done, {}, copy, manifest)
    ensures Walked(Trees(r), done, copy, manifest)
  {
    forall p | p in done ensures ReadTwice(Trees(r), p, copy, manifest) {
      AlwaysExplained(r, p);
    }
  }

  /** Without foreign writers the two reads agree with each other and with the tree. */
  lemma QuietReads(r: Trace, outside: nat -> Edits, first: nat, p: Path, copy: Tree, manifest: Baseline)
    requires ReadTwice(Trees(r), p, copy, manifest) && Drift(r, outside, first) && forall k: nat :: outside(k) == map[]
    ensures Lookup(copy, p) == Lookup(First(r), p) && Lookup(manifest, p) == Lookup(Digests(First(r)), p)
  {
    forall i | 0 <= i < |Trees(r)| ensures Trees(r)[i] == First(r) {
      QuietDrift(r, outside, first, i);
    }
  }

  lemma QuietWalk(r: Trace, outside: nat -> Edits, first: nat, done: iset<Path>, copy: Tree, manifest: Baseline)
    requires Walked(Trees(r), done, copy, manifest) && Drift(r, outside, first) && forall k: nat :: outside(k) == map[]
    ensures copy == Visible(First(r), done) && manifest == Digests(Visible(First(r), done))
  {
    var whole := Visible(First(r), done);
    forall p ensures Lookup(copy, p) == Lookup(whole, p) && Lookup(manifest, p) == Lookup(Digests(whole), p) {
      if p in done {
        QuietReads(r, outside, first, p, copy, manifest);
      }
    }
    SameLookups(copy, whole);
    SameDigests(manifest, Digests(whole));
  }

  lemma SameDigests(b: Baseline, c: Baseline)
    requires forall p :: Lookup(b, p) == Lookup(c, p)
    ensures b == c
  {
    assert forall p :: Lookup(b, p).Some? <==> p in b;
    assert forall p :: Lookup(c, p).Some? <==> p in c;
  }

  /******* The manager *******/

  class AgentWorkspaceManager {
    /** The allowed path each artifact name stands for; the policy refuses the other names. */
    const resolve: imap<string, Path>
    /** What happens to each file-system operation, in order. */
    const behaviour: nat -> Behaviour
    /** What writers that ignore the workspace lock do just before each move of a publish, and before each look of a
        snapshot, which takes no lock. */
    const outside: nat -> Edits

    var files: Files
    var trees: map<nat, Tree>
    var baselines: map<nat, Baseline>
    var operations: nat
    var temporaries: nat

    constructor (resolve: imap<string, Path>, behaviour: nat -> Behaviour,
                 outside: nat -> Edits, files: Files)
      requires forall n | n in files :: n.Parent?
      ensures Valid() && this.files == files && baselines == map[] && trees == map[]
      ensures this.resolve == resolve && this.behaviour == behaviour && this.outside == outside
    {
      this.resolve, this.behaviour, this.outside := resolve, behaviour, outside;
      this.files, trees, baselines, operations, temporaries := files, map[], map[], 0, 0;
    }

    /** Names handed out by `mkstemp` are never handed out again. */
    ghost predicate Valid()
      reads this
    {
      forall n | n in files && n.Temporary? :: n.id < temporaries
    }

    ghost predicate Quiet() {
      forall n :: outside(n) == map[]
    }

    ghost predicate FaultlessFrom(first: nat) {
      forall n | n >= first :: behaviour(n) == Completes
    }

    ghost predicate AtMostOneFault() {
      forall m, n | m < n :: behaviour(m) == Completes || behaviour(n) == Completes
    }

    method Operation() returns (b: Behaviour)
      modifies this`operations
      ensures operations == old(operations) + 1
      ensures b == behaviour(old(operations))
    {
      b := behaviour(operations);
      operations := operations + 1;
    }

    /** The looks since operation `first`, the last of them at the tree there is. */
    ghost predicate At(r: Trace, first: nat)
      reads this
    {
      Proper(r) && Drift(r, outside, first) && operations == first + Looks(r) && ParentTree(files) == r.tree
    }

    /** One look at the parent tree, after whatever foreign writers do before it. */
    method LookAtParent(ghost r: Trace, ghost first: nat) returns (ok: bool, ghost now: Tree)
      requires At(r, first)
      modifies this`files, this`operations
      ensures now == ParentTree(files) == Edited(r.tree, outside(first + Looks(r)))
      ensures SameTemporaries(old(files), files)
      ensures operations == old(operations) + 1 && ok == !behaviour(old(operations)).Raises?
      ensures Quiet() ==> now == r.tree
    {
      OutsideWrites();
      now := ParentTree(files);
      if Quiet() {
        SameLookups(Edited(r.tree, map[]), r.tree);
      }
      var b := Operation();
      ok := !b.Raises?;
    }

    /** A look at one file of the parent. */
    method LookAtFile(p: Path, ghost r: Trace, ghost first: nat)
      returns (ok: bool, content: Option<Content>, ghost now: Tree)
      requires At(r, first)
      modifies this`files, this`operations
      ensures now == ParentTree(files) == Edited(r.tree, outside(first + Looks(r)))
      ensures SameTemporaries(old(files), files)
      ensures operations == old(operations) + 1 && ok == !behaviour(old(operations)).Raises?
      ensures content == Lookup(now, p)
      ensures Quiet() ==> now == r.tree
    {
      ok, now := LookAtParent(r, first);
      content := if Parent(p) in files then Some(files[Parent(p)]) else None;
    }

    /** `copy2` of one file; it may have gone. A copy that delivers other bytes would go unnoticed, so there is none. */
    method TakeCopy(p: Path, copy: Tree, ghost r: Trace, ghost first: nat)
      returns (ok: bool, copied: Tree, ghost later: Trace)
      requires At(r, first) && WalkOf(r).copy == copy && p in WalkOf(r).names && p !in copy
      modifies this`files, this`operations
      ensures At(later, first) && First(later) == First(r) && SameTemporaries(old(files), files)
      ensures operations == old(operations) + 1
      ensures ok ==> WalkOf(later) == WalkOf(r).(copy := copied) && copied.Keys == copy.Keys + {p}
      ensures Quiet() ==> later.tree == r.tree
      ensures FaultlessFrom(old(operations)) && Quiet() && p in r.tree ==> ok
    {
      var content;
      ghost var now;
      ok, content, now := LookAtFile(p, r, first);
      ok := ok && content.Some?;
      copied := if ok then copy[p := content.value] else copy;
      ghost var step := if ok then Copy(p) else Fail;
      Grew(r, now, step, outside, first);
      later := After(r, now, step);
      if ok {
        TookCopy(r, now, p, content.value);
      }
    }

    /** The digest of the original, which is read again for it. */
    method TakeDigest(p: Path, manifest: Baseline, ghost r: Trace, ghost first: nat)
      returns (ok: bool, noted: Baseline, ghost later: Trace)
      requires At(r, first) && WalkOf(r).manifest == manifest && p in WalkOf(r).copy && p !in manifest
      modifies this`files, this`operations
      ensures At(later, first) && First(later) == First(r) && SameTemporaries(old(files), files)
      ensures operations == old(operations) + 1
      ensures ok ==> WalkOf(later) == WalkOf(r).(manifest := noted) && noted.Keys == manifest.Keys + {p}
      ensures Quiet() ==> later.tree == r.tree
      ensures FaultlessFrom(old(operations)) && Quiet() && p in r.tree ==> ok
    {
      var content;
      ghost var now;
      ok, content, now := LookAtFile(p, r, first);
      ok := ok && content.Some?;
      noted := if ok then manifest[p := Sha256(content.value)] else manifest;
      ghost var step := if ok then Note(p) else Fail;
      Grew(r, now, step, outside, first);
      later := After(r, now, step);
      if ok {
        TookDigest(r, now, p, content.value);
      }
    }

    /** The existence of a listed file, which may be gone by now. */
    method StillThere(p: Path, ghost r: Trace, ghost first: nat)
      returns (ok: bool, there: bool, ghost later: Trace)
      requires At(r, first) && p in WalkOf(r).names && p !in WalkOf(r).copy
      modifies this`files, this`operations
      ensures At(later, first) && First(later) == First(r) && SameTemporaries(old(files), files)
      ensures operations == old(operations) + 1
      ensures ok ==> WalkOf(later) == if there then WalkOf(r) else WalkOf(r).(names := WalkOf(r).names - {p})
      ensures Quiet() ==> later.tree == r.tree
      ensures FaultlessFrom(old(operations)) ==> ok
    {
      var content;
      ghost var now;
      ok, content, now := LookAtFile(p, r, first);
      there := content.Some?;
      ghost var step := if !ok then Fail else if there then Pass(p) else Skip(p);
      Grew(r, now, step, outside, first);
      return ok, there, After(r, now, step);
    }

    /** A listed file is skipped when it is gone by the time it is looked at; when it goes later, the walk raises. */
    method CopyFile(p: Path, copy: Tree, manifest: Baseline, ghost r: Trace, ghost first: nat, ghost listed: iset<Path>,
                    ghost todo: set<Path>)
      returns (ok: bool, copied: Tree, noted: Baseline, ghost later: Trace)
      requires At(r, first) && Taken(r, listed, todo, copy, manifest) && p in todo
      modifies this`files, this`operations
      ensures At(later, first) && First(later) == First(r) && SameTemporaries(old(files), files)
      ensures operations > old(operations)
      ensures ok ==> Taken(later, listed, todo - {p}, copied, noted)
      ensures Quiet() ==> later.tree == r.tree
      ensures FaultlessFrom(old(operations)) && Quiet() && p in r.tree ==> ok
    {
      copied, noted := copy, manifest;
      var there;
      ok, there, later := StillThere(p, r, first);
      if !ok || !there {
        if ok {
          TakenSkipped(r, later, listed, todo, copy, manifest, p);
        }
        return;
      }
      ok, copied, later := TakeCopy(p, copy, later, first);
      if !ok {
        return;
      }
      ok, noted, later := TakeDigest(p, manifest, later, first);
      if ok {
        TakenCopied(r, later, listed, todo, copy, manifest, p, copied, noted);
      }
    }

    /** The files of one directory, listed when the walk comes to it. */
    method CopyDirectory(directory: iset<Path>, copy: Tree, manifest: Baseline, ghost r: Trace, ghost first: nat,
                         ghost done: iset<Path>)
      returns (ok: bool, copied: Tree, noted: Baseline, ghost later: Trace)
      requires At(r, first) && Taken(r, done, {}, copy, manifest) && done !! directory
      modifies this`files, this`operations
      ensures At(later, first) && First(later) == First(r) && SameTemporaries(old(files), files)
      ensures operations >= old(operations)
      ensures ok ==> Taken(later, done + directory, {}, copied, noted)
      ensures Quiet() ==> later.tree == r.tree
      ensures FaultlessFrom(old(operations)) && Quiet() ==> ok
    {
      ghost var now;
      ok, now := LookAtParent(r, first);
      if !ok {
        Grew(r, now, Fail, outside, first);
        return false, copy, manifest, After(r, now, Fail);
      }
      var names := set n | n in files && n.Parent? && n.path in directory :: n.path;
      assert names == set p | p in now && p in directory;
      Grew(r, now, List(directory), outside, first);
      later := After(r, now, List(directory));
      TakenListed(r, now, done, copy, manifest, directory, names);
      ok, copied, noted, later := CopyListed(names, copy, manifest, later, first, done + directory);
    }

    /** The files listed in a directory. */
    method CopyListed(names: set<Path>, copy: Tree, manifest: Baseline, ghost r: Trace, ghost first: nat,
                      ghost listed: iset<Path>)
      returns (ok: bool, copied: Tree, noted: Baseline, ghost later: Trace)
      requires At(r, first) && Taken(r, listed, names, copy, manifest)
      modifies this`files, this`operations
      ensures At(later, first) && First(later) == First(r) && SameTemporaries(old(files), files)
      ensures operations >= old(operations)
      ensures ok ==> Taken(later, listed, {}, copied, noted)
      ensures Quiet() ==> later.tree == r.tree
      ensures FaultlessFrom(old(operations)) && Quiet() && (forall p | p in names :: p in r.tree) ==> ok
    {
      ok, copied, noted, later := true, copy, manifest, r;
      var todo := names;
      while todo != {}
        invariant ok && At(later, first) && First(later) == First(r) && SameTemporaries(old(files), files)
        invariant operations >= old(operations) && (Quiet() ==> later.tree == r.tree)
        invariant todo <= names && Taken(later, listed, todo, copied, noted)
      {
        var p :| p in todo;
        ok, copied, noted, later := CopyFile(p, copied, noted, later, first, listed, todo);
        if !ok {
          return;
        }
        todo := todo - {p};
      }
    }

    /** `_copy_tree`: walk through the directories, copy their files and record a digest of each. An exceeded limit is
        an operation that raises. */
    method CopyTree(directories: seq<iset<Path>>) returns (ok: bool, copy: Tree, manifest: Baseline, ghost r: Trace)
      requires forall i, j | 0 <= i < j < |directories| :: directories[i] !! directories[j]
      modifies this`files, this`operations
      ensures At(r, old(operations)) && First(r) == ParentTree(old(files)) && SameTemporaries(old(files), files)
      ensures operations >= old(operations)
      ensures ok ==> Taken(r, Within(directories), {}, copy, manifest)
      ensures Quiet() && FaultlessFrom(old(operations)) ==> ok
    {
      ok, copy, manifest, r := true, map[], map[], Begin(ParentTree(files));
      assert Within(directories[..0]) == iset{};
      for index := 0 to |directories|
        invariant At(r, old(operations)) && First(r) == ParentTree(old(files)) && SameTemporaries(old(files), files)
        invariant operations >= old(operations)
        invariant Taken(r, Within(directories[..index]), {}, copy, manifest)
      {
        WithinMore(directories, index);
        ghost var done := Within(directories[..index]);
        ok, copy, manifest, r := CopyDirectory(directories[index], copy, manifest, r, old(operations), done);
        if !ok {
          return;
        }
      }
      assert directories[..|directories|] == directories;
      ok := true;
    }

    /** `create`: a snapshot is registered only when it is complete. `r` is the trace of the looks at the parent. */
    method Create(id: nat, directories: seq<iset<Path>>) returns (ok: bool, ghost r: Trace)
      requires Valid() && id !in baselines && id !in trees
      requires forall i, j | 0 <= i < j < |directories| :: directories[i] !! directories[j]
      modifies this`files, this`trees, this`baselines, this`operations
      ensures Valid() && SameTemporaries(old(files), files)
      ensures At(r, old(operations)) && First(r) == ParentTree(old(files))
      ensures !ok ==> trees == old(trees) && baselines == old(baselines)
      ensures ok ==> id in trees && id in baselines
                     && trees == old(trees)[id := trees[id]] && baselines == old(baselines)[id := baselines[id]]
      // Whatever foreign writers do, the looks make up the snapshot, and every visible path has its two reads, or
      // was absent once.
      ensures ok ==> Taken(r, Within(directories), {}, trees[id], baselines[id])
      ensures ok ==> Walked(Trees(r), Within(directories), trees[id], baselines[id])
      // Without them, the snapshot is the visible tree, with its digests.
      ensures ok && Quiet() ==>
        var whole := Visible(ParentTree(old(files)), Within(directories));
        trees[id] == whole && baselines[id] == Digests(whole)
      ensures Quiet() && FaultlessFrom(old(operations)) ==> ok
    {
      var copy, manifest;
      ok, copy, manifest, r := CopyTree(directories);
      StillValid(old(files), files, temporaries);
      if !ok {
        return;
      }
      TakenIsWalked(r, Within(directories), copy, manifest);
      trees, baselines := trees[id := copy], baselines[id := manifest];
      if Quiet() {
        QuietWalk(r, outside, old(operations), Within(directories), copy, manifest);
      }
    }

    /** Read a file of the child's tree, compare its digest, copy it, and compare the digest of the copy. */
    method CopyVerified(tree: Tree, target: Path, digest: Digest) returns (content: Option<Content>)
      modifies this`operations
      ensures operations >= old(operations)
      ensures content.Some? ==> target in tree && Sha256(tree[target]) == digest == Sha256(content.value)
      ensures FaultlessFrom(old(operations)) && target in tree && Sha256(tree[target]) == digest ==> content.Some?
    {
      var read := Operation();
      if read.Raises? || target !in tree || Sha256(tree[target]) != digest {
        return None;
      }
      var copied := Operation();
      if copied.Raises? {
        return None;
      }
      var delivered := if copied.Delivers? then copied.content else tree[target];
      return if Sha256(delivered) == digest then Some(delivered) else None;
    }

    /** Outside the lock: copy every verified artifact out of the child's tree. */
    method Stage(tree: Tree, baseline: Baseline, artifacts: seq<Artifact>)
      returns (staged: Option<seq<Staged>>)
      modifies this`operations
      ensures operations >= old(operations)
      ensures staged.Some? ==>
        Stageable(resolve, tree, artifacts) && StagedFor(resolve, baseline, artifacts, staged.value)
      ensures FaultlessFrom(old(operations)) && Stageable(resolve, tree, artifacts) ==> staged.Some?
    {
      var result: seq<Staged> := [];
      var seen: set<Path> := {};
      for index := 0 to |artifacts|
        invariant operations >= old(operations)
        invariant StagedFor(resolve, baseline, artifacts[..index], result)
        invariant forall i | 0 <= i < index :: result[i].target in seen
        invariant forall p | p in seen :: exists i :: 0 <= i < index && result[i].target == p
        invariant Stageable(resolve, tree, artifacts[..index])
      {
        var artifact := artifacts[index];
        var target := Resolve(resolve, artifact.requested);
        if target.None? || target.value in seen {
          return None;
        }
        seen := seen + {target.value};
        var content := CopyVerified(tree, target.value, artifact.sha256);
        if content.None? {
          return None;
        }
        result := result + [Staged(content.value, target.value, Lookup(baseline, target.value), artifact.sha256)];
        assert artifacts[..index + 1] == artifacts[..index] + [artifact];
      }
      assert artifacts[..|artifacts|] == artifacts;
      return Some(result);
    }

    /** `mkstemp` followed by a copy whose digest is checked. The file is there even when the rest fails. */
    method CopyToTemporary(content: Content, digest: Digest) returns (made: Option<FileName>, ok: bool)
      requires Valid()
      modifies this`files, this`operations, this`temporaries
      ensures Valid() && temporaries >= old(temporaries) && operations >= old(operations)
      ensures made.None? ==> files == old(files) && temporaries == old(temporaries) && !ok
      ensures made.Some? ==>
        && made == Some(Temporary(old(temporaries))) && temporaries == old(temporaries) + 1
        && made.value in files && files == old(files)[made.value := files[made.value]]
      ensures ok ==> made.Some? && Sha256(files[made.value]) == digest
      ensures FaultlessFrom(old(operations)) && Sha256(content) == digest ==> ok
    {
      var opening := Operation();
      if opening.Raises? {
        return None, false;
      }
      var temporary := Temporary(temporaries);
      temporaries := temporaries + 1;
      files := files[temporary := ""];
      var copied := Operation();
      if copied.Raises? {
        return Some(temporary), false;
      }
      files := files[temporary := if copied.Delivers? then copied.content else content];
      return Some(temporary), Sha256(files[temporary]) == digest;
    }

    /** Under the lock: a temporary beside every target. `made` is the list the clean-up goes through. */
    method Prepare(staged: seq<Staged>) returns (prepared: Option<seq<Prepared>>, made: seq<FileName>)
      requires Valid()
      modifies this`files, this`operations, this`temporaries
      ensures Valid() && temporaries >= old(temporaries) && operations >= old(operations)
      ensures OnlyAdded(old(files), files, old(temporaries), temporaries, made)
      ensures prepared.Some? ==> AllPrepared(files, staged, prepared.value, made)
      ensures FaultlessFrom(old(operations)) && (forall s | s in staged :: Sha256(s.content) == s.digest) ==>
        prepared.Some?
    {
      made := [];
      var result: seq<Prepared> := [];
      var index := 0;
      while index < |staged|
        invariant 0 <= index <= |staged|
        invariant Valid() && temporaries >= old(temporaries) && operations >= old(operations)
        invariant OnlyAdded(old(files), files, old(temporaries), temporaries, made)
        invariant AllPrepared(files, staged[..index], result, made)
      {
        ghost var mid, high, earlier := files, temporaries, made;
        var s := staged[index];
        var temporary, ok := CopyToTemporary(s.content, s.digest);
        if temporary.Some? {
          made := made + [temporary.value];
          OneMoreAdded(old(files), mid, files, old(temporaries), high, earlier);
        }
        if !ok {
          return None, made;
        }
        OneMorePrepared(mid, files, staged, index, result, earlier, high);
        result := result + [Prepared(temporary.value, s.target, s.original, s.digest)];
        index := index + 1;
      }
      assert staged[..index] == staged;
      return Some(result), made;
    }

    /** `_revalidate_parent_artifacts`. */
    method Revalidate(prepared: seq<Prepared>) returns (ok: bool)
      modifies this`operations
      ensures operations >= old(operations)
      ensures ok ==> forall p | p in prepared :: Untouched(ParentTree(files), p.target, p.original)
      ensures FaultlessFrom(old(operations)) ==>
        (ok <==> forall p | p in prepared :: Untouched(ParentTree(files), p.target, p.original))
    {
      for index := 0 to |prepared|
        invariant operations >= old(operations)
        invariant forall i | 0 <= i < index :: Untouched(ParentTree(files), prepared[i].target, prepared[i].original)
      {
        var p := prepared[index];
        var read := Operation();
        if read.Raises? {
          return false;
        }
        var name := Parent(p.target);
        if p.original.None? {
          if name in files {
            return false;
          }
        } else if name !in files || Sha256(files[name]) != p.original.value {
          return false;
        }
      }
      return true;
    }

    /** A backup of one target; nothing is done for a target that was absent. */
    method BackUpOne(p: Prepared, backups: map<Path, FileName>) returns (ok: bool, grown: map<Path, FileName>)
      requires Valid()
      modifies this`files, this`operations, this`temporaries
      ensures Valid() && temporaries >= old(temporaries) && operations >= old(operations)
      ensures if temporaries == old(temporaries) then grown == backups && files == old(files) else
        var backup := Temporary(old(temporaries));
        && temporaries == old(temporaries) + 1
        && grown == backups[p.target := backup] && backup in files && files == old(files)[backup := files[backup]]
      ensures ok ==>
        if p.original.None? then grown == backups else temporaries > old(temporaries) && BackedUp(files, p, grown)
      ensures FaultlessFrom(old(operations)) && Untouched(ParentTree(old(files)), p.target, p.original) ==> ok
    {
      grown := backups;
      if p.original.None? {
        return true, grown;
      }
      if Parent(p.target) !in files {
        return false, grown;
      }
      var backup, copied := CopyToTemporary(files[Parent(p.target)], p.original.value);
      if backup.Some? {
        grown := backups[p.target := backup.value];
      }
      return copied, grown;
    }

    /** A backup of every target that had an original. */
    method BackUp(prepared: seq<Prepared>) returns (ok: bool, backups: map<Path, FileName>)
      requires Valid() && DistinctTargets(prepared)
      modifies this`files, this`operations, this`temporaries
      ensures Valid() && temporaries >= old(temporaries) && operations >= old(operations)
      ensures OnlyBackups(old(files), files, old(temporaries), temporaries, backups)
      ensures ok ==> AllBackedUp(files, prepared, |prepared|, backups)
      ensures FaultlessFrom(old(operations)) ==>
        (forall p | p in prepared :: Untouched(ParentTree(old(files)), p.target, p.original)) ==> ok
    {
      backups := map[];
      var index := 0;
      while index < |prepared|
        invariant 0 <= index <= |prepared|
        invariant Valid() && temporaries >= old(temporaries) && operations >= old(operations)
        invariant OnlyBackups(old(files), files, old(temporaries), temporaries, backups)
        invariant AllBackedUp(files, prepared, index, backups)
      {
        ghost var earlier, mid, high := backups, files, temporaries;
        SameParents(old(files), mid, old(temporaries), high, backups);
        ok, backups := BackUpOne(prepared[index], backups);
        if temporaries > high {
          AddBackup(old(files), mid, files, old(temporaries), high, earlier, prepared[index].target);
        }
        if !ok {
          return;
        }
        StillBackedUp(mid, files, prepared, index, earlier, backups);
        index := index + 1;
      }
      ok := true;
    }

    /** Uncoordinated writers touch the workspace's own files, never a name made by `mkstemp`. */
    method OutsideWrites()
      modifies this`files
      ensures forall n: FileName | n.Temporary? :: Lookup(files, n) == Lookup(old(files), n)
      ensures ParentTree(files) == Edited(ParentTree(old(files)), outside(operations))
    {
      var edits := outside(operations);
      var names := set p | p in edits :: Parent(p);
      var removed := set p | p in edits && edits[p].None? :: Parent(p);
      files := map n | n in files.Keys + names && n !in removed ::
        if n.Parent? && n.path in edits && edits[n.path].Some? then edits[n.path].value
        else if n in files then files[n] else "";
      EditedFiles(old(files), files, edits);
    }

    /** `temporary.replace(target)`. */
    method Move(p: Prepared) returns (ok: bool)
      requires p.temporary.Temporary? && p.temporary in files
      modifies this`files, this`operations
      ensures forall n: FileName | n.Temporary? && n != p.temporary :: Lookup(files, n) == Lookup(old(files), n)
      ensures Lookup(files, p.temporary) == if ok then None else Lookup(old(files), p.temporary)
      ensures var edited := Edited(ParentTree(old(files)), outside(old(operations)));
        ParentTree(files) == if ok then edited[p.target := old(files)[p.temporary]] else edited
      ensures operations == old(operations) + 1 && ok == !behaviour(old(operations)).Raises?
    {
      OutsideWrites();
      ghost var edited := files;
      var moving := Operation();
      if moving.Raises? {
        return false;
      }
      assert Lookup(files, p.temporary) == Lookup(old(files), p.temporary);
      files := (files - {p.temporary})[Parent(p.target) := files[p.temporary]];
      MovedFile(edited, files, p);
      return true;
    }

    /** The move number `index`, onto the tree that the foreign writes before it leave. */
    method ReplaceOne(ghost was: Files, prepared: seq<Prepared>, index: nat, ghost edited: Tree) returns (ok: bool)
      requires index < |prepared| && Spent(was, files, prepared, index)
      requires forall i, j | 0 <= i < j < |prepared| :: prepared[i].temporary != prepared[j].temporary
      requires forall p | p in prepared ::
        p.temporary.Temporary? && p.temporary in was && Sha256(was[p.temporary]) == p.digest
      requires edited == Edited(ParentTree(files), outside(operations))
      modifies this`files, this`operations
      ensures ParentTree(files) ==
        if ok then edited[prepared[index].target := prepared[index].digest.content] else edited
      ensures Spent(was, files, prepared, if ok then index + 1 else index)
      ensures operations == old(operations) + 1 && ok == !behaviour(old(operations)).Raises?
    {
      ghost var mid := files;
      StillStaged(was, mid, prepared, index);
      ok := Move(prepared[index]);
      OneMoreSpent(was, mid, files, prepared, index, ok);
    }

    /** Moves every temporary onto its target, up to the first failure. */
    method ReplaceAll(prepared: seq<Prepared>) returns (replaced: seq<Prepared>)
      requires forall i, j | 0 <= i < j < |prepared| :: prepared[i].temporary != prepared[j].temporary
      requires forall p | p in prepared ::
        p.temporary.Temporary? && p.temporary in files && Sha256(files[p.temporary]) == p.digest
      modifies this`files, this`operations
      ensures replaced <= prepared && operations >= old(operations)
      ensures |replaced| < |prepared| ==>
        operations == old(operations) + |replaced| + 1 && behaviour(old(operations) + |replaced|).Raises?
      ensures Spent(old(files), files, prepared, |replaced|)
      ensures ParentTree(files) ==
        if |replaced| == |prepared| then
          Interleaved(ParentTree(old(files)), MovesOf(prepared), |prepared|, outside, old(operations))
        else Interrupted(ParentTree(old(files)), MovesOf(prepared), |replaced|, outside, old(operations))
      ensures FaultlessFrom(old(operations)) ==> replaced == prepared
    {
      ghost var t, first, moves := ParentTree(files), operations, MovesOf(prepared);
      for index := 0 to |prepared|
        invariant operations == first + index
        invariant Spent(old(files), files, prepared, index)
        invariant ParentTree(files) == Interleaved(t, moves, index, outside, first)
      {
        ghost var edited := Edited(ParentTree(files), outside(operations));
        OneMoreMove(ParentTree(files), edited, t, moves, index, outside, first, operations);
        var ok := ReplaceOne(old(files), prepared, index, edited);
        if !ok {
          return prepared[..index];
        }
      }
      return prepared;
    }

    /** One step of `_rollback_artifacts`; `ok` is false when the location goes to the failures. */
    method RollbackOne(p: Prepared, backups: map<Path, FileName>) returns (ok: bool)
      requires p.target in backups ==> backups[p.target] in files
      modifies this`files, this`operations
      ensures operations >= old(operations)
      ensures if ok then StillOurs(old(files), p) && files == Undone(old(files), p, backups) else files == old(files)
      ensures FaultlessFrom(old(operations)) ==> ok == StillOurs(old(files), p)
    {
      var name := Parent(p.target);
      var read := Operation();
      if read.Raises? || name !in files || Sha256(files[name]) != p.digest {
        return false;
      }
      var undo := Operation();
      if undo.Raises? {
        return false;
      }
      if p.target in backups {
        files := (files - {backups[p.target]})[name := files[backups[p.target]]];
      } else {
        files := files - {name};
      }
      return true;
    }

    /** `_rollback_artifacts`, from any state of the parent tree: whatever foreign writers did since the
        replacements, only content this publish wrote is overwritten. */
    method RollbackArtifacts(replaced: seq<Prepared>, backups: map<Path, FileName>) returns (failures: seq<FileName>)
      requires Undoable(files, replaced, backups)
      modifies this`files, this`operations
      ensures RolledBack(old(files), files, replaced, 0, backups, failures)
      ensures operations >= old(operations)
      ensures FaultlessFrom(old(operations)) ==>
        forall p | p in replaced ::
          Location(p, backups) in failures <==> Lookup(old(files), Parent(p.target)) != Some(p.digest.content)
      ensures FaultlessFrom(old(operations)) && (forall p | p in replaced :: StillOurs(old(files), p)) ==>
        failures == []
    {
      failures := [];
      var index := |replaced|;
      while index > 0
        invariant 0 <= index <= |replaced|
        invariant operations >= old(operations)
        invariant RolledBack(old(files), files, replaced, index, backups, failures)
        invariant FaultlessFrom(old(operations)) ==>
          forall p | p in replaced[index..] :: Location(p, backups) in failures <==> !StillOurs(old(files), p)
        invariant FaultlessFrom(old(operations)) && (forall p | p in replaced :: StillOurs(old(files), p)) ==>
          failures == []
      {
        index := index - 1;
        var p := replaced[index];
        ghost var mid := files;
        UntouchedSoFar(old(files), mid, replaced, index, backups, failures);
        var ok := RollbackOne(p, backups);
        RollbackStep(old(files), mid, files, replaced, index, backups, failures, ok);
        if !ok {
          failures := failures + [if p.target in backups then backups[p.target] else Parent(p.target)];
        }
        assert replaced[index..] == [p] + replaced[index + 1..];
      }
    }

    /** The clean-up that always runs: temporaries and unreported backups are unlinked. */
    method CleanUp(made: seq<FileName>, backups: map<Path, FileName>, retained: seq<FileName>)
      requires Valid()
      modifies this`files
      ensures Valid()
      ensures forall n | n in files ::
        n in old(files) && (n in made || IsBackup(n, backups) ==> n !in made && n in retained)
      ensures forall n :: Lookup(files, n) ==
                          if n in made || (IsBackup(n, backups) && n !in retained) then None else Lookup(old(files), n)
    {
      for index := 0 to |made|
        invariant forall n :: Lookup(files, n) == if n in made[..index] then None else Lookup(old(files), n)
      {
        assert made[..index + 1] == made[..index] + [made[index]];
        files := files - {made[index]};
      }
      ghost var cleaned := files;
      var todo := backups.Keys;
      ghost var done: set<Path> := {};
      while todo != {}
        invariant todo !! done && todo + done == backups.Keys
        invariant forall n ::
          Lookup(files, n) == if BackupAmong(n, backups, done) && n !in retained then None else Lookup(cleaned, n)
      {
        var target :| target in todo;
        if backups[target] !in retained {
          files := files - {backups[target]};
        }
        todo, done := todo - {target}, done + {target};
      }
      forall n | n in files
        ensures n in old(files) && (n in made || IsBackup(n, backups) ==> n !in made && n in retained)
      {
        assert Lookup(files, n).Some?;
      }
    }

    /** What happens when a replacement raises. */
    method RollBack(ghost was: Files, ghost first: nat, ghost prepared: seq<Prepared>, replaced: seq<Prepared>,
                    backups: map<Path, FileName>)
      returns (r: Outcome)
      requires Committable(was, prepared, backups) && replaced < prepared
      requires forall n: FileName | n.Temporary? && (forall p | p in prepared :: p.temporary != n) ::
        Lookup(files, n) == Lookup(was, n)
      requires ParentTree(files) == Interrupted(ParentTree(was), MovesOf(prepared), |replaced|, outside, first)
      modifies this`files, this`operations
      ensures !r.Published? && CommitResult(ParentTree(was), files, r, outside, first, prepared, backups)
      ensures Quiet() && FaultlessFrom(old(operations)) ==> r.Raised?
      ensures operations >= old(operations)
      ensures forall n: FileName | n.Temporary? && n in files :: n in old(files)
    {
      ghost var mid := files;
      BackupsSurvive(was, mid, prepared, replaced, backups);
      var failures := RollbackArtifacts(replaced, backups);
      assert replaced[0..] == replaced;
      NoNewTemporaries(mid, files, replaced, backups, failures);
      RollbackRestores(was, mid, files, prepared, replaced, backups, failures);
      if Quiet() {
        QuietlyReplaced(was, mid, prepared, replaced, backups, outside, first);
      }
      if failures == [] {
        return Raised;
      }
      RollbackKeeps(was, mid, files, prepared, replaced, backups, failures);
      return NeedsRecovery(failures);
    }

    /** Replace, and roll back when a replacement raises. */
    method Commit(prepared: seq<Prepared>, backups: map<Path, FileName>) returns (r: Outcome)
      requires Committable(files, prepared, backups)
      modifies this`files, this`operations
      ensures forall n: FileName | n.Temporary? && n in files :: n in old(files)
      ensures FaultlessFrom(old(operations)) ==> r.Published?
      ensures operations >= old(operations)
      ensures CommitResult(ParentTree(old(files)), files, r, outside, old(operations), prepared, backups)
      ensures Quiet() && AtMostOneFault() ==> !r.NeedsRecovery?
    {
      var replaced := ReplaceAll(prepared);
      NoneMade(old(files), files, prepared, |replaced|);
      if |replaced| == |prepared| {
        return Published;
      }
      if AtMostOneFault() {
        assert behaviour(old(operations) + |replaced|) != Completes;
        assert FaultlessFrom(operations);
      }
      r := RollBack(old(files), old(operations), prepared, replaced, backups);
    }

    /** The locked section once everything is backed up. */
    method CommitLocked(prepared: seq<Prepared>, backups: map<Path, FileName>, ghost baseline: Baseline,
                        ghost writes: Tree)
      returns (r: Outcome)
      requires Committable(files, prepared, backups) && Stands(prepared, baseline, writes)
      modifies this`files, this`operations
      ensures forall n: FileName | n.Temporary? && n in files :: n in old(files)
      ensures FaultlessFrom(old(operations)) ==> r.Published?
      ensures LockedResult(ParentTree(old(files)), files, r, outside, old(operations), baseline, writes)
      ensures operations >= old(operations)
      ensures Quiet() && AtMostOneFault() ==> !r.NeedsRecovery?
      ensures r.NeedsRecovery? ==> forall f | f in r.failures :: f.Parent? || IsBackup(f, backups)
    {
      r := Commit(prepared, backups);
      CommitMeans(old(files), files, r, outside, old(operations), prepared, backups, baseline, writes);
      if r.NeedsRecovery? {
        ReportedLocations(files, prepared, backups, r.failures);
      }
    }

    /** The locked section once the targets are known to be untouched. */
    method BackUpAndCommit(ghost staged: seq<Staged>, prepared: seq<Prepared>, ghost made: seq<FileName>,
                           ghost baseline: Baseline, ghost writes: Tree)
      returns (r: Outcome, backups: map<Path, FileName>, ghost first: nat)
      requires Valid() && DistinctTargets(prepared) && Stands(prepared, baseline, writes)
      requires AllPrepared(files, staged, prepared, made)
      requires forall n | n in made :: n.Temporary? && n.id < temporaries
      requires forall p | p in prepared :: Untouched(ParentTree(files), p.target, p.original)
      modifies this`files, this`operations, this`temporaries
      ensures Valid() && temporaries >= old(temporaries)
      ensures LockedResult(ParentTree(old(files)), files, r, outside, first, baseline, writes)
      ensures old(operations) <= first <= operations
      ensures Quiet() && AtMostOneFault() ==> !r.NeedsRecovery?
      ensures FaultlessFrom(old(operations)) ==> r.Published?
      ensures forall n: FileName | n.Temporary? && n in files :: n in old(files) || IsBackup(n, backups)
      ensures forall t | t in backups :: backups[t].Temporary? && old(temporaries) <= backups[t].id < temporaries
      ensures r.NeedsRecovery? ==> forall f | f in r.failures :: f.Parent? || IsBackup(f, backups)
    {
      var saved;
      saved, backups := BackUp(prepared);
      SameParents(old(files), files, old(temporaries), temporaries, backups);
      if !saved {
        return Raised, backups, operations;
      }
      ReadyToCommit(old(files), files, old(temporaries), temporaries, staged, prepared, made, backups);
      first := operations;
      r := CommitLocked(prepared, backups, baseline, writes);
    }

    /** Revalidation in terms of the baseline and the writes. */
    method StillCurrent(prepared: seq<Prepared>, ghost baseline: Baseline, ghost writes: Tree) returns (ok: bool)
      requires Stands(prepared, baseline, writes)
      modifies this`operations
      ensures operations >= old(operations)
      ensures ok ==> Current(ParentTree(files), baseline, writes)
      ensures ok ==> forall p | p in prepared :: Untouched(ParentTree(files), p.target, p.original)
      ensures FaultlessFrom(old(operations)) && Current(ParentTree(files), baseline, writes) ==> ok
    {
      CurrentIff(ParentTree(files), baseline, writes, prepared);
      ok := Revalidate(prepared);
    }

    /** The locked section once the temporaries are there: revalidate, back up, commit. */
    method RevalidateAndCommit(ghost staged: seq<Staged>, prepared: seq<Prepared>, ghost made: seq<FileName>,
                               ghost baseline: Baseline, ghost writes: Tree)
      returns (r: Outcome, backups: map<Path, FileName>, ghost first: nat)
      requires Valid() && DistinctTargets(prepared) && Stands(prepared, baseline, writes)
      requires AllPrepared(files, staged, prepared, made)
      requires forall n | n in made :: n.Temporary? && n.id < temporaries
      modifies this`files, this`operations, this`temporaries
      ensures Valid() && temporaries >= old(temporaries)
      ensures LockedResult(ParentTree(old(files)), files, r, outside, first, baseline, writes)
      ensures old(operations) <= first <= operations
      ensures !r.Raised? ==> Current(ParentTree(old(files)), baseline, writes)
      ensures Quiet() && AtMostOneFault() ==> !r.NeedsRecovery?
      ensures FaultlessFrom(old(operations)) && Current(ParentTree(old(files)), baseline, writes) ==> r.Published?
      ensures forall n: FileName | n.Temporary? && n in files :: n in old(files) || IsBackup(n, backups)
      ensures forall t | t in backups :: backups[t].Temporary? && old(temporaries) <= backups[t].id < temporaries
      ensures r.NeedsRecovery? ==> forall f | f in r.failures :: f.Parent? || IsBackup(f, backups)
    {
      var valid := StillCurrent(prepared, baseline, writes);
      if !valid {
        return Raised, map[], operations;
      }
      r, backups, first := BackUpAndCommit(staged, prepared, made, baseline, writes);
    }

    method PublishPrepared(ghost tree: Tree, ghost baseline: Baseline, ghost artifacts: seq<Artifact>,
                           ghost staged: seq<Staged>, prepared: seq<Prepared>, ghost made: seq<FileName>)
      returns (r: Outcome, backups: map<Path, FileName>, ghost first: nat)
      requires Valid() && Stageable(resolve, tree, artifacts) && StagedFor(resolve, baseline, artifacts, staged)
      requires AllPrepared(files, staged, prepared, made)
      requires forall n | n in made :: n.Temporary? && n.id < temporaries
      modifies this`files, this`operations, this`temporaries
      ensures Valid() && temporaries >= old(temporaries)
      ensures LockedResult(ParentTree(old(files)), files, r, outside, first, baseline, Writes(resolve, artifacts))
      ensures old(operations) <= first <= operations
      ensures !r.Raised? ==> Current(ParentTree(old(files)), baseline, Writes(resolve, artifacts))
      ensures Quiet() && AtMostOneFault() ==> !r.NeedsRecovery?
      ensures FaultlessFrom(old(operations)) ==>
        Current(ParentTree(old(files)), baseline, Writes(resolve, artifacts)) ==> r.Published?
      ensures forall n: FileName | n.Temporary? && n in files :: n in old(files) || IsBackup(n, backups)
      ensures forall t | t in backups :: backups[t].Temporary? && old(temporaries) <= backups[t].id < temporaries
      ensures r.NeedsRecovery? ==> forall f | f in r.failures :: f.Parent? || IsBackup(f, backups)
    {
      PreparedAreWrites(resolve, tree, baseline, artifacts, prepared);
      r, backups, first := RevalidateAndCommit(staged, prepared, made, baseline, Writes(resolve, artifacts));
    }

    /** The locked section: prepare, revalidate, back up, commit. */
    method PublishStaged(ghost tree: Tree, ghost baseline: Baseline, ghost artifacts: seq<Artifact>,
                         staged: seq<Staged>)
      returns (r: Outcome, made: seq<FileName>, backups: map<Path, FileName>, ghost first: nat)
      requires Valid() && Stageable(resolve, tree, artifacts) && StagedFor(resolve, baseline, artifacts, staged)
      modifies this`files, this`operations, this`temporaries
      ensures Valid() && temporaries >= old(temporaries)
      ensures LockedResult(ParentTree(old(files)), files, r, outside, first, baseline, Writes(resolve, artifacts))
      ensures old(operations) <= first <= operations
      ensures !r.Raised? ==> Current(ParentTree(old(files)), baseline, Writes(resolve, artifacts))
      ensures Quiet() && AtMostOneFault() ==> !r.NeedsRecovery?
      ensures FaultlessFrom(old(operations)) ==>
        Current(ParentTree(old(files)), baseline, Writes(resolve, artifacts)) ==> r.Published?
      ensures forall n: FileName | n.Temporary? && n in files :: n in old(files) || n in made || IsBackup(n, backups)
      ensures forall n | n in made :: n.Temporary? && old(temporaries) <= n.id
      ensures forall t | t in backups :: backups[t].Temporary? && backups[t] !in made
      ensures r.NeedsRecovery? ==> forall f | f in r.failures :: f !in made
    {
      var prepared;
      prepared, made := Prepare(staged);
      SameParentsAdded(old(files), files, old(temporaries), temporaries, made);
      backups := map[];
      r, first := Raised, operations;
      if prepared.Some? {
        r, backups, first := PublishPrepared(tree, baseline, artifacts, staged, prepared.value, made);
      }
    }

    /** The locked section and the clean-up after it. */
    method PublishAndClean(ghost tree: Tree, ghost baseline: Baseline, ghost artifacts: seq<Artifact>,
                           staged: seq<Staged>)
      returns (r: Outcome, ghost first: nat)
      requires Valid() && Stageable(resolve, tree, artifacts) && StagedFor(resolve, baseline, artifacts, staged)
      modifies this`files, this`operations, this`temporaries
      ensures Valid()
      ensures forall n: FileName | n.Temporary? && n in files ::
        n in old(files) || (r.NeedsRecovery? && n in r.failures)
      ensures LockedResult(ParentTree(old(files)), files, r, outside, first, baseline, Writes(resolve, artifacts))
      ensures old(operations) <= first <= operations
      ensures !r.Raised? ==> Current(ParentTree(old(files)), baseline, Writes(resolve, artifacts))
      ensures Quiet() && AtMostOneFault() ==> !r.NeedsRecovery?
      ensures FaultlessFrom(old(operations)) ==>
        Current(ParentTree(old(files)), baseline, Writes(resolve, artifacts)) ==> r.Published?
    {
      var made, backups;
      r, made, backups, first := PublishStaged(tree, baseline, artifacts, staged);
      ghost var dirty := files;
      CleanUp(made, backups, if r.NeedsRecovery? then r.failures else []);
      assert forall n: FileName | n.Parent? || (r.NeedsRecovery? && n in r.failures) ::
        Lookup(files, n) == Lookup(dirty, n);
      CleanResult(ParentTree(old(files)), dirty, files, r, outside, first, baseline, Writes(resolve, artifacts));
    }

    ghost predicate StageableAndCurrent(files: Files, tree: Tree, baseline: Baseline, artifacts: seq<Artifact>) {
      Stageable(resolve, tree, artifacts) && Current(ParentTree(files), baseline, Writes(resolve, artifacts))
    }

    /** Everything up to the update of the baseline. */
    method StageAndPublish(tree: Tree, baseline: Baseline, artifacts: seq<Artifact>)
      returns (r: Outcome, staged: seq<Staged>, ghost first: nat)
      requires Valid()
      modifies this`files, this`operations, this`temporaries
      ensures Valid()
      ensures forall n: FileName | n.Temporary? && n in files ::
        n in old(files) || (r.NeedsRecovery? && n in r.failures)
      ensures LockedResult(ParentTree(old(files)), files, r, outside, first, baseline, Writes(resolve, artifacts))
      ensures old(operations) <= first <= operations
      ensures !r.Raised? ==> StageableAndCurrent(old(files), tree, baseline, artifacts)
      ensures !StageableAndCurrent(old(files), tree, baseline, artifacts) ==>
        ParentTree(files) == ParentTree(old(files))
      ensures !r.Raised? ==> StagedFor(resolve, baseline, artifacts, staged)
      ensures Quiet() && AtMostOneFault() ==> !r.NeedsRecovery?
      ensures FaultlessFrom(old(operations)) && StageableAndCurrent(old(files), tree, baseline, artifacts) ==>
        r.Published?
    {
      var copies := Stage(tree, baseline, artifacts);
      if copies.None? {
        return Raised, [], operations;
      }
      staged := copies.value;
      r, first := PublishAndClean(tree, baseline, artifacts, staged);
      if !StageableAndCurrent(old(files), tree, baseline, artifacts) {
        RefusedChangesNothing(ParentTree(old(files)), files, r, outside, first, baseline, Writes(resolve, artifacts));
      }
    }

    /** What the checks before the first replacement demand. */
    ghost predicate Publishable(files: Files, trees: map<nat, Tree>, baselines: map<nat, Baseline>, id: nat,
                                artifacts: seq<Artifact>)
    {
      id in baselines && StageableAndCurrent(files, TreeOf(trees, id), baselines[id], artifacts)
    }

    /** `publish_artifacts`. */
    method PublishArtifacts(id: nat, artifacts: seq<Artifact>) returns (r: Outcome, ghost first: nat)
      requires Valid()
      modifies this`files, this`operations, this`temporaries, this`baselines
      ensures Valid()
      // No temporary is left behind, except backups that hold the only copy of an original.
      ensures forall n: FileName | n.Temporary? && n in files ::
        n in old(files) || (r.NeedsRecovery? && n in r.failures)
      ensures !Publishable(old(files), trees, old(baselines), id, artifacts) ==>
        r.Raised? && ParentTree(files) == ParentTree(old(files))
      // Whatever foreign writers do: the writes interleaved with theirs, or every target replaced before the
      // failure is restored, unless it was found changed or could not be restored, and then it is reported.
      ensures id in old(baselines) ==>
        LockedResult(ParentTree(old(files)), files, r, outside, first, old(baselines)[id], Writes(resolve, artifacts))
      ensures old(operations) <= first <= operations
      ensures id !in old(baselines) ==> r.Raised? && files == old(files)
      // All or nothing for every path they leave alone: the verified writes over the tree as it was, or the
      // tree as it was, or a report of every target that could not be put back.
      ensures id in old(baselines) ==> forall p: Path | (forall n: nat :: p !in outside(n)) ::
        AllOrNothing(ParentTree(old(files)), files, r, old(baselines)[id], Writes(resolve, artifacts), p)
      ensures baselines ==
        if r.Published? then Rebased(old(baselines), id, Writes(resolve, artifacts)) else old(baselines)
      // One fault is always undone, and without a fault nothing but the checks can refuse.
      ensures Quiet() && AtMostOneFault() ==> !r.NeedsRecovery?
      ensures FaultlessFrom(old(operations)) && Publishable(old(files), trees, old(baselines), id, artifacts) ==>
        r.Published?
    {
      if id !in baselines {
        return Raised, operations;
      }
      var staged;
      r, staged, first := StageAndPublish(TreeOf(trees, id), baselines[id], artifacts);
      assert !r.Raised? ==> Publishable(old(files), trees, baselines, id, artifacts);
      forall p: Path | forall n: nat :: p !in outside(n)
        ensures AllOrNothing(ParentTree(old(files)), files, r, baselines[id], Writes(resolve, artifacts), p)
      {
        LeftAlone(ParentTree(old(files)), files, r, outside, first, baselines[id], Writes(resolve, artifacts), p);
      }
      if r.Published? {
        UpdateBaseline(id, artifacts, staged);
      }
    }

    /** `baseline[target] = digest` for everything published. */
    method UpdateBaseline(id: nat, ghost artifacts: seq<Artifact>, staged: seq<Staged>)
      requires id in baselines && StagedFor(resolve, baselines[id], artifacts, staged)
      modifies this`baselines
      ensures baselines == Rebased(old(baselines), id, Writes(resolve, artifacts))
    {
      ghost var baseline := baselines[id];
      var updated := baselines[id];
      for index := 0 to |staged|
        invariant updated == baseline + Digests(Writes(resolve, artifacts[..index]))
        invariant baselines == old(baselines)
      {
        assert artifacts[..index + 1][..index] == artifacts[..index];
        var a := artifacts[index];
        OverlayGrows(baseline, Writes(resolve, artifacts[..index]), staged[index].target, a.sha256.content);
        updated := updated[staged[index].target := staged[index].digest];
      }
      assert artifacts[..|staged|] == artifacts;
      baselines := baselines[id := updated];
    }
  }
}
