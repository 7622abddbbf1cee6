/** Which runs a resumed run may receive mail for: itself and the runs it continues, within its session. */
module ReceiverScope {
  import opened Options

  datatype Row = Row(session: nat, parent: Option<nat>)

  predicate InSession(rows: map<nat, Row>, session: nat, id: nat) {
    id in rows && rows[id].session == session
  }

  /** A walk along parent links over rows of the session that does not come back to the run itself. */
  ghost predicate Walk(rows: map<nat, Row>, session: nat, run: nat, path: seq<nat>) {
    && path != []
    && (forall i | 0 <= i < |path| :: InSession(rows, session, path[i]) && path[i] != run)
    && (forall i, j | 0 <= i < |path| - 1 && j == i + 1 :: rows[path[i]].parent == Some(path[j]))
  }

  ghost predicate Reaches(rows: map<nat, Row>, session: nat, run: nat, from: Option<nat>, id: nat) {
    exists path :: Walk(rows, session, run, path) && from == Some(path[0]) && path[|path| - 1] == id
  }

  /** What is left to look at: nothing, a run already listed, or one outside the session. */
  ghost predicate Finished(rows: map<nat, Row>, session: nat, ids: seq<nat>, previous: Option<nat>) {
    previous.None? || previous.value in ids || !InSession(rows, session, previous.value)
  }

  /** The listed runs after the first are the beginning of the chain; `previous` comes next. */
  ghost predicate ChainTo(rows: map<nat, Row>, session: nat, run: nat, from: Option<nat>, ids: seq<nat>,
                          previous: Option<nat>) {
    && ids != [] && ids[0] == run
    && (forall i, j | 0 <= i < j < |ids| :: ids[i] != ids[j])
    && (forall i | 1 <= i < |ids| :: InSession(rows, session, ids[i]))
    && (if |ids| == 1 then previous == from else from == Some(ids[1]) && rows[ids[|ids| - 1]].parent == previous)
    && (forall i, j | 1 <= i < |ids| - 1 && j == i + 1 :: rows[ids[i]].parent == Some(ids[j]))
  }

  lemma ListedIsReached(rows: map<nat, Row>, session: nat, run: nat, from: Option<nat>, ids: seq<nat>,
                        previous: Option<nat>, i: nat)
    requires ChainTo(rows, session, run, from, ids, previous) && 1 <= i < |ids|
    ensures Reaches(rows, session, run, from, ids[i])
  {
    var path := ids[1..i + 1];
    assert Walk(rows, session, run, path) && path[|path| - 1] == ids[i];
  }

  lemma {:induction false} ReachedIsListed(rows: map<nat, Row>, session: nat, run: nat, from: Option<nat>,
                                           ids: seq<nat>, previous: Option<nat>, path: seq<nat>)
    requires ChainTo(rows, session, run, from, ids, previous) && Finished(rows, session, ids, previous)
    requires Walk(rows, session, run, path) && from == Some(path[0])
    ensures path[|path| - 1] in ids
    decreases |path|
  {
    var last := |path| - 1;
    if last > 0 {
      ReachedIsListed(rows, session, run, from, ids, previous, path[..last]);
      assert path[..last][last - 1] == path[last - 1];
      var i :| 0 <= i < |ids| && ids[i] == path[last - 1];
      assert i != 0 && rows[ids[i]].parent == Some(path[last]);
      assert i < |ids| - 1 ==> ids[i + 1] == path[last];
    }
  }

  /** The listed runs are those the chain reaches, once there is nothing left to look at. */
  lemma ListedIffReached(rows: map<nat, Row>, session: nat, run: nat, from: Option<nat>, ids: seq<nat>,
                         previous: Option<nat>, id: nat)
    requires ChainTo(rows, session, run, from, ids, previous) && Finished(rows, session, ids, previous)
    ensures id in ids <==> id == run || Reaches(rows, session, run, from, id)
  {
    if id in ids {
      var i :| 0 <= i < |ids| && ids[i] == id;
      if i > 0 {
        ListedIsReached(rows, session, run, from, ids, previous, i);
      }
    }
    if Reaches(rows, session, run, from, id) {
      var path :| Walk(rows, session, run, path) && from == Some(path[0]) && path[|path| - 1] == id;
      ReachedIsListed(rows, session, run, from, ids, previous, path);
    }
  }

  lemma ListedAreReached(rows: map<nat, Row>, session: nat, run: nat, from: Option<nat>, ids: seq<nat>,
                         previous: Option<nat>)
    requires ChainTo(rows, session, run, from, ids, previous) && Finished(rows, session, ids, previous)
    ensures forall id :: id in ids <==> id == run || Reaches(rows, session, run, from, id)
  {
    forall id ensures id in ids <==> id == run || Reaches(rows, session, run, from, id) {
      ListedIffReached(rows, session, run, from, ids, previous, id);
    }
  }

  /** The next run of the chain, if there is one, is listed already or outside the session. */
  ghost predicate NothingLeft(rows: map<nat, Row>, session: nat, ids: seq<nat>, next: Option<nat>) {
    next.Some? && next.value in rows && rows[next.value].session == session ==> next.value in ids
  }

  lemma LastIsFinished(rows: map<nat, Row>, session: nat, run: nat, from: Option<nat>, ids: seq<nat>,
                       previous: Option<nat>)
    requires ChainTo(rows, session, run, from, ids, previous) && Finished(rows, session, ids, previous)
    ensures NothingLeft(rows, session, ids, if |ids| == 1 then from else rows[ids[|ids| - 1]].parent)
  {
  }

  lemma OneMoreListed(rows: map<nat, Row>, session: nat, run: nat, from: Option<nat>, ids: seq<nat>, previous: nat)
    requires ChainTo(rows, session, run, from, ids, Some(previous))
    requires previous !in ids && InSession(rows, session, previous)
    ensures ChainTo(rows, session, run, from, ids + [previous], rows[previous].parent)
    ensures (ids + [previous])[1..] == ids[1..] + [previous]
  {
  }

  /** The loop of `receiver_scope`, with the link it stops at. It ends even on a cyclic chain. */
  method Follow(rows: map<nat, Row>, session: nat, run: nat, resumeFrom: Option<nat>)
    returns (ids: seq<nat>, ghost last: Option<nat>)
    ensures ChainTo(rows, session, run, resumeFrom, ids, last) && Finished(rows, session, ids, last)
  {
    ids := [run];
    var previous := resumeFrom;
    ghost var unlisted := rows.Keys;
    while previous.Some? && previous.value !in ids
      invariant ChainTo(rows, session, run, resumeFrom, ids, previous)
      invariant forall id :: id in unlisted <==> id in rows && id !in ids[1..]
      decreases |unlisted|
    {
      if previous.value !in rows || rows[previous.value].session != session {
        break;
      }
      OneMoreListed(rows, session, run, resumeFrom, ids, previous.value);
      ids := ids + [previous.value];
      unlisted := unlisted - {previous.value};
      previous := rows[previous.value].parent;
    }
    last := previous;
  }

  /** `receiver_scope`: the scope is the run and exactly the runs its chain reaches, in the order of the chain. */
  method RunIds(rows: map<nat, Row>, session: nat, run: nat, resumeFrom: Option<nat>) returns (ids: seq<nat>)
    ensures forall i, j | 0 <= i < j < |ids| :: ids[i] != ids[j]
    ensures forall id :: id in ids <==> id == run || Reaches(rows, session, run, resumeFrom, id)
    ensures ids != [] && ids[0] == run
    ensures forall i | 1 <= i < |ids| :: ids[i] in rows && rows[ids[i]].session == session
    ensures |ids| > 1 ==> resumeFrom == Some(ids[1])
    ensures forall i, j | 1 <= i < |ids| - 1 && j == i + 1 :: rows[ids[i]].parent == Some(ids[j])
    ensures NothingLeft(rows, session, ids, if |ids| == 1 then resumeFrom else rows[ids[|ids| - 1]].parent)
  {
    ghost var last;
    ids, last := Follow(rows, session, run, resumeFrom);
    ListedAreReached(rows, session, run, resumeFrom, ids, last);
    LastIsFinished(rows, session, run, resumeFrom, ids, last);
  }
}
