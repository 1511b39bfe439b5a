/**
 What a worker's run shows between two of its moments: agreement, disagreement, closure and handling of a
 field's evidence. The reconciler's methods state their outcomes under interference in these terms.
 */
module Moments {
  import opened Evidence
  import opened ConflictRows
  import opened Interleaving
  import opened EvidenceStore

  const MAX_VERSION_RETRY: nat := 5

  // ---------- Agreement ----------

  /** At position k of the run the field's active claims agreed, the winner among them. */
  ghost predicate AgreedAt(run: Run, k: nat, e: nat, f: FieldName, winner: nat) {
    k < |run.states|
    && var claims := run.states[k].claims;
       ActiveOn(claims, winner, e, f) && |UniqueValues(claims, ActiveIds(claims, e, f))| == 1
  }

  /** At position k of the run these were the field's active claims, and they disagreed. */
  ghost predicate DisagreedAt(run: Run, k: nat, e: nat, f: FieldName, ids: set<nat>) {
    k < |run.states|
    && var claims := run.states[k].claims;
       ids == ActiveSet(claims, e, f) && |UniqueValues(claims, ActiveIds(claims, e, f))| > 1
  }

  /** At some moment since `start` the field's evidence agreed. */
  ghost predicate AgreedSince(start: Run, now: Run, e: nat, f: FieldName, winner: nat) {
    exists k: nat :: k + 1 >= |start.states| && AgreedAt(now, k, e, f, winner)
  }

  ghost predicate DisagreedSince(start: Run, now: Run, e: nat, f: FieldName, ids: set<nat>) {
    exists k: nat :: k + 1 >= |start.states| && DisagreedAt(now, k, e, f, ids)
  }

  lemma AgreementSeen(start: Run, run: Run, db: Db, e: nat, f: FieldName, winner: nat)
    requires Extends(start, run) && |run.states| > 0 && db == run.states[|run.states| - 1]
    requires winner in ActiveIds(db.claims, e, f) && |UniqueValues(db.claims, ActiveIds(db.claims, e, f))| <= 1
    ensures AgreedSince(start, run, e, f, winner)
  {
    CountingValuesTestsAgreement(db.claims, e, f);
    assert AgreedAt(run, |run.states| - 1, e, f, winner);
  }

  lemma DisagreementSeen(start: Run, run: Run, db: Db, e: nat, f: FieldName)
    requires Extends(start, run) && |run.states| > 0 && db == run.states[|run.states| - 1]
    requires ActiveIds(db.claims, e, f) != [] && |UniqueValues(db.claims, ActiveIds(db.claims, e, f))| != 1
    ensures DisagreedSince(start, run, e, f, ActiveSet(db.claims, e, f))
  {
    CountingValuesTestsAgreement(db.claims, e, f);
    assert ActiveOn(db.claims, ActiveIds(db.claims, e, f)[0], e, f) by {
      assert ActiveIds(db.claims, e, f)[0] in ActiveIds(db.claims, e, f);
    }
    assert DisagreedAt(run, |run.states| - 1, e, f, ActiveSet(db.claims, e, f));
  }

  lemma StillAgreed(start: Run, before: Run, now: Run, e: nat, f: FieldName, winner: nat)
    requires AgreedSince(start, before, e, f, winner) && Extends(before, now)
    ensures AgreedSince(start, now, e, f, winner)
  {
    var k: nat :| k + 1 >= |start.states| && AgreedAt(before, k, e, f, winner);
    assert now.states[k] == before.states[k];
    assert AgreedAt(now, k, e, f, winner);
  }

  lemma StillDisagreed(start: Run, before: Run, now: Run, e: nat, f: FieldName, ids: set<nat>)
    requires DisagreedSince(start, before, e, f, ids) && Extends(before, now)
    ensures DisagreedSince(start, now, e, f, ids)
  {
    var k: nat :| k + 1 >= |start.states| && DisagreedAt(before, k, e, f, ids);
    assert now.states[k] == before.states[k];
    assert DisagreedAt(now, k, e, f, ids);
  }

  // ---------- Nothing to close ----------

  /** There is no open conflict of the field, or no evidence, or the evidence disagrees. */
  ghost predicate NothingToClose(db: Db, e: nat, f: FieldName) {
    !HasOpen(db.conflicts, e, f) || !HasActive(db.claims, e, f) || Disagree(db.claims, e, f)
  }

  ghost predicate QuietAt(run: Run, k: nat, e: nat, f: FieldName) {
    k < |run.states| && NothingToClose(run.states[k], e, f)
  }

  ghost predicate QuietSince(start: Run, now: Run, e: nat, f: FieldName) {
    exists k: nat :: k + 1 >= |start.states| && QuietAt(now, k, e, f)
  }

  lemma QuietNow(start: Run, run: Run, db: Db, e: nat, f: FieldName)
    requires Extends(start, run) && |run.states| > 0 && db == run.states[|run.states| - 1]
    requires NothingToClose(db, e, f)
    ensures QuietSince(start, run, e, f)
  {
    assert QuietAt(run, |run.states| - 1, e, f);
  }

  lemma StillQuiet(first: Run, start: Run, before: Run, now: Run, e: nat, f: FieldName)
    requires QuietSince(start, before, e, f) && Extends(before, now) && |first.states| <= |start.states|
    ensures QuietSince(first, now, e, f)
  {
    var k: nat :| k + 1 >= |start.states| && QuietAt(before, k, e, f);
    assert now.states[k] == before.states[k];
    assert QuietAt(now, k, e, f);
  }

  /** The step that resolves a field's open conflict leaves the field without one. */
  lemma ResolvingStepEmpties(before: Db, after: Db, a: Action, id: nat, e: nat, f: FieldName)
    requires OneOpenPerField(before.conflicts) && Fenced(before, after, a)
    requires id < |before.conflicts| && before.conflicts[id].IsOpenOn(e, f)
    requires id < |after.conflicts| && after.conflicts[id].status == Resolved
    ensures !HasOpen(after.conflicts, e, f)
  {
    forall i: nat | i < |after.conflicts| ensures !after.conflicts[i].IsOpenOn(e, f) {
      if i < |before.conflicts| && i != id {
        assert after.conflicts[i] == before.conflicts[i];
      }
    }
  }

  lemma ClosingStepIsQuiet(run: Run, k: nat, id: nat, e: nat, f: FieldName)
    requires Legal(run) && k < |run.steps|
    requires id < |run.states[k].conflicts| && run.states[k].conflicts[id].IsOpenOn(e, f)
    requires id < |run.states[k + 1].conflicts| && run.states[k + 1].conflicts[id].status == Resolved
    ensures QuietAt(run, k + 1, e, f)
  {
    EveryStateIsSafe(run, k);
    EveryStepIsFenced(run, k);
    ResolvingStepEmpties(run.states[k], run.states[k + 1], run.steps[k].action, id, e, f);
  }

  lemma RowIsStillThere(run: Run, i: nat, j: nat, id: nat, e: nat, f: FieldName)
    requires Legal(run) && i <= j < |run.states|
    requires id < |run.states[i].conflicts| && run.states[i].conflicts[id].IsOn(e, f)
    ensures id < |run.states[j].conflicts| && run.states[j].conflicts[id].IsOn(e, f)
  {
    EveryStateIsSafe(run, j);
    assert Grew(run.states[i], run.states[j]);
    assert RowGrew(run.states[i].conflicts[id], run.states[j].conflicts[id]);
  }

  /** Between a moment when a conflict was open and one when it was resolved, its field had no open one. */
  lemma {:induction false} ClosingMoment(run: Run, i: nat, j: nat, id: nat, e: nat, f: FieldName)
    requires Legal(run) && i < j < |run.states|
    requires id < |run.states[i].conflicts| && run.states[i].conflicts[id].IsOpenOn(e, f)
    requires id < |run.states[j].conflicts| && run.states[j].conflicts[id].status == Resolved
    ensures exists k: nat :: k > i && QuietAt(run, k, e, f)
    decreases j
  {
    RowIsStillThere(run, i, j - 1, id, e, f);
    if run.states[j - 1].conflicts[id].status == Resolved {
      ClosingMoment(run, i, j - 1, id, e, f);
    } else {
      ClosingStepIsQuiet(run, j - 1, id, e, f);
    }
  }

  /** A worker that read an open conflict and now finds it resolved has passed a moment without one. */
  lemma QuietOnceClosed(start: Run, run: Run, l: Loaded, e: nat, f: FieldName)
    requires Legal(run) && WasRead(run, l) && l.row.IsOpenOn(e, f) && l.readAt + 1 >= |start.states|
    requires var db := run.states[|run.states| - 1]; l.id < |db.conflicts| && db.conflicts[l.id].status == Resolved
    ensures QuietSince(start, run, e, f)
  {
    ClosingMoment(run, l.readAt, |run.states| - 1, l.id, e, f);
  }

  // ---------- A conflict moved on ----------

  ghost predicate OpenAt(run: Run, k: nat, id: nat) {
    k < |run.states| && id < |run.states[k].conflicts| && run.states[k].conflicts[id].status == Open
  }

  ghost predicate OpenSince(start: Run, now: Run, id: nat) {
    exists k: nat :: k + 1 >= |start.states| && OpenAt(now, k, id)
  }

  lemma OpenSeen(start: Run, seen: Run, now: Run, id: nat)
    requires Extends(start, seen) && Extends(seen, now) && |seen.states| > 0 && OpenAt(seen, |seen.states| - 1, id)
    ensures OpenSince(start, now, id)
  {
    assert now.states[|seen.states| - 1] == seen.states[|seen.states| - 1];
    assert OpenAt(now, |seen.states| - 1, id);
  }

  /** At the end the conflict's version is at least `bumps` past what it was at position k. */
  ghost predicate BumpedAt(run: Run, k: nat, id: nat, bumps: nat) {
    k < |run.states| && id < |run.states[k].conflicts|
    && var last := run.states[|run.states| - 1];
       id < |last.conflicts| && last.conflicts[id].version >= run.states[k].conflicts[id].version + bumps
  }

  ghost predicate BumpedSince(start: Run, now: Run, id: nat, bumps: nat) {
    exists k: nat :: k + 1 >= |start.states| && BumpedAt(now, k, id, bumps)
  }

  // ---------- A winner put right ----------

  /** The conflict was open, or its field had no active claim, or its winner was one on which the field's
      active claims agreed since the worker began. */
  ghost predicate WinnerRightAt(start: Run, now: Run, k: nat, id: nat, e: nat, f: FieldName) {
    k < |now.states| && id < |now.states[k].conflicts|
    && var row := now.states[k].conflicts[id];
       row.status == Open || !HasActive(now.states[k].claims, e, f)
       || (row.winner.Some? && AgreedSince(start, now, e, f, row.winner.value))
  }

  ghost predicate WinnerRightSince(start: Run, now: Run, id: nat, e: nat, f: FieldName) {
    exists k: nat :: k + 1 >= |start.states| && WinnerRightAt(start, now, k, id, e, f)
  }

  lemma WinnerRightNow(start: Run, now: Run, id: nat, e: nat, f: FieldName)
    requires Extends(start, now) && |now.states| > 0 && WinnerRightAt(start, now, |now.states| - 1, id, e, f)
    ensures WinnerRightSince(start, now, id, e, f)
  {
  }

  lemma WinnerRightOnceOpen(start: Run, now: Run, id: nat, e: nat, f: FieldName)
    requires OpenSince(start, now, id)
    ensures WinnerRightSince(start, now, id, e, f)
  {
    var k: nat :| k + 1 >= |start.states| && OpenAt(now, k, id);
    assert WinnerRightAt(start, now, k, id, e, f);
  }

  lemma AgreedFromEarlier(first: Run, start: Run, before: Run, now: Run, e: nat, f: FieldName, winner: nat)
    requires AgreedSince(start, before, e, f, winner) && Extends(before, now) && |first.states| <= |start.states|
    ensures AgreedSince(first, now, e, f, winner)
  {
    var k: nat :| k + 1 >= |start.states| && AgreedAt(before, k, e, f, winner);
    assert now.states[k] == before.states[k];
    assert AgreedAt(now, k, e, f, winner);
  }

  lemma StillWinnerRight(first: Run, start: Run, before: Run, now: Run, id: nat, e: nat, f: FieldName)
    requires WinnerRightSince(start, before, id, e, f) && Extends(before, now) && |first.states| <= |start.states|
    ensures WinnerRightSince(first, now, id, e, f)
  {
    var k: nat :| k + 1 >= |start.states| && WinnerRightAt(start, before, k, id, e, f);
    assert now.states[k] == before.states[k];
    var row := before.states[k].conflicts[id];
    if row.status == Resolved && HasActive(before.states[k].claims, e, f) {
      AgreedFromEarlier(first, start, before, now, e, f, row.winner.value);
    }
    assert WinnerRightAt(first, now, k, id, e, f);
  }

  // ---------- Detected claims linked ----------

  /** At position k an open conflict of the field links all these claims. */
  ghost predicate LinkedAt(run: Run, k: nat, e: nat, f: FieldName, ids: set<nat>) {
    k < |run.states|
    && exists i: nat :: i < |run.states[k].conflicts|
                        && run.states[k].conflicts[i].IsOpenOn(e, f) && ids <= run.states[k].conflicts[i].links
  }

  /** A conflict of the field was open at position j and resolved at the later position k. */
  ghost predicate ClosedBetween(run: Run, j: nat, k: nat, id: nat, e: nat, f: FieldName) {
    j <= k < |run.states| && id < |run.states[j].conflicts| && run.states[j].conflicts[id].IsOpenOn(e, f)
    && id < |run.states[k].conflicts| && run.states[k].conflicts[id].status == Resolved
  }

  /** From position `from` on, the claims were all linked to an open conflict of their field, or someone
      resolved the field's conflict. */
  ghost predicate DetectedHandled(run: Run, from: nat, e: nat, f: FieldName, ids: set<nat>) {
    (exists k: nat :: k >= from && LinkedAt(run, k, e, f, ids))
    || (exists j: nat, k: nat, id: nat :: j >= from && ClosedBetween(run, j, k, id, e, f))
  }

  lemma LinkedNow(run: Run, db: Db, from: nat, id: nat, e: nat, f: FieldName, ids: set<nat>)
    requires from < |run.states| && db == run.states[|run.states| - 1]
    requires id < |db.conflicts| && db.conflicts[id].IsOpenOn(e, f) && ids <= db.conflicts[id].links
    ensures DetectedHandled(run, from, e, f, ids)
  {
    assert LinkedAt(run, |run.states| - 1, e, f, ids);
  }

  lemma ClosedNow(run: Run, db: Db, from: nat, j: nat, id: nat, e: nat, f: FieldName, ids: set<nat>)
    requires from <= j < |run.states| && db == run.states[|run.states| - 1]
    requires id < |run.states[j].conflicts| && run.states[j].conflicts[id].IsOpenOn(e, f)
    requires id < |db.conflicts| && db.conflicts[id].status == Resolved
    ensures DetectedHandled(run, from, e, f, ids)
  {
    assert ClosedBetween(run, j, |run.states| - 1, id, e, f);
  }

  lemma StillHandled(before: Run, now: Run, from: nat, e: nat, f: FieldName, ids: set<nat>)
    requires DetectedHandled(before, from, e, f, ids) && Extends(before, now)
    ensures DetectedHandled(now, from, e, f, ids)
  {
    if k: nat :| k >= from && LinkedAt(before, k, e, f, ids) {
      assert now.states[k] == before.states[k];
      assert LinkedAt(now, k, e, f, ids);
    } else {
      var j: nat, k: nat, id: nat :| j >= from && ClosedBetween(before, j, k, id, e, f);
      assert now.states[j] == before.states[j] && now.states[k] == before.states[k];
      assert ClosedBetween(now, j, k, id, e, f);
    }
  }
}
