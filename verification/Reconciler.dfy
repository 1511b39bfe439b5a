/**
 ConflictReconciler: the retry helpers and the three public stages, run as one worker among
 any number of others. Each method is specified twice: what its own step was under any
 interference, and, for an exclusive unit of work, the exact table it leaves.
 */
module Reconciler {
  import opened Optional
  import opened Evidence
  import opened ConflictRows
  import opened Interleaving
  import opened EvidenceStore
  import opened Moments

  /** How a helper ended. RetriesExhausted and ClashAborted are raised to the caller. */
  datatype Outcome =
    | Applied(op: Op)
    | NothingToDo
    | Deferred
    | GaveUp
    | RetriesExhausted
    | ClashAborted
  {
    predicate Raised() {
      RetriesExhausted? || ClashAborted?
    }
  }

  /** A resolved conflict whose winner an ingestion superseded, with the claim that replaced the winner. */
  datatype Pending = Pending(loaded: Loaded, replacement: nat)

  // ---------- Lookups ----------

  /** find_open_by_event_field. */
  function FindOpen(conflicts: seq<Conflict>, e: nat, f: FieldName): (r: Option<nat>)
    ensures r.Some? <==> HasOpen(conflicts, e, f)
    ensures r.Some? ==> r.value < |conflicts| && conflicts[r.value].IsOpenOn(e, f)
  {
    if conflicts == [] then None
    else
      var n := |conflicts| - 1;
      if conflicts[n].IsOpenOn(e, f) then Some(n)
      else
        assert forall i | 0 <= i < n :: conflicts[..n][i] == conflicts[i];
        FindOpen(conflicts[..n], e, f)
  }

  /** latest_resolved_conflicts_by_field: the resolved row with the highest version, newest row first. */
  function LatestResolved(conflicts: seq<Conflict>, e: nat, f: FieldName): (r: Option<nat>)
    ensures r.Some? ==> r.value < |conflicts| && conflicts[r.value].IsOn(e, f) && conflicts[r.value].status == Resolved
    ensures r.None? ==> forall i | 0 <= i < |conflicts| :: !(conflicts[i].IsOn(e, f) && conflicts[i].status == Resolved)
    ensures r.Some? ==> forall i | 0 <= i < |conflicts| && conflicts[i].IsOn(e, f) && conflicts[i].status == Resolved ::
                          conflicts[i].version <= conflicts[r.value].version
                          && (conflicts[i].version == conflicts[r.value].version ==> i <= r.value)
  {
    if conflicts == [] then None
    else
      var n := |conflicts| - 1;
      var rest := LatestResolved(conflicts[..n], e, f);
      assert forall i | 0 <= i < n :: conflicts[..n][i] == conflicts[i];
      if conflicts[n].IsOn(e, f) && conflicts[n].status == Resolved
         && (rest.None? || conflicts[n].version >= conflicts[rest.value].version)
      then Some(n) else rest
  }

  // ---------- The stages as functions of the tables ----------

  /** Stage 1 for one resolved row: point it at an agreed claim, or reopen it. */
  function FixedWinner(claims: seq<Claim>, row: Conflict, replacement: nat): Conflict {
    var ids := ActiveIds(claims, row.event, row.field);
    if ids == [] then row
    else if |UniqueValues(claims, ids)| == 1 then
      Perform(row, MoveWinner(if replacement in ids then replacement else ids[0]))
    else
      Perform(row, ReopenForEvidence(ActiveSet(claims, row.event, row.field)))
  }

  function ReplacementFor(pending: seq<Pending>, id: nat): (r: Option<nat>)
    ensures r.None? ==> forall j | 0 <= j < |pending| :: pending[j].loaded.id != id
    ensures r.Some? ==> exists j | 0 <= j < |pending| :: pending[j].loaded.id == id && pending[j].replacement == r.value
  {
    if pending == [] then None
    else if pending[0].loaded.id == id then Some(pending[0].replacement)
    else ReplacementFor(pending[1..], id)
  }

  function FixWinners(db: Db, pending: seq<Pending>): Db {
    db.(conflicts := seq(|db.conflicts|, i requires 0 <= i < |db.conflicts| =>
      match ReplacementFor(pending, i)
      case Some(replacement) => FixedWinner(db.claims, db.conflicts[i], replacement)
      case None => db.conflicts[i]))
  }

  /** Stage 2 for one row: close it when the remaining evidence agrees. */
  function ClosedIfAgreed(claims: seq<Claim>, row: Conflict): Conflict {
    var ids := ActiveIds(claims, row.event, row.field);
    if row.status == Open && ids != [] && |UniqueValues(claims, ids)| <= 1
    then Perform(row, AutoClose(ids[0])) else row
  }

  function CloseStale(db: Db, e: nat, fields: set<FieldName>): Db {
    db.(conflicts := seq(|db.conflicts|, i requires 0 <= i < |db.conflicts| =>
      if db.conflicts[i].event == e && db.conflicts[i].field in fields
      then ClosedIfAgreed(db.claims, db.conflicts[i]) else db.conflicts[i]))
  }

  ghost predicate AllDistinct(fs: seq<FieldName>) {
    forall i, j | 0 <= i < j < |fs| :: fs[i] != fs[j]
  }

  /** The fields of the event's active claims, in order of first appearance. */
  function FieldsOf(claims: seq<Claim>, e: nat): (fs: seq<FieldName>)
    ensures forall f :: f in fs <==> HasActive(claims, e, f)
    ensures AllDistinct(fs)
  {
    if claims == [] then []
    else
      var n := |claims| - 1;
      var rest := FieldsOf(claims[..n], e);
      assert forall f, i: nat :: ActiveOn(claims[..n], i, e, f) ==> ActiveOn(claims, i, e, f);
      assert forall f, i: nat :: ActiveOn(claims, i, e, f) ==> i == n || ActiveOn(claims[..n], i, e, f);
      var last := claims[n];
      assert last.IsActive() && last.event == e ==> ActiveOn(claims, n, e, last.field);
      if last.IsActive() && last.event == e && last.field !in rest then rest + [last.field] else rest
  }

  /** ConflictDetector.detect for one field: the counts it takes over the active claims. */
  function Detects(claims: seq<Claim>, e: nat, f: FieldName): bool {
    var ids := ActiveIds(claims, e, f);
    |UniqueValues(claims, ids)| > 1 && |set id | id in ids :: claims[id].source| >= 2
  }

  function KeepDetected(claims: seq<Claim>, e: nat, fields: seq<FieldName>): (fs: seq<FieldName>)
    requires AllDistinct(fields)
    ensures forall f :: f in fs <==> f in fields && Detects(claims, e, f)
    ensures AllDistinct(fs)
  {
    if fields == [] then []
    else
      var n := |fields| - 1;
      var rest := KeepDetected(claims, e, fields[..n]);
      assert forall i | 0 <= i < |rest| :: rest[i] in rest;
      assert fields[n] !in rest;
      if Detects(claims, e, fields[n]) then rest + [fields[n]] else rest
  }

  function DetectedFields(claims: seq<Claim>, e: nat): (fs: seq<FieldName>)
    ensures forall f :: f in fs <==> HasActive(claims, e, f) && Detects(claims, e, f)
    ensures AllDistinct(fs)
  {
    KeepDetected(claims, e, FieldsOf(claims, e))
  }

  /** Stage 3 for one detected field: merge into the open row, reopen the resolved one the
      evidence contradicts, or open a new one. */
  function DetectField(claims: seq<Claim>, conflicts: seq<Conflict>, e: nat, f: FieldName): seq<Conflict> {
    var ids := ActiveSet(claims, e, f);
    match FindOpen(conflicts, e, f)
    case Some(i) => conflicts[i := Perform(conflicts[i], MergeEvidence(ids))]
    case None =>
      match Contradicted(claims, claims, conflicts, e, f)
      case Some(i) => conflicts[i := Perform(conflicts[i], ReopenForEvidence(ids))]
      case None => conflicts + [FreshConflict(e, f, ids)]
  }

  /** Case 2's test: the latest resolved row, when it has a winner some active claim differs from.
      The winner is looked up in the claims as they are now. */
  function Contradicted(claims: seq<Claim>, now: seq<Claim>, conflicts: seq<Conflict>, e: nat,
                        f: FieldName): (r: Option<nat>)
    ensures r.Some? ==> r == LatestResolved(conflicts, e, f)
  {
    match LatestResolved(conflicts, e, f)
    case None => None
    case Some(i) =>
      match conflicts[i].winner
      case None => None
      case Some(w) =>
        var ids := ActiveIds(claims, e, f);
        if w < |now| && exists id | id in ids :: claims[id].value != now[w].value then Some(i) else None
  }

  function DetectFields(claims: seq<Claim>, conflicts: seq<Conflict>, e: nat, fields: seq<FieldName>): seq<Conflict> {
    if fields == [] then conflicts
    else
      var n := |fields| - 1;
      DetectField(claims, DetectFields(claims, conflicts, e, fields[..n]), e, fields[n])
  }

  function DetectConflicts(db: Db, e: nat): Db {
    db.(conflicts := DetectFields(db.claims, db.conflicts, e, DetectedFields(db.claims, e)))
  }

  lemma CountingSources(claims: seq<Claim>, e: nat, f: FieldName)
    ensures |set id | id in ActiveIds(claims, e, f) :: claims[id].source| >= 2 <==> SourcesDiffer(claims, e, f)
  {
    if SourcesDiffer(claims, e, f) {
      SourcesCounted(claims, e, f);
    } else {
      var sources := set id | id in ActiveIds(claims, e, f) :: claims[id].source;
      if sources != {} {
        var s :| s in sources;
        assert sources == {s};
      }
    }
  }

  lemma SourcesCounted(claims: seq<Claim>, e: nat, f: FieldName)
    requires SourcesDiffer(claims, e, f)
    ensures |set id | id in ActiveIds(claims, e, f) :: claims[id].source| >= 2
  {
    var ids := ActiveIds(claims, e, f);
    var i: nat, j: nat :| ActiveOn(claims, i, e, f) && ActiveOn(claims, j, e, f)
    && claims[i].source != claims[j].source;
    assert i in ids && j in ids;
    SubsetCount({claims[i].source, claims[j].source}, set id | id in ids :: claims[id].source);
  }

  /** The detector reports a field exactly when its active claims differ across sources. */
  lemma DetectionIsDispute(claims: seq<Claim>, e: nat, f: FieldName)
    ensures f in DetectedFields(claims, e) <==> Disputed(claims, e, f)
  {
    CountingValuesTestsAgreement(claims, e, f);
    CountingSources(claims, e, f);
  }

  // ---------- The stages in the rows' own columns ----------

  ghost predicate Agree(claims: seq<Claim>, e: nat, f: FieldName) {
    HasActive(claims, e, f) && !Disagree(claims, e, f)
  }

  /** The row but for its log, whose growth PerformKeepsRow states. */
  function Columns(row: Conflict): Conflict {
    row.(log := [])
  }

  lemma ActiveIdsMean(claims: seq<Claim>, e: nat, f: FieldName)
    ensures ActiveIds(claims, e, f) == [] <==> !HasActive(claims, e, f)
    ensures ActiveIds(claims, e, f) != [] ==> ActiveOn(claims, ActiveIds(claims, e, f)[0], e, f)
    ensures |UniqueValues(claims, ActiveIds(claims, e, f))| == 1 <==> Agree(claims, e, f)
    ensures |UniqueValues(claims, ActiveIds(claims, e, f))| > 1 <==> Disagree(claims, e, f)
    ensures Disagree(claims, e, f) ==> HasActive(claims, e, f)
  {
    CountingValuesTestsAgreement(claims, e, f);
    var ids := ActiveIds(claims, e, f);
    if HasActive(claims, e, f) {
      var i: nat :| ActiveOn(claims, i, e, f);
      assert i in ids;
    }
    if ids != [] {
      assert ids[0] in ids;
    }
  }

  /** A resolved row that lost its winner: left alone when its field has no active claim; open over all of them when
      they differ; and when they agree, won by the replacement if that is one of them and by another of them if not. */
  lemma FixedWinnerMeans(claims: seq<Claim>, row: Conflict, replacement: nat)
    ensures !HasActive(claims, row.event, row.field) ==> FixedWinner(claims, row, replacement) == row
    ensures Disagree(claims, row.event, row.field) ==>
              Columns(FixedWinner(claims, row, replacement))
              == Columns(row.(status := Open, winner := None, reason := NewEvidence, version := row.version + 1,
                              links := row.links + ActiveSet(claims, row.event, row.field)))
    ensures Agree(claims, row.event, row.field) ==>
              exists w: nat :: ActiveOn(claims, w, row.event, row.field)
                               && (ActiveOn(claims, replacement, row.event, row.field) ==> w == replacement)
                               && Columns(FixedWinner(claims, row, replacement))
                                  == Columns(row.(winner := Some(w), version := row.version + 1, links := row.links + {w}))
  {
    ActiveIdsMean(claims, row.event, row.field);
    var ids := ActiveIds(claims, row.event, row.field);
    hide UniqueValues, Disagree, HasActive, ActiveIds;
    if Agree(claims, row.event, row.field) {
      var w := if replacement in ids then replacement else ids[0];
      assert ActiveOn(claims, w, row.event, row.field);
    }
  }

  /** A stale open row: closed by the system, for an active claim of its field, if its evidence agrees, and left
      alone in every other case. */
  lemma ClosedIfAgreedMeans(claims: seq<Claim>, row: Conflict)
    ensures row.status == Resolved || !Agree(claims, row.event, row.field) ==> ClosedIfAgreed(claims, row) == row
    ensures row.status == Open && Agree(claims, row.event, row.field) ==>
              exists w: nat :: ActiveOn(claims, w, row.event, row.field)
                               && Columns(ClosedIfAgreed(claims, row))
                                  == Columns(row.(status := Resolved, winner := Some(w), reason := SystemAutoClosed,
                                                  version := row.version + 1, links := row.links + {w}))
  {
    ActiveIdsMean(claims, row.event, row.field);
  }

  /** The latest resolved row of the field names a winner that some active claim contradicts. */
  ghost predicate DecidedOtherwise(claims: seq<Claim>, conflicts: seq<Conflict>, e: nat, f: FieldName, i: nat) {
    i < |conflicts| && LatestResolved(conflicts, e, f) == Some(i)
    && conflicts[i].winner.Some? && conflicts[i].winner.value < |claims|
    && exists c: nat :: ActiveOn(claims, c, e, f) && claims[c].value != claims[conflicts[i].winner.value].value
  }

  lemma ContradictedIff(claims: seq<Claim>, conflicts: seq<Conflict>, e: nat, f: FieldName, i: nat)
    ensures Contradicted(claims, claims, conflicts, e, f) == Some(i) <==> DecidedOtherwise(claims, conflicts, e, f, i)
  {
    var ids := ActiveIds(claims, e, f);
    if DecidedOtherwise(claims, conflicts, e, f, i) {
      var c: nat :| ActiveOn(claims, c, e, f) && claims[c].value != claims[conflicts[i].winner.value].value;
      assert c in ids;
    }
  }

  /** The open row `was` after more evidence, and the resolved row `was` after evidence against it. */
  ghost predicate Evidenced(was: Conflict, now: Conflict, ids: set<nat>) {
    Columns(now) == Columns(was.(reason := NewEvidence, version := was.version + 1, links := was.links + ids))
  }

  ghost predicate Reopened(was: Conflict, now: Conflict, ids: set<nat>) {
    Columns(now) == Columns(was.(status := Open, winner := None, reason := NewEvidence, version := was.version + 1,
                                 links := was.links + ids))
  }

  /** A detected field: evidence added to the open row if there is one; if not, the latest decision reopened when
      the evidence contradicts it; and if not that, a new open row. No other row changes. */
  lemma DetectFieldMeans(claims: seq<Claim>, conflicts: seq<Conflict>, e: nat, f: FieldName)
    ensures var after, ids := DetectField(claims, conflicts, e, f), ActiveSet(claims, e, f);
            if HasOpen(conflicts, e, f) then
              exists i: nat :: i < |conflicts| && conflicts[i].IsOpenOn(e, f)
                               && after == conflicts[i := after[i]] && Evidenced(conflicts[i], after[i], ids)
            else if exists i: nat :: DecidedOtherwise(claims, conflicts, e, f, i) then
              exists i: nat :: DecidedOtherwise(claims, conflicts, e, f, i)
                               && after == conflicts[i := after[i]] && Reopened(conflicts[i], after[i], ids)
            else |after| == |conflicts| + 1 && after[..|conflicts|] == conflicts
                 && Columns(after[|conflicts|]) == Conflict(e, f, Open, 1, None, Initial, ids, [])
  {
    hide DecidedOtherwise, Contradicted, HasOpen, LatestResolved, FindOpen, ActiveSet;
    var after := DetectField(claims, conflicts, e, f);
    if HasOpen(conflicts, e, f) {
      var i := FindOpen(conflicts, e, f).value;
      assert Evidenced(conflicts[i], after[i], ActiveSet(claims, e, f));
    } else {
      var found := Contradicted(claims, claims, conflicts, e, f);
      forall i: nat ensures found == Some(i) <==> DecidedOtherwise(claims, conflicts, e, f, i) {
        ContradictedIff(claims, conflicts, e, f, i);
      }
      if found.Some? {
        assert DecidedOtherwise(claims, conflicts, e, f, found.value) && found.value < |conflicts|;
        assert Reopened(conflicts[found.value], after[found.value], ActiveSet(claims, e, f));
      }
    }
  }

  // ---------- Detecting one field leaves the others alone ----------

  /** `b` is `a` with only rows of (e, fields) changed or added. */
  ghost predicate OnlyFieldsChanged(a: seq<Conflict>, b: seq<Conflict>, e: nat, fields: seq<FieldName>) {
    |a| <= |b|
    && (forall i | 0 <= i < |a| :: b[i].IsOn(a[i].event, a[i].field)
                                   && (b[i] == a[i] || (a[i].event == e && a[i].field in fields)))
    && (forall i | |a| <= i < |b| :: b[i].event == e && b[i].field in fields)
  }

  lemma DetectFieldFrame(claims: seq<Claim>, conflicts: seq<Conflict>, e: nat, f: FieldName)
    ensures OnlyFieldsChanged(conflicts, DetectField(claims, conflicts, e, f), e, [f])
  {
  }

  lemma FramesCompose(a: seq<Conflict>, b: seq<Conflict>, c: seq<Conflict>, e: nat, fields: seq<FieldName>)
    requires fields != []
    requires OnlyFieldsChanged(a, b, e, fields[..|fields| - 1]) && OnlyFieldsChanged(b, c, e, [fields[|fields| - 1]])
    ensures OnlyFieldsChanged(a, c, e, fields)
  {
  }

  lemma {:induction false} DetectFieldsFrame(claims: seq<Claim>, conflicts: seq<Conflict>, e: nat,
                                             fields: seq<FieldName>)
    ensures OnlyFieldsChanged(conflicts, DetectFields(claims, conflicts, e, fields), e, fields)
  {
    if fields == [] {
    } else {
      var n := |fields| - 1;
      DetectFieldsFrame(claims, conflicts, e, fields[..n]);
      var before := DetectFields(claims, conflicts, e, fields[..n]);
      DetectFieldFrame(claims, before, e, fields[n]);
      FramesCompose(conflicts, before, DetectField(claims, before, e, fields[n]), e, fields);
    }
  }

  lemma FrameWithoutLast(a: seq<Conflict>, b: seq<Conflict>, e: nat, fields: seq<FieldName>)
    requires OnlyFieldsChanged(a, b, e, fields) && |b| > 0
    ensures if |a| < |b| then OnlyFieldsChanged(a, b[..|b| - 1], e, fields)
            else OnlyFieldsChanged(a[..|b| - 1], b[..|b| - 1], e, fields)
  {
  }

  lemma {:induction false} FindOpenFrame(a: seq<Conflict>, b: seq<Conflict>, e: nat, f: FieldName,
                                         fields: seq<FieldName>)
    requires OnlyFieldsChanged(a, b, e, fields) && f !in fields
    ensures FindOpen(b, e, f) == FindOpen(a, e, f)
    decreases |b|
  {
    if |b| == 0 {
    } else {
      FrameWithoutLast(a, b, e, fields);
      FindOpenFrame(if |a| < |b| then a else a[..|b| - 1], b[..|b| - 1], e, f, fields);
    }
  }

  lemma {:induction false} LatestResolvedFrame(a: seq<Conflict>, b: seq<Conflict>, e: nat, f: FieldName,
                                               fields: seq<FieldName>)
    requires OnlyFieldsChanged(a, b, e, fields) && f !in fields
    ensures LatestResolved(b, e, f) == LatestResolved(a, e, f)
    decreases |b|
  {
    if |b| == 0 {
    } else {
      FrameWithoutLast(a, b, e, fields);
      LatestResolvedFrame(if |a| < |b| then a else a[..|b| - 1], b[..|b| - 1], e, f, fields);
    }
  }

  // ---------- What a stage may do ----------

  predicate ReconcilerOp(op: Op) {
    op.MergeEvidence? || op.AutoClose? || op.MoveWinner? || op.ReopenForEvidence?
  }

  predicate ReconcilerAction(a: Action) {
    a.OpenConflict? || (a.UpdateConflict? && ReconcilerOp(a.op))
  }

  /** Since `before` the worker itself has only opened conflicts and made the reconciler's four updates. */
  ghost predicate Reconciled(before: Run, after: Run) {
    Extends(before, after)
    && forall k | |before.steps| <= k < |after.steps|
       && after.steps[k].actor == Self :: ReconcilerAction(after.steps[k].action)
  }

  lemma ReconciledThen(a: Run, b: Run, c: Run)
    requires Reconciled(a, b) && Reconciled(b, c)
    ensures Reconciled(a, c)
  {
  }

  lemma OutcomeReconciles(before: Run, after: Run, id: nat, r: Outcome)
    requires r.Applied? ==> Took(before, after, id, r.op) && ReconcilerOp(r.op)
    requires !r.Applied? ==> OnlyOthers(before, after)
    ensures Reconciled(before, after)
  {
    hide Legal, Perform;
  }

  lemma TookMovesWinner(before: Run, after: Run, id: nat, winning: nat)
    requires Took(before, after, id, MoveWinner(winning))
    ensures var now := after.states[|after.states| - 1];
            id < |now.conflicts| && now.conflicts[id].winner == Some(winning)
  {
  }

  // ---------- The worker ----------

  class ConflictReconciler {
    const store: Store

    constructor (store: Store)
      ensures this.store == store
    {
      this.store := store;
    }

    /** _merge_evidence_into_open, by a worker that began when the run was `start`. */
    method MergeEvidenceIntoOpen(existing: Loaded, ids: set<nat>, ghost start: Run) returns (r: Outcome)
      requires store.Valid() && WasRead(store.run, existing) && existing.row.status == Open
      requires LinksFit(store.db.claims, existing.row.event, existing.row.field, ids)
      requires OnlyOthers(start, store.run)
      modifies store
      ensures store.Valid() && existing.id < |store.db.conflicts|
      ensures Extends(old(store.run), store.run)
      ensures r == Applied(MergeEvidence(ids)) || r.Deferred? || r.RetriesExhausted?
      ensures r.Applied? ==> Took(start, store.run, existing.id, r.op) && ids <= store.db.conflicts[existing.id].links
                             && store.db.conflicts[existing.id].status == Open
      ensures !r.Applied? ==> OnlyOthers(start, store.run)
      ensures r.Deferred? ==> store.db.conflicts[existing.id].status == Resolved
      ensures r.RetriesExhausted? ==>
                store.db.conflicts[existing.id].version >= existing.row.version + 5
      ensures store.exclusive && Current(old(store.db), existing) ==>
                r.Applied?
                && store.db == old(store.db).(conflicts := old(store.db.conflicts)[existing.id := Perform(existing.row, r.op)])
    {
      var op := MergeEvidence(ids);
      var current := existing;
      for attempt := 0 to MAX_VERSION_RETRY
        invariant store.Valid() && OnlyOthers(start, store.run) && Extends(old(store.run), store.run)
        invariant WasRead(store.run, current) && current.id == existing.id && current.row.status == Open
        invariant current.row.IsOn(existing.row.event, existing.row.field)
        invariant current.row.version >= existing.row.version + attempt
        invariant attempt > 0 ==> Current(store.db, current)
        invariant LinksFit(store.db.claims, existing.row.event, existing.row.field, ids)
        invariant store.exclusive && Current(old(store.db), existing) ==>
                  attempt == 0 && store.db == old(store.db) && current == existing
      {
        var verdict, reloaded := store.TryOrReload(current, op, start);
        if verdict == Written {
          return Applied(op);
        }
        if reloaded.row.status != Open {
          return Deferred;
        }
        current := reloaded;
      }
      return RetriesExhausted;
    }

    /** _reopen_resolved_for_evidence. */
    method ReopenResolvedForEvidence(existing: Loaded, ids: set<nat>, ghost start: Run) returns (r: Outcome)
      requires store.Valid() && WasRead(store.run, existing) && existing.row.status == Resolved
      requires LinksFit(store.db.claims, existing.row.event, existing.row.field, ids)
      requires OnlyOthers(start, store.run)
      modifies store
      ensures store.Valid() && existing.id < |store.db.conflicts|
      ensures Extends(old(store.run), store.run)
      ensures r == Applied(ReopenForEvidence(ids)) || r == Applied(MergeEvidence(ids)) || r.Deferred? || r.Raised()
      ensures r.Applied? ==> Took(start, store.run, existing.id, r.op) && ids <= store.db.conflicts[existing.id].links
                             && store.db.conflicts[existing.id].status == Open
      ensures !r.Applied? ==> OnlyOthers(start, store.run)
      ensures r.Deferred? ==>
                store.db.conflicts[existing.id].status == Resolved && OpenSince(start, store.run, existing.id)
      ensures r.ClashAborted? ==> OtherOpen(store.db.conflicts, existing.id)
      ensures r.RetriesExhausted? ==>
                store.db.conflicts[existing.id].version >= existing.row.version + 5
      ensures store.exclusive && Current(old(store.db), existing) && !OtherOpen(old(store.db.conflicts), existing.id) ==>
                r == Applied(ReopenForEvidence(ids))
                && store.db == old(store.db).(conflicts := old(store.db.conflicts)[existing.id := Perform(existing.row, r.op)])
    {
      var current := existing;
      ghost var calm := store.exclusive && Current(store.db, existing) && !OtherOpen(store.db.conflicts, existing.id);
      for attempt := 0 to MAX_VERSION_RETRY
        invariant store.Valid() && OnlyOthers(start, store.run) && Extends(old(store.run), store.run)
        invariant WasRead(store.run, current) && current.id == existing.id && current.row.status == Resolved
        invariant current.row.IsOn(existing.row.event, existing.row.field)
        invariant current.row.version >= existing.row.version + attempt
        invariant attempt > 0 ==> Current(store.db, current)
        invariant LinksFit(store.db.claims, existing.row.event, existing.row.field, ids)
        invariant calm ==> attempt == 0 && store.db == old(store.db) && current == existing
      {
        var outcome, again, reloaded := TryToReopen(current, ids, start);
        if !again {
          return outcome;
        }
        current := reloaded;
      }
      return RetriesExhausted;
    }

    /** One attempt of the loop above, and whether there is to be another. */
    method TryToReopen(current: Loaded, ids: set<nat>, ghost start: Run)
      returns (r: Outcome, again: bool, reloaded: Loaded)
      requires store.Valid() && WasRead(store.run, current) && current.row.status == Resolved
      requires LinksFit(store.db.claims, current.row.event, current.row.field, ids)
      requires OnlyOthers(start, store.run)
      modifies store
      ensures store.Valid() && current.id < |store.db.conflicts| && Extends(old(store.run), store.run)
      ensures r == Applied(ReopenForEvidence(ids)) || r == Applied(MergeEvidence(ids)) || r.Deferred? || r.Raised()
      ensures again ==> r.Deferred?
      ensures r.Applied? ==> Took(start, store.run, current.id, r.op) && ids <= store.db.conflicts[current.id].links
                             && store.db.conflicts[current.id].status == Open
      ensures !r.Applied? ==> OnlyOthers(start, store.run)
      ensures r.Deferred? ==> store.db.conflicts[current.id].status == Resolved
      ensures r.Deferred? && !again ==> OpenSince(start, store.run, current.id)
      ensures r.ClashAborted? ==> OtherOpen(store.db.conflicts, current.id)
      ensures r.RetriesExhausted? ==> store.db.conflicts[current.id].version >= current.row.version + MAX_VERSION_RETRY
      ensures again ==> WasRead(store.run, reloaded) && reloaded.id == current.id && Current(store.db, reloaded)
                        && reloaded.row.IsOn(current.row.event, current.row.field)
                           && reloaded.row.version > current.row.version
                        && LinksFit(store.db.claims, current.row.event, current.row.field, ids)
      ensures store.exclusive && Current(old(store.db), current) && !OtherOpen(old(store.db.conflicts), current.id) ==>
                r == Applied(ReopenForEvidence(ids))
                && store.db == old(store.db).(conflicts := old(store.db.conflicts)[current.id := Perform(current.row, r.op)])
    {
      var op := ReopenForEvidence(ids);
      var verdict;
      verdict, reloaded := store.TryOrReload(current, op, start);
      if verdict == Written {
        return Applied(op), false, reloaded;
      }
      if verdict == Clash {
        return ClashAborted, false, reloaded;
      }
      if reloaded.row.status == Open {
        r := MergeReopened(reloaded, ids, start);
        return r, false, reloaded;
      }
      return Deferred, true, reloaded;
    }

    /** Somebody else reopened the conflict, as it was just read: the evidence is merged into it. */
    method MergeReopened(reloaded: Loaded, ids: set<nat>, ghost start: Run) returns (r: Outcome)
      requires store.Valid() && WasRead(store.run, reloaded) && reloaded.row.status == Open
               && Current(store.db, reloaded)
      requires LinksFit(store.db.claims, reloaded.row.event, reloaded.row.field, ids)
      requires OnlyOthers(start, store.run)
      modifies store
      ensures store.Valid() && reloaded.id < |store.db.conflicts| && Extends(old(store.run), store.run)
      ensures r == Applied(MergeEvidence(ids)) || r.Deferred? || r.RetriesExhausted?
      ensures r.Applied? ==> Took(start, store.run, reloaded.id, r.op) && ids <= store.db.conflicts[reloaded.id].links
                             && store.db.conflicts[reloaded.id].status == Open
      ensures !r.Applied? ==> OnlyOthers(start, store.run)
      ensures r.Deferred? ==>
                store.db.conflicts[reloaded.id].status == Resolved && OpenSince(start, store.run, reloaded.id)
      ensures r.RetriesExhausted? ==>
                store.db.conflicts[reloaded.id].version >= reloaded.row.version + MAX_VERSION_RETRY
    {
      hide Legal;
      ghost var seen := store.run;
      r := MergeEvidenceIntoOpen(reloaded, ids, start);
      OpenSeen(start, seen, store.run, reloaded.id);
    }

    /** _auto_resolve_stale_open_conflict. */
    method AutoResolveStaleOpenConflict(e: nat, f: FieldName, ghost start: Run) returns (r: Outcome, id: nat)
      requires store.Valid() && OnlyOthers(start, store.run)
      modifies store
      ensures store.Valid()
      ensures r.NothingToDo? || r.Deferred? || r.RetriesExhausted? || (r.Applied? && r.op.AutoClose?)
      ensures !r.Applied? ==> OnlyOthers(start, store.run)
      ensures r.Applied? ==>
                Took(start, store.run, id, r.op) && id < |store.db.conflicts| && store.db.conflicts[id].IsOn(e, f)
      ensures r.Applied? ==> AgreedSince(start, store.run, e, f, r.op.winning)
      ensures !r.Raised() ==> QuietSince(start, store.run, e, f)
      ensures r.Deferred? ==>
                id < |store.db.conflicts| && store.db.conflicts[id].IsOn(e, f) && store.db.conflicts[id].status == Resolved
      ensures r.RetriesExhausted? ==> BumpedSince(start, store.run, id, 5)
      ensures store.exclusive ==>
                !r.Raised()
                && store.db == old(store.db).(conflicts :=
                     match FindOpen(old(store.db.conflicts), e, f)
                     case None => old(store.db.conflicts)
                     case Some(i) =>
                       old(store.db.conflicts)[i := ClosedIfAgreed(old(store.db.claims), old(store.db.conflicts)[i])])
    {
      id := 0;
      store.LetOthersAct();
      OthersThenOthers(start, old(store.run), store.run);
      var open := FindOpen(store.db.conflicts, e, f);
      if open.None? {
        QuietNow(start, store.run, store.db, e, f);
        return NothingToDo, id;
      }
      id := open.value;
      var first := store.Load(id);
      r := CloseLoop(first, e, f, start);
    }

    /** The retry loop of _auto_resolve_stale_open_conflict, for the open conflict as it was just read. */
    method CloseLoop(first: Loaded, e: nat, f: FieldName, ghost start: Run) returns (r: Outcome)
      requires store.Valid() && OnlyOthers(start, store.run)
      requires WasRead(store.run, first) && first.row.IsOpenOn(e, f) && Current(store.db, first)
               && first.readAt + 1 >= |start.states|
      modifies store
      ensures store.Valid() && first.id < |store.db.conflicts| && store.db.conflicts[first.id].IsOn(e, f)
      ensures r.NothingToDo? || r.Deferred? || r.RetriesExhausted? || (r.Applied? && r.op.AutoClose?)
      ensures !r.Applied? ==> OnlyOthers(start, store.run)
      ensures r.Applied? ==> Took(start, store.run, first.id, r.op) && AgreedSince(start, store.run, e, f, r.op.winning)
      ensures !r.Raised() ==> QuietSince(start, store.run, e, f)
      ensures r.Deferred? ==> store.db.conflicts[first.id].status == Resolved
      ensures r.RetriesExhausted? ==> BumpedSince(start, store.run, first.id, MAX_VERSION_RETRY)
      ensures store.exclusive ==>
                !r.Raised()
                && store.db == old(store.db).(conflicts :=
                     old(store.db.conflicts)[first.id := ClosedIfAgreed(old(store.db.claims), old(store.db.conflicts)[first.id])])
    {
      hide Legal, QuietSince, Took, AgreedSince;
      var current := first;
      for attempt := 0 to MAX_VERSION_RETRY
        invariant store.Valid() && OnlyOthers(start, store.run) && WasRead(store.run, first)
        invariant WasRead(store.run, current) && current.id == first.id && current.row.IsOpenOn(e, f)
        invariant current.row.version >= first.row.version + attempt && Current(store.db, current)
        invariant current.readAt + 1 >= |start.states|
        invariant store.exclusive ==> attempt == 0 && store.db == old(store.db)
      {
        ghost var before := store.run;
        var outcome, reloaded := TryToClose(current, e, f, start);
        StillRead(before, store.run, first);
        if !outcome.Deferred? {
          return outcome;
        }
        if reloaded.row.status != Open {
          StillRead(before, store.run, current);
          QuietOnceClosed(start, store.run, current, e, f);
          return Deferred;
        }
        current := reloaded;
      }
      assert BumpedAt(store.run, first.readAt, first.id, MAX_VERSION_RETRY);
      return RetriesExhausted;
    }

    /** One attempt of the loop above; Deferred when the row moved on. */
    method TryToClose(current: Loaded, e: nat, f: FieldName, ghost start: Run) returns (r: Outcome, reloaded: Loaded)
      requires store.Valid() && OnlyOthers(start, store.run)
      requires WasRead(store.run, current) && current.row.IsOpenOn(e, f) && current.readAt + 1 >= |start.states|
      modifies store
      ensures store.Valid() && Extends(old(store.run), store.run)
      ensures r.NothingToDo? || r.Deferred? || (r.Applied? && r.op.AutoClose?)
      ensures !r.Applied? ==> OnlyOthers(start, store.run)
      ensures r.Applied? ==> Took(start, store.run, current.id, r.op) && current.id < |store.db.conflicts|
                             && store.db.conflicts[current.id].status == Resolved
      ensures !r.Deferred? ==> QuietSince(start, store.run, e, f)
      ensures current.id < |store.db.conflicts| && store.db.conflicts[current.id].IsOn(e, f)
      ensures r.Applied? ==> AgreedSince(start, store.run, e, f, r.op.winning)
      ensures r.Deferred? ==> WasRead(store.run, reloaded) && reloaded.id == current.id && reloaded.row.IsOn(e, f)
                              && Current(store.db, reloaded) && reloaded.row.version > current.row.version
                              && reloaded.readAt + 1 >= |start.states|
      ensures store.exclusive && Current(old(store.db), current) ==>
                !r.Deferred?
                && store.db == old(store.db).(conflicts :=
                     old(store.db.conflicts)[current.id := ClosedIfAgreed(old(store.db.claims), current.row)])
    {
      hide Legal, QuietSince, Took, AgreedSince, UniqueValues;
      reloaded := current;
      store.LetOthersAct();
      OthersThenOthers(start, old(store.run), store.run);
      StillRead(old(store.run), store.run, current);
      var ids := ActiveIds(store.db.claims, e, f);
      if ids == [] || |UniqueValues(store.db.claims, ids)| > 1 {
        NoReasonToClose(start, store.run, store.db, e, f);
        ReadRowGrew(store.run, current);
        return NothingToDo, reloaded;
      }
      assert ids[0] in ids;
      ghost var before := store.run;
      r, reloaded := CloseAgreed(current, ids[0], start);
      if r.Applied? {
        StillRead(before, store.run, current);
        QuietOnceClosed(start, store.run, current, e, f);
      }
    }

    /** The version-checked update of that attempt. */
    method CloseAgreed(current: Loaded, winner: nat, ghost start: Run) returns (r: Outcome, reloaded: Loaded)
      requires store.Valid() && WasRead(store.run, current) && current.row.status == Open
               && OnlyOthers(start, store.run)
      requires var claims, e, f := store.db.claims, current.row.event, current.row.field;
               winner in ActiveIds(claims, e, f) && |UniqueValues(claims, ActiveIds(claims, e, f))| <= 1
      modifies store
      ensures store.Valid() && Extends(old(store.run), store.run)
      ensures r == Applied(AutoClose(winner)) || r.Deferred?
      ensures !r.Applied? ==> OnlyOthers(start, store.run)
      ensures current.id < |store.db.conflicts|
              && store.db.conflicts[current.id].IsOn(current.row.event, current.row.field)
      ensures r.Applied? ==>
                Took(start, store.run, current.id, r.op) && store.db.conflicts[current.id].status == Resolved
      ensures AgreedSince(start, store.run, current.row.event, current.row.field, winner)
      ensures r.Deferred? ==> WasRead(store.run, reloaded) && reloaded.id == current.id
                              && reloaded.row.IsOn(current.row.event, current.row.field)
                              && Current(store.db, reloaded) && reloaded.row.version > current.row.version
                              && reloaded.readAt + 1 >= |start.states|
      ensures store.exclusive && Current(old(store.db), current) ==>
                r.Applied?
                && store.db == old(store.db).(conflicts :=
                     old(store.db.conflicts)[current.id := Perform(current.row, AutoClose(winner))])
    {
      ghost var seen := store.run;
      AgreementSeen(start, seen, store.db, current.row.event, current.row.field, winner);
      var verdict;
      verdict, reloaded := store.TryOrReload(current, AutoClose(winner), start);
      StillAgreed(start, seen, store.run, current.row.event, current.row.field, winner);
      r := if verdict == Written then Applied(AutoClose(winner)) else Deferred;
    }

    /** _reconcile_resolved_winner. Unlike the other helpers it gives up silently. */
    method ReconcileResolvedWinner(existing: Loaded, replacement: nat, ghost start: Run) returns (r: Outcome)
      requires store.Valid() && WasRead(store.run, existing) && existing.row.status == Resolved
      requires OnlyOthers(start, store.run)
      modifies store
      ensures store.Valid() && existing.id < |store.db.conflicts|
      ensures r.Applied? ==> Took(start, store.run, existing.id, r.op) && ReconcilerOp(r.op) && !r.op.AutoClose?
      ensures r.Applied? ==>
                if r.op.MoveWinner? then AgreedSince(start, store.run, existing.row.event, existing.row.field, r.op.winning)
                else DisagreedSince(start, store.run, existing.row.event, existing.row.field, NewLinks(r.op))
      ensures !r.Applied? ==> OnlyOthers(start, store.run)
      ensures !r.Raised() && !r.GaveUp? ==>
                WinnerRightSince(start, store.run, existing.id, existing.row.event, existing.row.field)
      ensures r.ClashAborted? ==> OtherOpen(store.db.conflicts, existing.id)
      ensures r.GaveUp? || r.RetriesExhausted? ==>
                store.db.conflicts[existing.id].version >= existing.row.version + 5
      ensures store.exclusive && Current(old(store.db), existing) && !OtherOpen(old(store.db.conflicts), existing.id) ==>
                !r.Raised() && !r.GaveUp?
                && store.db == old(store.db).(conflicts :=
                     old(store.db.conflicts)[existing.id := FixedWinner(old(store.db.claims), existing.row, replacement)])
    {
      store.LetOthersAct();
      OthersThenOthers(start, old(store.run), store.run);
      StillRead(old(store.run), store.run, existing);
      ReadRowGrew(store.run, existing);
      r := FixWinner(existing, replacement, start);
    }

    /** The decision of _reconcile_resolved_winner on the claims as they are now. */
    method FixWinner(existing: Loaded, replacement: nat, ghost start: Run) returns (r: Outcome)
      requires store.Valid() && WasRead(store.run, existing) && existing.row.status == Resolved
      requires existing.id < |store.db.conflicts| && OnlyOthers(start, store.run)
      modifies store
      ensures store.Valid() && existing.id < |store.db.conflicts|
      ensures r.Applied? ==> Took(start, store.run, existing.id, r.op) && ReconcilerOp(r.op) && !r.op.AutoClose?
      ensures r.Applied? ==>
                if r.op.MoveWinner? then AgreedSince(start, store.run, existing.row.event, existing.row.field, r.op.winning)
                else DisagreedSince(start, store.run, existing.row.event, existing.row.field, NewLinks(r.op))
      ensures !r.Applied? ==> OnlyOthers(start, store.run)
      ensures !r.Raised() && !r.GaveUp? ==>
                WinnerRightSince(start, store.run, existing.id, existing.row.event, existing.row.field)
      ensures r.ClashAborted? ==> OtherOpen(store.db.conflicts, existing.id)
      ensures r.GaveUp? || r.RetriesExhausted? ==>
                store.db.conflicts[existing.id].version >= existing.row.version + MAX_VERSION_RETRY
      ensures store.exclusive && Current(old(store.db), existing) && !OtherOpen(old(store.db.conflicts), existing.id) ==>
                !r.Raised() && !r.GaveUp?
                && store.db == old(store.db).(conflicts :=
                     old(store.db.conflicts)[existing.id := FixedWinner(old(store.db.claims), existing.row, replacement)])
    {
      var e, f := existing.row.event, existing.row.field;
      var ids := ActiveIds(store.db.claims, e, f);
      if ids == [] {
        CountingValuesTestsAgreement(store.db.claims, e, f);
        WinnerRightNow(start, store.run, existing.id, e, f);
        return NothingToDo;
      }
      assert ids[0] in ids;
      if |UniqueValues(store.db.claims, ids)| != 1 {
        r := ReopenDisagreed(existing, ActiveSet(store.db.claims, e, f), start);
        return;
      }
      var newWinner := if replacement in ids then replacement else ids[0];
      r := PointAtAgreed(existing, newWinner, start);
    }

    /** The branch of _reconcile_resolved_winner that reopens. */
    method ReopenDisagreed(existing: Loaded, ids: set<nat>, ghost start: Run) returns (r: Outcome)
      requires store.Valid() && WasRead(store.run, existing) && existing.row.status == Resolved
      requires OnlyOthers(start, store.run)
      requires var claims, e, f := store.db.claims, existing.row.event, existing.row.field;
               ids == ActiveSet(claims, e, f) && ActiveIds(claims, e, f) != []
               && |UniqueValues(claims, ActiveIds(claims, e, f))| != 1
      modifies store
      ensures store.Valid() && existing.id < |store.db.conflicts|
      ensures r == Applied(ReopenForEvidence(ids)) || r == Applied(MergeEvidence(ids)) || r.Deferred? || r.Raised()
      ensures r.Applied? ==> Took(start, store.run, existing.id, r.op)
      ensures DisagreedSince(start, store.run, existing.row.event, existing.row.field, ids)
      ensures !r.Raised() ==> WinnerRightSince(start, store.run, existing.id, existing.row.event, existing.row.field)
      ensures r.ClashAborted? ==> OtherOpen(store.db.conflicts, existing.id)
      ensures !r.Applied? ==> OnlyOthers(start, store.run)
      ensures r.RetriesExhausted? ==>
                store.db.conflicts[existing.id].version >= existing.row.version + MAX_VERSION_RETRY
      ensures store.exclusive && Current(old(store.db), existing) && !OtherOpen(old(store.db.conflicts), existing.id) ==>
                r == Applied(ReopenForEvidence(ids))
                && store.db == old(store.db).(conflicts := old(store.db.conflicts)[existing.id := Perform(existing.row, r.op)])
    {
      ghost var seen := store.run;
      DisagreementSeen(start, seen, store.db, existing.row.event, existing.row.field);
      r := ReopenResolvedForEvidence(existing, ids, start);
      StillDisagreed(start, seen, store.run, existing.row.event, existing.row.field, ids);
      if r.Applied? {
        WinnerRightNow(start, store.run, existing.id, existing.row.event, existing.row.field);
      } else if r.Deferred? {
        WinnerRightOnceOpen(start, store.run, existing.id, existing.row.event, existing.row.field);
      }
    }

    /** The branch of _reconcile_resolved_winner that keeps the conflict resolved. */
    method PointAtAgreed(existing: Loaded, newWinner: nat, ghost start: Run) returns (r: Outcome)
      requires store.Valid() && WasRead(store.run, existing) && existing.row.status == Resolved
      requires OnlyOthers(start, store.run)
      requires var claims, e, f := store.db.claims, existing.row.event, existing.row.field;
               newWinner in ActiveIds(claims, e, f) && |UniqueValues(claims, ActiveIds(claims, e, f))| <= 1
      modifies store
      ensures store.Valid() && existing.id < |store.db.conflicts|
      ensures r == Applied(MoveWinner(newWinner)) || r.Deferred? || r.GaveUp?
      ensures r.Applied? ==> Took(start, store.run, existing.id, r.op)
      ensures AgreedSince(start, store.run, existing.row.event, existing.row.field, newWinner)
      ensures !r.GaveUp? ==> WinnerRightSince(start, store.run, existing.id, existing.row.event, existing.row.field)
      ensures !r.Applied? ==> OnlyOthers(start, store.run)
      ensures r.GaveUp? ==> store.db.conflicts[existing.id].version >= existing.row.version + MAX_VERSION_RETRY
      ensures store.exclusive && Current(old(store.db), existing) ==>
                r.Applied?
                && store.db == old(store.db).(conflicts := old(store.db.conflicts)[existing.id := Perform(existing.row, r.op)])
    {
      hide Legal, AgreedSince, UniqueValues, Took;
      ghost var seen := store.run;
      AgreementSeen(start, seen, store.db, existing.row.event, existing.row.field, newWinner);
      r := PointAtWinner(existing, newWinner, start);
      StillAgreed(start, seen, store.run, existing.row.event, existing.row.field, newWinner);
      if !r.GaveUp? {
        WinnerRightNow(start, store.run, existing.id, existing.row.event, existing.row.field);
      }
    }

    /** The retry loop of _reconcile_resolved_winner. */
    method PointAtWinner(existing: Loaded, newWinner: nat, ghost start: Run) returns (r: Outcome)
      requires store.Valid() && WasRead(store.run, existing) && existing.row.status == Resolved
      requires LinksFit(store.db.claims, existing.row.event, existing.row.field, {newWinner})
      requires OnlyOthers(start, store.run)
      modifies store
      ensures store.Valid() && existing.id < |store.db.conflicts|
      ensures Extends(old(store.run), store.run)
      ensures r == Applied(MoveWinner(newWinner)) || r.Deferred? || r.GaveUp?
      ensures r.Applied? ==>
                Took(start, store.run, existing.id, r.op) && store.db.conflicts[existing.id].winner == Some(newWinner)
      ensures r.Deferred? ==> store.db.conflicts[existing.id].status == Open
      ensures !r.Applied? ==> OnlyOthers(start, store.run)
      ensures r.GaveUp? ==> store.db.conflicts[existing.id].version >= existing.row.version + MAX_VERSION_RETRY
      ensures store.exclusive && Current(old(store.db), existing) ==>
                r.Applied?
                && store.db == old(store.db).(conflicts := old(store.db.conflicts)[existing.id := Perform(existing.row, r.op)])
    {
      hide Legal, Took, OnlyOthers, Perform;
      var op := MoveWinner(newWinner);
      var current := existing;
      ReadRowGrew(store.run, existing);
      for attempt := 0 to MAX_VERSION_RETRY
        invariant store.Valid() && OnlyOthers(start, store.run) && Extends(old(store.run), store.run)
        invariant WasRead(store.run, current) && current.id == existing.id && current.row.status == Resolved
        invariant current.row.IsOn(existing.row.event, existing.row.field)
        invariant current.row.version >= existing.row.version + attempt
        invariant attempt > 0 ==> Current(store.db, current)
        invariant LinksFit(store.db.claims, existing.row.event, existing.row.field, {newWinner})
        invariant existing.id < |store.db.conflicts|
        invariant store.exclusive && Current(old(store.db), existing) ==>
                  attempt == 0 && store.db == old(store.db) && current == existing
      {
        var verdict, reloaded := store.TryOrReload(current, op, start);
        if verdict == Written {
          TookMovesWinner(start, store.run, existing.id, newWinner);
          return Applied(op);
        }
        if reloaded.row.status != Resolved {
          return Deferred;
        }
        current := reloaded;
      }
      return GaveUp;
    }

    /** reconcile_superseded_winners. */
    method ReconcileSupersededWinners(pending: seq<Pending>) returns (r: Outcome)
      requires store.Valid()
      requires forall k | 0 <= k < |pending| :: WasRead(store.run, pending[k].loaded) && pending[k].loaded.row.status == Resolved
      modifies store
      ensures store.Valid() && Reconciled(old(store.run), store.run)
      ensures !r.Raised() ==> AllHandled(old(store.run), store.run, pending, |pending|)
      ensures r.Raised() ==> exists k | 0 <= k < |pending| :: PendingRaised(store.run, pending[k], r)
      ensures store.exclusive && OneRowPerField(old(store.db.conflicts)) && AllCurrent(old(store.db), pending) ==>
                !r.Raised() && store.db == FixWinners(old(store.db), pending)
    {
      ghost var db0 := store.db;
      ghost var calm := store.exclusive && OneRowPerField(db0.conflicts) && AllCurrent(db0, pending);
      for i := 0 to |pending|
        invariant store.Valid() && Reconciled(old(store.run), store.run)
        invariant AllHandled(old(store.run), store.run, pending, i)
        invariant calm ==> FixedSoFar(db0, store.db, pending, i)
      {
        ghost var before := store.run;
        if calm {
          FixedSoFarIsCalm(db0, store.db, pending, i);
        }
        ghost var was := store.db;
        StillRead(old(store.run), store.run, pending[i].loaded);
        r := FixPending(pending[i]);
        ReconciledThen(old(store.run), before, store.run);
        if r.Raised() {
          return;
        }
        OneMoreHandled(old(store.run), before, store.run, pending, i);
        if calm {
          FixedOneMore(db0, was, store.db, pending, i);
        }
      }
      r := NothingToDo;
      if calm {
        FixedIsFixWinners(db0, store.db, pending);
      }
    }

    method FixPending(p: Pending) returns (r: Outcome)
      requires store.Valid() && WasRead(store.run, p.loaded) && p.loaded.row.status == Resolved
      modifies store
      ensures store.Valid() && Reconciled(old(store.run), store.run)
      ensures !r.Raised() ==> WinnerHandled(old(store.run), store.run, p)
      ensures r.Raised() ==> PendingRaised(store.run, p, r)
      ensures store.exclusive && Current(old(store.db), p.loaded) && !OtherOpen(old(store.db.conflicts), p.loaded.id) ==>
                !r.Raised()
                && store.db == old(store.db).(conflicts :=
                     old(store.db.conflicts)[p.loaded.id := FixedWinner(old(store.db.claims), p.loaded.row, p.replacement)])
    {
      r := ReconcileResolvedWinner(p.loaded, p.replacement, store.run);
      OutcomeReconciles(old(store.run), store.run, p.loaded.id, r);
    }

    /** auto_resolve_stale_open_conflicts; the fields come in no particular order. */
    method AutoResolveStaleOpenConflicts(e: nat, fields: set<FieldName>) returns (r: Outcome)
      requires store.Valid()
      modifies store
      ensures store.Valid() && Reconciled(old(store.run), store.run)
      ensures !r.Raised() ==> forall f | f in fields :: QuietSince(old(store.run), store.run, e, f)
      ensures r.Raised() ==> RaisedSince(old(store.run), store.run, r)
      ensures store.exclusive ==> !r.Raised() && store.db == CloseStale(old(store.db), e, fields)
    {
      ghost var db0 := store.db;
      var remaining := fields;
      assert store.db.conflicts == CloseStale(db0, e, fields - remaining).conflicts;
      while remaining != {}
        invariant store.Valid() && Reconciled(old(store.run), store.run) && remaining <= fields
        invariant forall g | g in fields - remaining :: QuietSince(old(store.run), store.run, e, g)
        invariant store.exclusive ==> store.db == CloseStale(db0, e, fields - remaining)
        decreases remaining
      {
        var f :| f in remaining;
        ghost var before := store.run;
        r := CloseField(e, f, db0, fields - remaining);
        ReconciledThen(old(store.run), before, store.run);
        if r.Raised() {
          RaisedLater(old(store.run), before, store.run, r);
          return;
        }
        forall g | g in fields - remaining + {f} ensures QuietSince(old(store.run), store.run, e, g) {
          StillQuiet(old(store.run), if g == f then before else old(store.run), if g == f then store.run else before,
                     store.run, e, g);
        }
        assert fields - (remaining - {f}) == fields - remaining + {f};
        remaining := remaining - {f};
      }
      r := NothingToDo;
      assert fields - remaining == fields;
    }

    method CloseField(e: nat, f: FieldName, ghost db0: Db, ghost done: set<FieldName>) returns (r: Outcome)
      requires store.Valid() && f !in done
      modifies store
      ensures store.Valid() && Reconciled(old(store.run), store.run)
      ensures !r.Raised() ==> QuietSince(old(store.run), store.run, e, f)
      ensures r.Raised() ==> RaisedSince(old(store.run), store.run, r)
      ensures store.exclusive && old(store.db) == CloseStale(db0, e, done) ==>
                !r.Raised() && store.db == CloseStale(db0, e, done + {f})
    {
      EveryStateIsSafe(store.run, |store.run.states| - 1);
      ghost var was := store.db;
      var id;
      r, id := AutoResolveStaleOpenConflict(e, f, store.run);
      OutcomeReconciles(old(store.run), store.run, id, r);
      ExhaustedSince(old(store.run), store.run, id, r);
      if store.exclusive && was == CloseStale(db0, e, done) {
        CloseOneMore(db0, e, done, f);
      }
    }

    /** detect_and_apply_new_conflicts. */
    method DetectAndApplyNewConflicts(e: nat) returns (r: Outcome)
      requires store.Valid()
      modifies store
      ensures store.Valid() && Reconciled(old(store.run), store.run)
      ensures !r.Raised() ==> DetectionHandled(old(store.run), store.run, e)
      ensures r.Raised() ==> RaisedSince(old(store.run), store.run, r)
      ensures store.exclusive ==> !r.Raised() && store.db == DetectConflicts(old(store.db), e)
    {
      hide DetectionHandled, HandledUpTo, Legal, DetectFields, DetectedFields, ReconcilerAction, RaisedAfter, RaisedSince;
      store.LetOthersAct();
      var claims := store.db.claims;
      ghost var middle := store.run;
      RunHasStates(middle);
      var detected := DetectedFields(claims, e);
      if detected == [] {
        NothingDetected(old(store.run), store.run, claims, e);
        return NothingToDo;
      }
      store.LetOthersAct();
      r := ApplyAll(claims, e, detected, |middle.states| - 1);
      ReconciledThen(old(store.run), middle, store.run);
      RaisedFrom(old(store.run), store.run, |middle.states| - 1, r);
      if !r.Raised() {
        AllDetectedHandled(old(store.run), middle, store.run, claims, e, detected);
      }
    }

    /** The existing conflicts are read, and then the detected fields handled one by one. The claims were
        read at position `from`. */
    method ApplyAll(claims: seq<Claim>, e: nat, detected: seq<FieldName>, ghost from: nat) returns (r: Outcome)
      requires store.Valid() && ClaimsGrew(claims, store.db.claims) && AllDistinct(detected)
               && from < |store.run.states|
      modifies store
      ensures store.Valid() && Reconciled(old(store.run), store.run)
      ensures !r.Raised() ==> HandledUpTo(store.run, from, claims, e, detected, |detected|)
      ensures RaisedAfter(store.run, from, r)
      ensures store.exclusive && claims == old(store.db.claims) ==>
                !r.Raised()
                && store.db == old(store.db).(conflicts := DetectFields(claims, old(store.db.conflicts), e, detected))
    {
      var existing := store.db.conflicts;
      var readAt := |store.run.states| - 1;
      ghost var calm := store.exclusive && claims == store.db.claims;
      ghost var tables := store.db;
      for i := 0 to |detected|
        invariant store.Valid() && Reconciled(old(store.run), store.run) && ClaimsGrew(claims, store.db.claims)
        invariant HandledUpTo(store.run, from, claims, e, detected, i)
        invariant calm ==> DetectedSoFar(tables, store.db, claims, e, detected, i)
      {
        ghost var before := store.run;
        r := ApplyNext(claims, existing, readAt, e, detected, i, from, tables, calm);
        ReconciledThen(old(store.run), before, store.run);
        if r.Raised() {
          return;
        }
      }
      r := NothingToDo;
      assert detected[..|detected|] == detected;
    }

    /** One pass of that loop. */
    method ApplyNext(claims: seq<Claim>, existing: seq<Conflict>, readAt: nat, e: nat, detected: seq<FieldName>, i: nat,
                     ghost from: nat, ghost tables: Db, ghost calm: bool) returns (r: Outcome)
      requires store.Valid() && ClaimsGrew(claims, store.db.claims)
      requires from <= readAt < |store.run.states| && store.run.states[readAt].conflicts == existing
      requires i < |detected| && AllDistinct(detected)
      requires HandledUpTo(store.run, from, claims, e, detected, i)
      requires calm ==> store.exclusive && claims == tables.claims && existing == tables.conflicts
                        && DetectedSoFar(tables, store.db, claims, e, detected, i)
      modifies store
      ensures store.Valid() && Reconciled(old(store.run), store.run) && ClaimsGrew(claims, store.db.claims)
      ensures !r.Raised() ==> HandledUpTo(store.run, from, claims, e, detected, i + 1)
      ensures RaisedAfter(store.run, from, r)
      ensures calm ==> !r.Raised() && DetectedSoFar(tables, store.db, claims, e, detected, i + 1)
    {
      hide Legal, HandledUpTo, DetectedSoFar, ClaimsGrew, DetectField, RaisedAfter;
      ghost var before, was := store.run, store.db;
      if calm {
        DetectedSoFarMeans(tables, was, claims, e, detected, i);
      }
      r := ApplyDetected(claims, existing, readAt, e, detected, i, from);
      ClaimsStillGrew(claims, before, store.run);
      if !r.Raised() {
        OneMoreDetectedHandled(before, store.run, from, claims, e, detected, i);
      }
      if calm {
        DetectedOneMore(tables, was, store.db, claims, e, detected, i);
      }
    }

    /** Cases 1 to 3 for the i-th detected field. `claims` are the claims and `existing` the conflicts read
        before the loop, the latter at `readAt`. */
    method ApplyDetected(claims: seq<Claim>, existing: seq<Conflict>, readAt: nat, e: nat, detected: seq<FieldName>,
                         i: nat, ghost from: nat)
      returns (r: Outcome)
      requires store.Valid() && ClaimsGrew(claims, store.db.claims)
      requires from <= readAt < |store.run.states| && store.run.states[readAt].conflicts == existing
      requires i < |detected| && AllDistinct(detected)
      modifies store
      ensures store.Valid() && Reconciled(old(store.run), store.run)
      ensures !r.Raised() ==> DetectedHandled(store.run, from, e, detected[i], ActiveSet(claims, e, detected[i]))
      ensures RaisedAfter(store.run, from, r)
      ensures store.exclusive && claims == old(store.db.claims)
              && old(store.db.conflicts) == DetectFields(claims, existing, e, detected[..i]) ==>
                !r.Raised()
                && store.db == old(store.db).(conflicts := DetectField(claims, old(store.db.conflicts), e, detected[i]))
    {
      var f := detected[i];
      var ids := ActiveSet(claims, e, f);
      if store.db.conflicts == DetectFields(claims, existing, e, detected[..i]) {
        DetectFieldsFrame(claims, existing, e, detected[..i]);
        SameLookups(claims, existing, store.db.conflicts, e, f, detected[..i]);
      }
      assert LinksFit(store.db.claims, e, f, ids);
      var open := FindOpen(existing, e, f);
      if open.Some? {
        r := MergeDetected(Loaded(open.value, existing[open.value], readAt), ids, from);
        return;
      }
      var contradicted := Contradicted(claims, store.db.claims, existing, e, f);
      if contradicted.Some? {
        r := ReopenDetected(Loaded(contradicted.value, existing[contradicted.value], readAt), ids, from);
        return;
      }
      r := OpenNewConflict(e, f, ids, from);
    }

    method MergeDetected(l: Loaded, ids: set<nat>, ghost from: nat) returns (r: Outcome)
      requires store.Valid() && WasRead(store.run, l) && l.row.status == Open && from <= l.readAt
      requires LinksFit(store.db.claims, l.row.event, l.row.field, ids)
      modifies store
      ensures store.Valid() && Reconciled(old(store.run), store.run)
      ensures !r.Raised() ==> DetectedHandled(store.run, from, l.row.event, l.row.field, ids)
      ensures RaisedAfter(store.run, from, r)
      ensures store.exclusive && Current(old(store.db), l) ==>
                !r.Raised()
                && store.db == old(store.db).(conflicts := old(store.db.conflicts)[l.id := Perform(l.row, MergeEvidence(ids))])
    {
      hide Legal;
      ghost var before := store.run;
      OthersMayRest(store.run);
      r := MergeEvidenceIntoOpen(l, ids, store.run);
      OutcomeReconciles(old(store.run), store.run, l.id, r);
      StillRead(before, store.run, l);
      ReadRowGrew(store.run, l);
      RaisedOnRow(store.run, store.db, from, l, r);
      if r.Applied? {
        LinkedNow(store.run, store.db, from, l.id, l.row.event, l.row.field, ids);
      } else if r.Deferred? {
        ClosedNow(store.run, store.db, from, l.readAt, l.id, l.row.event, l.row.field, ids);
      }
    }

    method ReopenDetected(l: Loaded, ids: set<nat>, ghost from: nat) returns (r: Outcome)
      requires store.Valid() && WasRead(store.run, l) && l.row.status == Resolved && from <= l.readAt
      requires LinksFit(store.db.claims, l.row.event, l.row.field, ids)
      modifies store
      ensures store.Valid() && Reconciled(old(store.run), store.run)
      ensures !r.Raised() ==> DetectedHandled(store.run, from, l.row.event, l.row.field, ids)
      ensures RaisedAfter(store.run, from, r)
      ensures store.exclusive && Current(old(store.db), l) && !OtherOpen(old(store.db.conflicts), l.id) ==>
                !r.Raised()
                && store.db == old(store.db).(conflicts :=
                     old(store.db.conflicts)[l.id := Perform(l.row, ReopenForEvidence(ids))])
    {
      hide Legal;
      ghost var before := store.run;
      OthersMayRest(store.run);
      r := ReopenResolvedForEvidence(l, ids, store.run);
      OutcomeReconciles(old(store.run), store.run, l.id, r);
      StillRead(before, store.run, l);
      ReadRowGrew(store.run, l);
      RaisedOnRow(store.run, store.db, from, l, r);
      if r.Applied? {
        LinkedNow(store.run, store.db, from, l.id, l.row.event, l.row.field, ids);
      } else if r.Deferred? {
        ClosedOnceOpen(before, store.run, store.db, from, l, ids);
      }
    }

    /** Case 3: try_add_open, and merging into the conflict of whoever was faster. */
    method OpenNewConflict(e: nat, f: FieldName, ids: set<nat>, ghost from: nat) returns (r: Outcome)
      requires store.Valid() && LinksFit(store.db.claims, e, f, ids) && from < |store.run.states|
      modifies store
      ensures store.Valid() && Reconciled(old(store.run), store.run)
      ensures !r.Raised() ==> DetectedHandled(store.run, from, e, f, ids)
      ensures RaisedAfter(store.run, from, r)
      ensures store.exclusive && !HasOpen(old(store.db.conflicts), e, f) ==>
                !r.Raised()
                && store.db == old(store.db).(conflicts := old(store.db.conflicts) + [FreshConflict(e, f, ids)])
    {
      hide Legal, DetectedHandled, RaisedAfter;
      store.LetOthersAct();
      LinksFitGrown(old(store.db), store.db, e, f, ids);
      if !HasOpen(store.db.conflicts, e, f) {
        ghost var before := store.run;
        r := InsertOpen(e, f, ids, from);
        ReconciledThen(old(store.run), before, store.run);
        return;
      }
      ghost var before := store.run;
      r := MergeIntoFaster(e, f, ids, from);
      ReconciledThen(old(store.run), before, store.run);
    }

    /** The insert found none. */
    method InsertOpen(e: nat, f: FieldName, ids: set<nat>, ghost from: nat) returns (r: Outcome)
      requires store.Valid() && LinksFit(store.db.claims, e, f, ids) && from < |store.run.states|
      requires !HasOpen(store.db.conflicts, e, f)
      modifies store
      ensures store.Valid() && Reconciled(old(store.run), store.run) && r == NothingToDo
      ensures DetectedHandled(store.run, from, e, f, ids)
      ensures RaisedAfter(store.run, from, r)
      ensures store.db == old(store.db).(conflicts := old(store.db.conflicts) + [FreshConflict(e, f, ids)])
    {
      store.Act(|store.run.states| - 1, OpenConflict(e, f, ids));
      LinkedNow(store.run, store.db, from, |store.db.conflicts| - 1, e, f, ids);
      r := NothingToDo;
    }

    /** The insert found an open conflict of the field. */
    method MergeIntoFaster(e: nat, f: FieldName, ids: set<nat>, ghost from: nat) returns (r: Outcome)
      requires store.Valid() && LinksFit(store.db.claims, e, f, ids) && from < |store.run.states|
      requires HasOpen(store.db.conflicts, e, f)
      modifies store
      ensures store.Valid() && Reconciled(old(store.run), store.run)
      ensures !r.Raised() ==> DetectedHandled(store.run, from, e, f, ids)
      ensures RaisedAfter(store.run, from, r)
    {
      ghost var seen, was := store.run, store.db;
      store.LetOthersAct();
      LinksFitGrown(was, store.db, e, f, ids);
      var reloaded := FindOpen(store.db.conflicts, e, f);
      if reloaded.None? {
        FasterWasClosed(seen, store.run, was, store.db, from, e, f, ids);
        return NothingToDo;
      }
      var l := store.Load(reloaded.value);
      r := MergeDetected(l, ids, from);
    }
  }

  // ---------- Outcomes of the stages ----------

  lemma NoReasonToClose(start: Run, run: Run, db: Db, e: nat, f: FieldName)
    requires Extends(start, run) && |run.states| > 0 && db == run.states[|run.states| - 1]
    requires var ids := ActiveIds(db.claims, e, f); ids == [] || |UniqueValues(db.claims, ids)| > 1
    ensures QuietSince(start, run, e, f)
  {
    CountingValuesTestsAgreement(db.claims, e, f);
    QuietNow(start, run, db, e, f);
  }

  /** A stage raises only when others changed one conflict as often as the loops try, or when the conflict
      to reopen is not the field's only one. */
  ghost predicate RaisedAfter(run: Run, from: nat, r: Outcome) {
    (r.RetriesExhausted? ==> exists k: nat, id: nat :: k >= from && BumpedAt(run, k, id, MAX_VERSION_RETRY))
    && (r.ClashAborted? ==> |run.states| > 0 && Clashing(run.states[|run.states| - 1].conflicts))
  }

  ghost predicate Clashing(conflicts: seq<Conflict>) {
    exists id: nat :: id < |conflicts| && OtherOpen(conflicts, id)
  }

  ghost predicate RaisedSince(start: Run, now: Run, r: Outcome) {
    exists from: nat :: from + 1 >= |start.states| && RaisedAfter(now, from, r)
  }

  lemma RaisedFrom(start: Run, now: Run, from: nat, r: Outcome)
    requires from + 1 >= |start.states| && (r.Raised() ==> RaisedAfter(now, from, r))
    ensures RaisedSince(start, now, r)
  {
    assert RaisedAfter(now, from, r);
  }

  lemma RaisedLater(first: Run, start: Run, now: Run, r: Outcome)
    requires RaisedSince(start, now, r) && Extends(first, start)
    ensures RaisedSince(first, now, r)
  {
    var from: nat :| from + 1 >= |start.states| && RaisedAfter(now, from, r);
    RaisedFrom(first, now, from, r);
  }

  lemma ExhaustedSince(start: Run, now: Run, id: nat, r: Outcome)
    requires !r.ClashAborted? && (r.RetriesExhausted? ==> BumpedSince(start, now, id, MAX_VERSION_RETRY))
    ensures RaisedSince(start, now, r)
  {
    if r.RetriesExhausted? {
      var k: nat :| k + 1 >= |start.states| && BumpedAt(now, k, id, MAX_VERSION_RETRY);
      RaisedFrom(start, now, k, r);
    } else {
      RaisedFrom(start, now, |start.states|, r);
    }
  }

  lemma RaisedOnRow(run: Run, db: Db, from: nat, l: Loaded, r: Outcome)
    requires WasRead(run, l) && from <= l.readAt && db == run.states[|run.states| - 1] && l.id < |db.conflicts|
    requires r.RetriesExhausted? ==> db.conflicts[l.id].version >= l.row.version + MAX_VERSION_RETRY
    requires r.ClashAborted? ==> OtherOpen(db.conflicts, l.id)
    ensures RaisedAfter(run, from, r)
  {
    if r.RetriesExhausted? {
      assert BumpedAt(run, l.readAt, l.id, MAX_VERSION_RETRY);
    }
  }

  ghost predicate PendingRaised(run: Run, p: Pending, r: Outcome) {
    (r.RetriesExhausted? ==> VersionPast(run, p.loaded.id, p.loaded.row.version + MAX_VERSION_RETRY))
    && (r.ClashAborted? ==>
          |run.states| > 0
          && var conflicts := run.states[|run.states| - 1].conflicts;
             p.loaded.id < |conflicts|
             && OtherOpen(conflicts, p.loaded.id))
  }

  /** A pending conflict was put right, or others changed it as often as the loop tries. */
  ghost predicate WinnerHandled(start: Run, now: Run, p: Pending) {
    WinnerRightSince(start, now, p.loaded.id, p.loaded.row.event, p.loaded.row.field)
    || VersionPast(now, p.loaded.id, p.loaded.row.version + MAX_VERSION_RETRY)
  }

  ghost predicate VersionPast(run: Run, id: nat, version: nat) {
    |run.states| > 0
    && var last := run.states[|run.states| - 1]; id < |last.conflicts| && last.conflicts[id].version >= version
  }

  ghost predicate AllHandled(start: Run, now: Run, pending: seq<Pending>, n: nat)
    requires n <= |pending|
  {
    forall k | 0 <= k < n :: WinnerHandled(start, now, pending[k])
  }

  lemma VersionStaysPast(before: Run, now: Run, id: nat, version: nat)
    requires Legal(before) && Legal(now) && Extends(before, now) && VersionPast(before, id, version)
    ensures VersionPast(now, id, version)
  {
    LegalExtensionGrew(before, now);
    assert RowGrew(before.states[|before.states| - 1].conflicts[id], now.states[|now.states| - 1].conflicts[id]);
  }

  lemma StillWinnerHandled(first: Run, start: Run, before: Run, now: Run, p: Pending)
    requires Legal(before) && Legal(now) && Extends(before, now) && |first.states| <= |start.states|
    requires WinnerHandled(start, before, p)
    ensures WinnerHandled(first, now, p)
  {
    if WinnerRightSince(start, before, p.loaded.id, p.loaded.row.event, p.loaded.row.field) {
      StillWinnerRight(first, start, before, now, p.loaded.id, p.loaded.row.event, p.loaded.row.field);
    } else {
      VersionStaysPast(before, now, p.loaded.id, p.loaded.row.version + MAX_VERSION_RETRY);
    }
  }

  lemma OneMoreHandled(start: Run, before: Run, now: Run, pending: seq<Pending>, i: nat)
    requires Legal(before) && Legal(now) && Extends(start, before) && Extends(before, now)
    requires i < |pending| && AllHandled(start, before, pending, i) && WinnerHandled(before, now, pending[i])
    ensures AllHandled(start, now, pending, i + 1)
  {
    forall k | 0 <= k < i + 1 ensures WinnerHandled(start, now, pending[k]) {
      if k < i {
        StillWinnerHandled(start, start, before, now, pending[k]);
      } else {
        StillWinnerHandled(start, before, now, now, pending[k]);
      }
    }
  }

  /** The row was open since, and is resolved now. */
  lemma ClosedOnceOpen(start: Run, run: Run, db: Db, from: nat, l: Loaded, ids: set<nat>)
    requires Legal(run) && WasRead(run, l) && from <= l.readAt < |start.states| && db == run.states[|run.states| - 1]
    requires OpenSince(start, run, l.id) && l.id < |db.conflicts| && db.conflicts[l.id].status == Resolved
    ensures DetectedHandled(run, from, l.row.event, l.row.field, ids)
  {
    var k: nat :| k + 1 >= |start.states| && OpenAt(run, k, l.id);
    RowIsStillThere(run, l.readAt, k, l.id, l.row.event, l.row.field);
    ClosedNow(run, db, from, k, l.id, l.row.event, l.row.field, ids);
  }

  lemma FasterWasClosed(seen: Run, run: Run, was: Db, db: Db, from: nat, e: nat, f: FieldName, ids: set<nat>)
    requires Legal(run) && Extends(seen, run) && from < |seen.states|
    requires was == seen.states[|seen.states| - 1] && db == run.states[|run.states| - 1]
    requires HasOpen(was.conflicts, e, f) && !HasOpen(db.conflicts, e, f)
    ensures DetectedHandled(run, from, e, f, ids)
  {
    var id: nat :| id < |was.conflicts| && was.conflicts[id].IsOpenOn(e, f);
    assert run.states[|seen.states| - 1] == was;
    RowIsStillThere(run, |seen.states| - 1, |run.states| - 1, id, e, f);
    ClosedNow(run, db, from, |seen.states| - 1, id, e, f, ids);
  }

  /** The first n detected fields are handled. */
  ghost predicate HandledUpTo(run: Run, from: nat, claims: seq<Claim>, e: nat, detected: seq<FieldName>, n: nat)
    requires n <= |detected|
  {
    forall i | 0 <= i < n :: DetectedHandled(run, from, e, detected[i], ActiveSet(claims, e, detected[i]))
  }

  lemma OneMoreDetectedHandled(before: Run, now: Run, from: nat, claims: seq<Claim>, e: nat, detected: seq<FieldName>,
                               i: nat)
    requires i < |detected| && Extends(before, now) && HandledUpTo(before, from, claims, e, detected, i)
    requires DetectedHandled(now, from, e, detected[i], ActiveSet(claims, e, detected[i]))
    ensures HandledUpTo(now, from, claims, e, detected, i + 1)
  {
    forall k | 0 <= k < i ensures DetectedHandled(now, from, e, detected[k], ActiveSet(claims, e, detected[k])) {
      StillHandled(before, now, from, e, detected[k], ActiveSet(claims, e, detected[k]));
    }
  }

  ghost predicate HandledFrom(run: Run, from: nat, e: nat) {
    from < |run.states|
    && var claims := run.states[from].claims;
       forall f | f in DetectedFields(claims, e) :: DetectedHandled(run, from, e, f, ActiveSet(claims, e, f))
  }

  /** At some moment since `start` the claims were read; from then on every field detected in them was
      handled. */
  ghost predicate DetectionHandled(start: Run, now: Run, e: nat) {
    exists from: nat :: from + 1 >= |start.states| && HandledFrom(now, from, e)
  }

  lemma RunHasStates(run: Run)
    requires Legal(run)
    ensures |run.states| == |run.steps| + 1
  {
  }

  lemma NothingDetected(start: Run, run: Run, claims: seq<Claim>, e: nat)
    requires Extends(start, run) && Legal(run) && claims == run.states[|run.states| - 1].claims
    requires DetectedFields(claims, e) == []
    ensures DetectionHandled(start, run, e)
    ensures forall conflicts :: DetectFields(claims, conflicts, e, []) == conflicts
  {
    assert HandledFrom(run, |run.states| - 1, e);
  }

  lemma AllDetectedHandled(start: Run, read: Run, now: Run, claims: seq<Claim>, e: nat, detected: seq<FieldName>)
    requires Extends(start, read) && Extends(read, now) && Legal(read)
             && claims == read.states[|read.states| - 1].claims
    requires detected == DetectedFields(claims, e)
             && HandledUpTo(now, |read.states| - 1, claims, e, detected, |detected|)
    ensures DetectionHandled(start, now, e)
  {
    assert now.states[|read.states| - 1] == read.states[|read.states| - 1];
    assert HandledFrom(now, |read.states| - 1, e);
  }

  // ---------- Loop invariants of the stages ----------

  /** Without interference: the first i detected fields applied to the tables read before the loop. */
  ghost predicate DetectedSoFar(before: Db, now: Db, claims: seq<Claim>, e: nat, detected: seq<FieldName>, i: nat)
    requires i <= |detected|
  {
    now == before.(conflicts := DetectFields(claims, before.conflicts, e, detected[..i]))
  }

  lemma DetectedSoFarMeans(before: Db, now: Db, claims: seq<Claim>, e: nat, detected: seq<FieldName>, i: nat)
    requires i <= |detected| && DetectedSoFar(before, now, claims, e, detected, i)
    ensures now.claims == before.claims && now.conflicts == DetectFields(claims, before.conflicts, e, detected[..i])
  {
  }

  lemma DetectedOneMore(before: Db, was: Db, now: Db, claims: seq<Claim>, e: nat, detected: seq<FieldName>, i: nat)
    requires i < |detected| && DetectedSoFar(before, was, claims, e, detected, i)
    requires now == was.(conflicts := DetectField(claims, was.conflicts, e, detected[i]))
    ensures DetectedSoFar(before, now, claims, e, detected, i + 1)
  {
    assert detected[..i + 1][..i] == detected[..i];
  }

  ghost predicate AllCurrent(db: Db, pending: seq<Pending>) {
    (forall k | 0 <= k < |pending| :: Current(db, pending[k].loaded))
    && forall j, k | 0 <= j < k < |pending| :: pending[j].loaded.id != pending[k].loaded.id
  }

  /** The maps built once before the loop still answer for a field the loop has not reached. */
  lemma SameLookups(claims: seq<Claim>, existing: seq<Conflict>, now: seq<Conflict>, e: nat, f: FieldName,
                    fields: seq<FieldName>)
    requires OnlyFieldsChanged(existing, now, e, fields) && f !in fields
    ensures FindOpen(now, e, f) == FindOpen(existing, e, f)
    ensures Contradicted(claims, claims, now, e, f) == Contradicted(claims, claims, existing, e, f)
    ensures FindOpen(now, e, f).Some? ==> now[FindOpen(now, e, f).value] == existing[FindOpen(now, e, f).value]
    ensures LatestResolved(now, e, f).Some? ==>
              now[LatestResolved(now, e, f).value] == existing[LatestResolved(now, e, f).value]
  {
    FindOpenFrame(existing, now, e, f, fields);
    LatestResolvedFrame(existing, now, e, f, fields);
  }

  ghost predicate ClaimsGrew(before: seq<Claim>, after: seq<Claim>) {
    |before| <= |after| && forall i | 0 <= i < |before| :: after[i].SameAssertion(before[i])
  }

  lemma ClaimsStillGrew(claims: seq<Claim>, before: Run, after: Run)
    requires Legal(before) && Legal(after) && Extends(before, after)
    requires ClaimsGrew(claims, before.states[|before.states| - 1].claims)
    ensures ClaimsGrew(claims, after.states[|after.states| - 1].claims)
  {
    LegalExtensionGrew(before, after);
    var middle, now := before.states[|before.states| - 1].claims, after.states[|after.states| - 1].claims;
    forall i | 0 <= i < |claims| ensures now[i].SameAssertion(claims[i]) {
      assert now[i].SameAssertion(middle[i]) && middle[i].SameAssertion(claims[i]);
    }
  }

  /** After i of the pending rows: those are fixed, all others as before. */
  ghost predicate FixedSoFar(before: Db, after: Db, pending: seq<Pending>, i: nat)
    requires i <= |pending|
  {
    after == before.(conflicts := after.conflicts)
    && |after.conflicts| == |before.conflicts|
    && (forall k | 0 <= k < i :: pending[k].loaded.id < |before.conflicts|
          && after.conflicts[pending[k].loaded.id]
             == FixedWinner(before.claims, before.conflicts[pending[k].loaded.id], pending[k].replacement))
    && (forall id | 0 <= id < |before.conflicts| && (forall k | 0 <= k < i :: pending[k].loaded.id != id) ::
          after.conflicts[id] == before.conflicts[id])
  }

  lemma FixedSoFarIsCalm(before: Db, after: Db, pending: seq<Pending>, i: nat)
    requires i < |pending| && FixedSoFar(before, after, pending, i)
    requires OneRowPerField(before.conflicts)
    requires AllCurrent(before, pending)
    ensures Current(after, pending[i].loaded) && !OtherOpen(after.conflicts, pending[i].loaded.id)
  {
    var id := pending[i].loaded.id;
    forall k | 0 <= k < |after.conflicts|
      ensures after.conflicts[k].IsOn(before.conflicts[k].event, before.conflicts[k].field)
    {
      if j: int :| 0 <= j < i && pending[j].loaded.id == k {
      } else {
        assert after.conflicts[k] == before.conflicts[k];
      }
    }
  }

  lemma FixedOneMore(before: Db, was: Db, after: Db, pending: seq<Pending>, i: nat)
    requires i < |pending| && FixedSoFar(before, was, pending, i) && AllCurrent(before, pending)
    requires var p := pending[i];
             after == was.(conflicts := was.conflicts[p.loaded.id := FixedWinner(was.claims, p.loaded.row, p.replacement)])
    ensures FixedSoFar(before, after, pending, i + 1)
  {
    assert Current(before, pending[i].loaded);
    forall id | 0 <= id < |before.conflicts| && (forall k | 0 <= k < i + 1 :: pending[k].loaded.id != id)
      ensures after.conflicts[id] == before.conflicts[id]
    {
      assert pending[i].loaded.id != id;
    }
  }

  lemma FixedIsFixWinners(before: Db, after: Db, pending: seq<Pending>)
    requires FixedSoFar(before, after, pending, |pending|) && AllCurrent(before, pending)
    ensures after == FixWinners(before, pending)
  {
    var fixed := FixWinners(before, pending);
    forall id | 0 <= id < |before.conflicts| ensures after.conflicts[id] == fixed.conflicts[id] {
      var r := ReplacementFor(pending, id);
      if r.Some? {
        var j :| 0 <= j < |pending| && pending[j].loaded.id == id && pending[j].replacement == r.value;
      }
    }
  }

  /** Closing one more field of the set is closing that field in the table the others left. */
  lemma CloseOneMore(db: Db, e: nat, fields: set<FieldName>, f: FieldName)
    requires f !in fields && OneOpenPerField(CloseStale(db, e, fields).conflicts)
    ensures var before := CloseStale(db, e, fields);
            CloseStale(db, e, fields + {f}) ==
            before.(conflicts := match FindOpen(before.conflicts, e, f)
                                 case None => before.conflicts
                                 case Some(i) => before.conflicts[i := ClosedIfAgreed(before.claims, before.conflicts[i])])
  {
    var before, after := CloseStale(db, e, fields), CloseStale(db, e, fields + {f});
    var open := FindOpen(before.conflicts, e, f);
    forall i | 0 <= i < |db.conflicts|
      ensures after.conflicts[i] == if open == Some(i) then ClosedIfAgreed(before.claims, before.conflicts[i])
                                    else before.conflicts[i]
    {
      if db.conflicts[i].IsOn(e, f) {
        assert before.conflicts[i] == db.conflicts[i];
        if db.conflicts[i].status == Open {
          assert HasOpen(before.conflicts, e, f);
        }
      }
    }
  }
}
