/**
 Any interleaving of the writers of the evidence tables. A writer decides on what it read
 at some earlier moment of the run and then acts, in one atomic step, on the tables as they
 are now; between the read and the step any number of other writers may have acted.
 */
module Interleaving {
  import opened Optional
  import opened Evidence
  import opened ClaimLedger
  import opened ConflictRows
  import G = MergeGraph

  datatype Action =
    | WriteClaim(claim: Claim)
    | RetireClaims(ids: set<nat>, successor: nat)
    | ReviveClaims(ids: set<nat>)
    | OpenConflict(event: nat, field: FieldName, ids: set<nat>)
    | UpdateConflict(id: nat, expected: nat, op: Op)
    | ChangeEvents(change: G.Change)

  datatype Actor = Self | Other

  /** `readAt` is the position in the run of the state the actor read. */
  datatype Step = Step(actor: Actor, readAt: nat, action: Action)

  datatype Run = Run(states: seq<Db>, steps: seq<Step>)

  const START := Run([EMPTY_DB], [])

  /** What the reading writer must have seen: the row it updates, at that version and with the
      status its update starts from. Foreign keys bind it to claims that exist now. */
  predicate Permitted(read: Db, now: Db, a: Action) {
    match a
    case WriteClaim(c) => c.IsActive() && c.supersededBy == None
    case RetireClaims(ids, successor) => successor < |now.claims|
    case ReviveClaims(ids) => forall i | i in ids :: i < |now.claims| && now.claims[i].kind == Superseded
    case OpenConflict(e, f, ids) => LinksFit(now.claims, e, f, ids)
    case UpdateConflict(id, expected, op) =>
      id < |read.conflicts|
      && read.conflicts[id].version == expected
      && read.conflicts[id].status == SawStatus(op)
      && LinksFit(now.claims, read.conflicts[id].event, read.conflicts[id].field, NewLinks(op))
      && (op.CuratorResolve? ==> op.winning in read.conflicts[id].links)
    case ChangeEvents(change) => true
  }

  /** A creation or merge of events whose own checks fail changes nothing. */
  function Apply(db: Db, a: Action): Db {
    match a
    case WriteClaim(c) => AddClaim(db, c)
    case RetireClaims(ids, successor) => Supersede(db, ids, successor)
    case ReviveClaims(ids) => Reactivate(db, ids)
    case OpenConflict(e, f, ids) => db.(conflicts := TryAddOpen(db.conflicts, e, f, ids))
    case UpdateConflict(id, expected, op) =>
      if id < |db.conflicts| then db.(conflicts := Attempt(db.conflicts, id, expected, op)) else db
    case ChangeEvents(change) => db.(events := G.Grow(db.events, change))
  }

  predicate Legal(run: Run) {
    |run.states| == |run.steps| + 1
    && run.states[0] == EMPTY_DB
    && forall k | 0 <= k < |run.steps| ::
         run.steps[k].readAt <= k
         && Permitted(run.states[run.steps[k].readAt], run.states[k], run.steps[k].action)
         && run.states[k + 1] == Apply(run.states[k], run.steps[k].action)
  }

  function Extend(run: Run, step: Step): Run
    requires |run.states| > 0
  {
    Run(run.states + [Apply(run.states[|run.states| - 1], step.action)], run.steps + [step])
  }

  lemma ExtendIsLegal(run: Run, step: Step)
    requires Legal(run)
    requires step.readAt < |run.states|
    requires Permitted(run.states[step.readAt], run.states[|run.states| - 1], step.action)
    ensures Legal(Extend(run, step))
  {
  }

  // ---------- Safety ----------

  ghost predicate Safe(db: Db) {
    HistoryFaithful(db)
    && PointersMatchTypes(db.claims)
    && OneOpenPerField(db.conflicts)
    && G.Forest(db.events)
    && forall i | 0 <= i < |db.conflicts| :: RowOk(db.claims, db.conflicts[i])
  }

  /** A later row of the same conflict: same field, no link lost, log only appended to. */
  ghost predicate RowGrew(a: Conflict, b: Conflict) {
    b.IsOn(a.event, a.field) && a.version <= b.version && a.links <= b.links && a.log <= b.log
  }

  ghost predicate Grew(a: Db, b: Db) {
    |a.claims| <= |b.claims| && |a.conflicts| <= |b.conflicts| && a.history <= b.history
    && (forall i | 0 <= i < |a.claims| :: b.claims[i].SameAssertion(a.claims[i]))
    && (forall i | 0 <= i < |a.conflicts| :: RowGrew(a.conflicts[i], b.conflicts[i]))
  }

  lemma GrewTransitive(a: Db, b: Db, c: Db)
    requires Grew(a, b) && Grew(b, c)
    ensures Grew(a, c)
  {
    forall i | 0 <= i < |a.conflicts| ensures RowGrew(a.conflicts[i], c.conflicts[i]) {
      assert RowGrew(a.conflicts[i], b.conflicts[i]) && RowGrew(b.conflicts[i], c.conflicts[i]);
    }
    forall i | 0 <= i < |a.claims| ensures c.claims[i].SameAssertion(a.claims[i]) {
      assert b.claims[i].SameAssertion(a.claims[i]) && c.claims[i].SameAssertion(b.claims[i]);
    }
  }

  /** The version check is a fence: if the version read is still current, so is the status read. */
  lemma VersionFencesStatus(read: Conflict, now: Conflict)
    requires LogFaithful(read) && LogFaithful(now) && RowGrew(read, now)
    ensures now.version == read.version ==> now.status == read.status && now.log == read.log
  {
    if now.version == read.version {
      assert now.log[..|read.log|] == read.log;
    }
  }

  lemma RowsStayOk(before: Db, after: Db)
    requires Grew(before, after)
    requires forall i | 0 <= i < |before.conflicts| :: RowOk(before.claims, before.conflicts[i])
    requires before.conflicts == after.conflicts
    ensures forall i | 0 <= i < |after.conflicts| :: RowOk(after.claims, after.conflicts[i])
  {
    forall i | 0 <= i < |after.conflicts| ensures RowOk(after.claims, after.conflicts[i]) {
      assert RowOk(before.claims, before.conflicts[i]);
      forall id | id in after.conflicts[i].links
        ensures id < |after.claims| && after.claims[id].IsOn(after.conflicts[i].event, after.conflicts[i].field)
      {
        assert after.claims[id].SameAssertion(before.claims[id]);
      }
    }
  }

  lemma ClaimStepIsSafe(read: Db, now: Db, a: Action)
    requires Safe(now) && Permitted(read, now, a)
    requires a.WriteClaim? || a.RetireClaims? || a.ReviveClaims?
    ensures Safe(Apply(now, a)) && Grew(now, Apply(now, a))
  {
    hide G.Forest, HistoryFaithful, OneOpenPerField, RowOk;
    var after := Apply(now, a);
    match a {
      case WriteClaim(c) => AddClaimKeepsHistory(now, c);
      case RetireClaims(ids, successor) => SupersedeKeepsHistory(now, ids, successor);
      case ReviveClaims(ids) => ReactivateKeepsHistory(now, ids);
    }
    assert Grew(now, after);
    RowsStayOk(now, after);
  }

  lemma OpenStepIsSafe(now: Db, e: nat, f: FieldName, ids: set<nat>)
    requires Safe(now) && LinksFit(now.claims, e, f, ids)
    ensures Safe(Apply(now, OpenConflict(e, f, ids))) && Grew(now, Apply(now, OpenConflict(e, f, ids)))
  {
    FreshConflictIsOk(now.claims, e, f, ids);
  }

  lemma WrittenRowKeepsTable(claims: seq<Claim>, conflicts: seq<Conflict>, id: nat, op: Op)
    requires id < |conflicts| && OneOpenPerField(conflicts)
    requires forall i | 0 <= i < |conflicts| :: RowOk(claims, conflicts[i])
    requires OpFits(claims, conflicts[id], op) && conflicts[id].status == SawStatus(op)
    requires Reopens(op) ==> !OtherOpen(conflicts, id)
    ensures var after := conflicts[id := Perform(conflicts[id], op)];
            OneOpenPerField(after)
            && (forall i | 0 <= i < |after| :: RowOk(claims, after[i]) && RowGrew(conflicts[i], after[i]))
  {
    PerformKeepsRow(claims, conflicts[id], op);
    var row := Perform(conflicts[id], op);
    var after := conflicts[id := row];
    assert row.status == Open ==> conflicts[id].status == Open || Reopens(op);
    forall i: nat, j: nat | i < |after| && j < |after|
           && after[i].status == Open && after[j].IsOpenOn(after[i].event, after[i].field)
      ensures i == j
    {
      assert conflicts[i].IsOn(after[i].event, after[i].field) && conflicts[j].IsOn(after[j].event, after[j].field);
    }
  }

  lemma UpdateStepIsSafe(read: Db, now: Db, id: nat, expected: nat, op: Op)
    requires Safe(read) && Safe(now) && Grew(read, now)
    requires Permitted(read, now, UpdateConflict(id, expected, op))
    ensures Safe(Apply(now, UpdateConflict(id, expected, op)))
    ensures Grew(now, Apply(now, UpdateConflict(id, expected, op)))
  {
    var row := now.conflicts[id];
    assert RowGrew(read.conflicts[id], row);
    assert RowOk(read.claims, read.conflicts[id]) && RowOk(now.claims, row);
    VersionFencesStatus(read.conflicts[id], row);
    if Check(now.conflicts, id, expected, op) == Written {
      WrittenRowKeepsTable(now.claims, now.conflicts, id, op);
    }
  }

  lemma StepIsSafe(read: Db, now: Db, a: Action)
    requires Safe(read) && Safe(now) && Grew(read, now) && Permitted(read, now, a)
    ensures Safe(Apply(now, a)) && Grew(now, Apply(now, a))
  {
    match a {
      case OpenConflict(e, f, ids) => OpenStepIsSafe(now, e, f, ids);
      case UpdateConflict(id, expected, op) => UpdateStepIsSafe(read, now, id, expected, op);
      case ChangeEvents(change) => G.GrowKeepsForest(now.events, change);
      case _ => ClaimStepIsSafe(read, now, a);
    }
  }

  lemma EmptyIsSafe()
    ensures Safe(EMPTY_DB)
  {
  }

  /** Every state of every run is safe, and every state has grown out of every earlier one. */
  lemma {:induction false} EveryStateIsSafe(run: Run, k: nat)
    requires Legal(run) && k < |run.states|
    ensures Safe(run.states[k])
    ensures forall j | 0 <= j <= k :: Grew(run.states[j], run.states[k])
  {
    if k == 0 {
      EmptyIsSafe();
    } else {
      var step := run.steps[k - 1];
      EveryStateIsSafe(run, k - 1);
      EveryStateIsSafe(run, step.readAt);
      StepIsSafe(run.states[step.readAt], run.states[k - 1], step.action);
      forall j | 0 <= j <= k ensures Grew(run.states[j], run.states[k]) {
        if j < k {
          GrewTransitive(run.states[j], run.states[k - 1], run.states[k]);
        }
      }
    }
  }

  /** The activity log is a faithful linearisation: whatever status a conflict showed at any
      moment of the run, the log of any later moment holds it at exactly that version. */
  lemma LogRecordsEveryStatusShown(run: Run, j: nat, k: nat, id: nat)
    requires Legal(run) && j <= k < |run.states| && id < |run.states[j].conflicts|
    ensures id < |run.states[k].conflicts|
    ensures var shown, log := run.states[j].conflicts[id], run.states[k].conflicts[id].log;
            1 <= shown.version <= |log| == run.states[k].conflicts[id].version
            && log[shown.version - 1].version == shown.version
            && log[shown.version - 1].sequence == shown.version
            && log[shown.version - 1].toStatus == shown.status
  {
    EveryStateIsSafe(run, j);
    EveryStateIsSafe(run, k);
    assert RowGrew(run.states[j].conflicts[id], run.states[k].conflicts[id]);
    assert RowOk(run.states[j].claims, run.states[j].conflicts[id]);
    assert RowOk(run.states[k].claims, run.states[k].conflicts[id]);
  }

  /** Fencing, step by step: links and log change only together with one version bump of one
      row or with the insert of one row; an attempt whose check fails changes nothing. */
  ghost predicate Fenced(before: Db, after: Db, a: Action) {
    match a
    case UpdateConflict(id, expected, op) =>
      after == before
      || (id < |before.conflicts| == |after.conflicts| && before.conflicts[id].version == expected
          && after == before.(conflicts := before.conflicts[id := after.conflicts[id]])
          && after.conflicts[id].version == expected + 1
          && after.conflicts[id].links == before.conflicts[id].links + NewLinks(op)
          && after.conflicts[id].log == before.conflicts[id].log
               + [LogEntry(expected + 1, Some(before.conflicts[id].status), after.conflicts[id].status, expected + 1)])
    case OpenConflict(e, f, ids) =>
      after == before
      || (!HasOpen(before.conflicts, e, f)
          && after == before.(conflicts := before.conflicts + [FreshConflict(e, f, ids)]))
    case _ => after.conflicts == before.conflicts
  }

  lemma EveryStepIsFenced(run: Run, k: nat)
    requires Legal(run) && k < |run.steps|
    ensures Fenced(run.states[k], run.states[k + 1], run.steps[k].action)
  {
    var step, now := run.steps[k], run.states[k];
    EveryStateIsSafe(run, k);
    EveryStateIsSafe(run, step.readAt);
    if step.action.UpdateConflict? {
      var id, expected, op := step.action.id, step.action.expected, step.action.op;
      var read := run.states[step.readAt];
      assert RowGrew(read.conflicts[id], now.conflicts[id]);
      assert RowOk(read.claims, read.conflicts[id]) && RowOk(now.claims, now.conflicts[id]);
      VersionFencesStatus(read.conflicts[id], now.conflicts[id]);
      if Check(now.conflicts, id, expected, op) == Written {
        PerformKeepsRow(now.claims, now.conflicts[id], op);
      }
    }
  }

  /** A check that fails because the row moved on, or because the field already has an open row,
      leaves every table as it was. */
  lemma FailedAttemptChangesNothing(run: Run, k: nat)
    requires Legal(run) && k < |run.steps| && run.steps[k].action.UpdateConflict?
    ensures var a := run.steps[k].action;
            a.id < |run.states[k].conflicts|
            && (run.states[k + 1] == run.states[k] <==> Check(run.states[k].conflicts, a.id, a.expected, a.op) != Written)
  {
    EveryStateIsSafe(run, k);
    var a := run.steps[k].action;
    assert Grew(run.states[run.steps[k].readAt], run.states[k]);
    var row := run.states[k].conflicts[a.id];
    assert Perform(row, a.op) != row;
  }
}
