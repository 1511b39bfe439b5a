/**
 What the serial use cases keep of the invariant of the interleaving model: after every run, each claim's
 history replays to its type, and each conflict's log has one entry for each version.
 */
module SafeRuns {
  import opened Evidence
  import opened ClaimLedger
  import opened ConflictRows
  import opened Reconciler
  import opened SerialRuns
  import opened EvidenceRuns
  import C = Curation
  import I = Interleaving
  import M = EventMerges
  import W = ClaimWriting

  ghost predicate RowsOk(claims: seq<Claim>, conflicts: seq<Conflict>) {
    forall i | 0 <= i < |conflicts| :: RowOk(claims, conflicts[i])
  }

  ghost predicate Recorded(db: Db) {
    HistoryFaithful(db) && RowsOk(db.claims, db.conflicts)
  }

  // ---------- Claims ----------

  ghost predicate SameAssertions(was: seq<Claim>, now: seq<Claim>) {
    |was| <= |now| && forall c | 0 <= c < |was| :: now[c].SameAssertion(was[c])
  }

  lemma RowsStayOk(was: seq<Claim>, now: seq<Claim>, conflicts: seq<Conflict>)
    requires RowsOk(was, conflicts) && SameAssertions(was, now)
    ensures RowsOk(now, conflicts)
  {
    forall i | 0 <= i < |conflicts| ensures RowOk(now, conflicts[i]) {
      assert RowOk(was, conflicts[i]);
    }
  }

  lemma {:induction false} WritingKeepsHistory(claims: seq<Claim>, db: Db, ing: W.Ingestion, items: seq<W.Item>)
    requires HistoryFaithful(db) && W.AllHaveValues(items)
    ensures HistoryFaithful(W.WriteItems(claims, db, ing, items))
  {
    if items == [] {
    } else {
      var n := |items| - 1;
      WritingKeepsHistory(claims, db, ing, items[..n]);
      var was := W.WriteItems(claims, db, ing, items[..n]);
      var added := AddClaim(was, W.NewClaim(ing, items[n]));
      AddClaimKeepsHistory(was, W.NewClaim(ing, items[n]));
      SupersedeKeepsHistory(added, W.Priors(claims, ing, items[n].field), |was.claims|);
    }
  }

  lemma {:induction false} CopyingKeepsHistory(claims: seq<Claim>, db: Db, ids: seq<nat>, target: nat)
    requires HistoryFaithful(db) && M.Known(claims, ids)
    ensures HistoryFaithful(M.AddCopies(claims, db, ids, target))
  {
    if ids == [] {
    } else {
      var n := |ids| - 1;
      CopyingKeepsHistory(claims, db, ids[..n], target);
      AddClaimKeepsHistory(M.AddCopies(claims, db, ids[..n], target), M.Copy(claims[ids[n]], target));
    }
  }

  lemma {:induction false} RetiringKeepsHistory(db: Db, ids: seq<nat>, first: nat)
    requires HistoryFaithful(db)
    ensures HistoryFaithful(M.RetireEach(db, ids, first))
  {
    if ids == [] {
    } else {
      var n := |ids| - 1;
      RetiringKeepsHistory(db, ids[..n], first);
      SupersedeKeepsHistory(M.RetireEach(db, ids[..n], first), {ids[n]}, first + n);
    }
  }

  // ---------- Rows ----------

  lemma FixedWinnerIsOk(claims: seq<Claim>, row: Conflict, replacement: nat)
    requires RowOk(claims, row) && row.status == Resolved
    ensures RowOk(claims, FixedWinner(claims, row, replacement))
  {
    hide RowOk, UniqueValues, HasActive, Disagree;
    ActiveIdsMean(claims, row.event, row.field);
    var ids := ActiveIds(claims, row.event, row.field);
    if ids == [] {
    } else if |UniqueValues(claims, ids)| == 1 {
      PerformKeepsRow(claims, row, MoveWinner(if replacement in ids then replacement else ids[0]));
    } else {
      PerformKeepsRow(claims, row, ReopenForEvidence(ActiveSet(claims, row.event, row.field)));
    }
  }

  lemma ClosedIfAgreedIsOk(claims: seq<Claim>, row: Conflict)
    requires RowOk(claims, row)
    ensures RowOk(claims, ClosedIfAgreed(claims, row))
  {
    hide RowOk, UniqueValues, HasActive, Disagree;
    ActiveIdsMean(claims, row.event, row.field);
    var ids := ActiveIds(claims, row.event, row.field);
    if row.status == Open && ids != [] {
      PerformKeepsRow(claims, row, AutoClose(ids[0]));
    }
  }

  lemma DetectFieldIsOk(claims: seq<Claim>, conflicts: seq<Conflict>, e: nat, f: FieldName)
    requires RowsOk(claims, conflicts)
    ensures RowsOk(claims, DetectField(claims, conflicts, e, f))
  {
    hide RowOk;
    var ids := ActiveSet(claims, e, f);
    FreshConflictIsOk(claims, e, f, ids);
    var open, decided := FindOpen(conflicts, e, f), Contradicted(claims, claims, conflicts, e, f);
    if open.Some? {
      PerformKeepsRow(claims, conflicts[open.value], MergeEvidence(ids));
    } else if decided.Some? {
      PerformKeepsRow(claims, conflicts[decided.value], ReopenForEvidence(ids));
    }
  }

  lemma {:induction false} DetectFieldsIsOk(claims: seq<Claim>, conflicts: seq<Conflict>, e: nat, fields: seq<FieldName>)
    requires RowsOk(claims, conflicts)
    ensures RowsOk(claims, DetectFields(claims, conflicts, e, fields))
  {
    if fields == [] {
    } else {
      var n := |fields| - 1;
      DetectFieldsIsOk(claims, conflicts, e, fields[..n]);
      DetectFieldIsOk(claims, DetectFields(claims, conflicts, e, fields[..n]), e, fields[n]);
    }
  }

  lemma FixLostIsOk(db: Db, before: seq<Claim>, ing: W.Ingestion)
    requires RowsOk(db.claims, db.conflicts)
    ensures RowsOk(db.claims, FixLost(db, before, ing).conflicts)
    ensures FixLost(db, before, ing).claims == db.claims && FixLost(db, before, ing).history == db.history
  {
    hide RowOk, FixedWinner;
    forall i: nat | i < |db.conflicts| ensures RowOk(db.claims, FixLostRow(before, db.claims, ing, db.conflicts[i])) {
      if LostWinner(before, ing, db.conflicts[i]) {
        var item := W.ItemFor(ing.items, before[db.conflicts[i].winner.value].field);
        FixedWinnerIsOk(db.claims, db.conflicts[i], |before| + item.value);
      }
    }
  }

  lemma CloseStaleIsOk(db: Db, e: nat, fields: set<FieldName>)
    requires RowsOk(db.claims, db.conflicts)
    ensures RowsOk(db.claims, CloseStale(db, e, fields).conflicts)
    ensures CloseStale(db, e, fields).claims == db.claims && CloseStale(db, e, fields).history == db.history
  {
    hide RowOk, ClosedIfAgreed;
    forall i: nat | i < |db.conflicts| ensures RowOk(db.claims, ClosedIfAgreed(db.claims, db.conflicts[i])) {
      ClosedIfAgreedIsOk(db.claims, db.conflicts[i]);
    }
  }

  // ---------- Steps ----------

  lemma DetectionIsRecorded(db: Db, e: nat)
    requires Recorded(db)
    ensures Recorded(DetectConflicts(db, e))
  {
    hide Replay, RowOk, DetectFields;
    DetectFieldsIsOk(db.claims, db.conflicts, e, DetectedFields(db.claims, e));
  }

  lemma IngestIsRecorded(db: Db, ing: W.Ingestion)
    requires Recorded(db) && W.Accepted(ing)
    ensures Recorded(Ingest(db, ing))
  {
    hide RowOk, FixLost, CloseStale, DetectFields, Replay;
    var written := W.Write(db, ing);
    WritingKeepsHistory(db.claims, db, ing, ing.items);
    W.WriteItemsClaimByClaim(db, ing, ing.items);
    assert SameAssertions(db.claims, written.claims);
    RowsStayOk(db.claims, written.claims, db.conflicts);
    var fixed := FixLost(written, db.claims, ing);
    FixLostIsOk(written, db.claims, ing);
    var closed := CloseStale(fixed, ing.event, W.AffectedFields(db.claims, ing));
    CloseStaleIsOk(fixed, ing.event, W.AffectedFields(db.claims, ing));
    DetectionIsRecorded(closed, ing.event);
  }

  lemma RetiringIsRecorded(db: Db, ids: set<nat>, byId: nat)
    requires Recorded(db)
    ensures Recorded(Supersede(db, ids, byId))
  {
    hide HistoryFaithful, RowOk;
    SupersedeKeepsHistory(db, ids, byId);
    assert SameAssertions(db.claims, Supersede(db, ids, byId).claims);
    RowsStayOk(db.claims, Supersede(db, ids, byId).claims, db.conflicts);
  }

  lemma AddingIsRecorded(db: Db, c: Claim)
    requires Recorded(db)
    ensures Recorded(AddClaim(db, c))
  {
    hide HistoryFaithful, RowOk;
    AddClaimKeepsHistory(db, c);
    assert SameAssertions(db.claims, AddClaim(db, c).claims);
    RowsStayOk(db.claims, AddClaim(db, c).claims, db.conflicts);
  }

  lemma UpdatingIsRecorded(db: Db, id: nat, op: Op)
    requires Recorded(db) && id < |db.conflicts| && db.conflicts[id].status == SawStatus(op)
             && OpFits(db.claims, db.conflicts[id], op)
    ensures Recorded(db.(conflicts := db.conflicts[id := Perform(db.conflicts[id], op)]))
  {
    hide Replay, RowOk, Perform;
    PerformKeepsRow(db.claims, db.conflicts[id], op);
  }

  lemma ResolveIsRecorded(db: Db, id: nat, expected: nat, winner: nat)
    requires Recorded(db) && C.Resolve(db, id, expected, winner).Committed?
    ensures Recorded(C.Resolve(db, id, expected, winner).db)
  {
    hide Recorded, Supersede, Perform;
    UpdatingIsRecorded(db, id, CuratorResolve(winner));
    RetiringIsRecorded(db.(conflicts := db.conflicts[id := Perform(db.conflicts[id], CuratorResolve(winner))]),
                       db.conflicts[id].links - {winner}, winner);
  }

  lemma OverrideIsRecorded(db: Db, id: nat, expected: nat, source: nat, value: int)
    requires Recorded(db) && C.Override(db, id, expected, source, value).Committed?
    ensures Recorded(C.Override(db, id, expected, source, value).db)
  {
    hide Recorded, Supersede, Perform;
    var winner := |db.claims|;
    var added := AddClaim(db, C.OverrideClaim(db.conflicts[id], source, value));
    AddingIsRecorded(db, C.OverrideClaim(db.conflicts[id], source, value));
    UpdatingIsRecorded(added, id, CuratorOverride(winner));
    RetiringIsRecorded(added.(conflicts := db.conflicts[id := Perform(db.conflicts[id], CuratorOverride(winner))]),
                       db.conflicts[id].links, winner);
  }

  lemma ReopenIsRecorded(db: Db, id: nat, expected: nat)
    requires Recorded(db) && PointersMatchTypes(db.claims) && C.Reopen(db, id, expected).Committed?
    ensures Recorded(C.Reopen(db, id, expected).db)
  {
    hide HistoryFaithful, RowOk, Perform;
    var losers := C.LosersOf(db.claims, db.conflicts[id]);
    var revived := Reactivate(db, losers);
    ReactivateKeepsHistory(db, losers);
    assert SameAssertions(db.claims, revived.claims);
    RowsStayOk(db.claims, revived.claims, db.conflicts);
    UpdatingIsRecorded(revived, id, CuratorReopen);
  }

  lemma TransferIsRecorded(db: Db, source: nat, target: nat)
    requires Recorded(db)
    ensures Recorded(M.Transfer(db, source, target))
  {
    hide HistoryFaithful, RowOk;
    var ids := M.ActiveOf(db.claims, source);
    var after := M.Transfer(db, source, target);
    CopyingKeepsHistory(db.claims, db, ids, target);
    RetiringKeepsHistory(M.AddCopies(db.claims, db, ids, target), ids, |db.claims|);
    M.TransferLeavesRest(db, source, target);
    M.TransferClaimByClaim(db, source, target);
    forall c: nat | c < |db.claims| ensures after.claims[c].SameAssertion(db.claims[c]) {
      M.TransferredClaim(db.claims, after.claims, source, target, c);
    }
    RowsStayOk(db.claims, after.claims, db.conflicts);
  }

  lemma MergeIsRecorded(db: Db, source: nat, target: nat)
    requires Recorded(db) && M.Merge(db, source, target).Committed?
    ensures Recorded(M.Merge(db, source, target).db)
  {
    M.MergeCommitsIff(db, source, target);
    var pointed := M.Pointed(db, source, target);
    assert Recorded(pointed);
    hide Recorded, M.Merge, M.Transfer, M.Pointed;
    TransferIsRecorded(pointed, source, target);
    DetectionIsRecorded(M.Transfer(pointed, source, target), target);
  }

  lemma IngestionIsRecorded(db: Db, ing: W.Ingestion, explicitEvent: bool)
    requires Recorded(db) && Succeeds(db, Ingestion(ing, explicitEvent))
    ensures Recorded(Take(db, Ingestion(ing, explicitEvent)))
  {
    hide RowOk, Replay, Ingest;
    var e := TargetEvent(db, ing, explicitEvent).value;
    IngestIsRecorded(Registered(db, e), ing.(event := e));
  }

  lemma TakeIsRecorded(db: Db, step: Step)
    requires Recorded(db) && PointersMatchTypes(db.claims)
    ensures Recorded(Take(db, step))
  {
    if Succeeds(db, step) {
      hide Recorded, IngestInto, TargetEvent, C.Resolve, C.Override, C.Reopen, M.Merge;
      match step {
        case Ingestion(ing, explicitEvent) => IngestionIsRecorded(db, ing, explicitEvent);
        case ResolveStep(id, expected, winner) => ResolveIsRecorded(db, id, expected, winner);
        case OverrideStep(id, expected, source, value) => OverrideIsRecorded(db, id, expected, source, value);
        case ReopenStep(id, expected) => ReopenIsRecorded(db, id, expected);
        case MergeStep(source, target) => MergeIsRecorded(db, source, target);
      }
    }
  }

  lemma {:induction false} EveryRunIsRecorded(steps: seq<Step>)
    ensures Recorded(After(steps))
  {
    if steps == [] {
      I.EmptyIsSafe();
    } else {
      var before := steps[..|steps| - 1];
      EveryRunIsRecorded(before);
      EveryRunIsSerial(before);
      TakeIsRecorded(After(before), steps[|steps| - 1]);
    }
  }

  /** Every run of the use cases ends in a state that has all the interleaving model promises of a state: histories
      replay, logs are faithful, at most one open conflict stands per event and field, and no merge pointer dangles. */
  lemma EveryRunIsSafe(steps: seq<Step>)
    ensures I.Safe(After(steps))
  {
    EveryRunIsRecorded(steps);
    EveryRunIsSerial(steps);
    var db := After(steps);
    forall i: nat, j: nat | i < |db.conflicts| && j < |db.conflicts|
                            && db.conflicts[i].status == Open
                            && db.conflicts[j].IsOpenOn(db.conflicts[i].event, db.conflicts[i].field)
      ensures i == j
    {
      assert db.conflicts[j].IsOn(db.conflicts[i].event, db.conflicts[i].field);
    }
  }
}
