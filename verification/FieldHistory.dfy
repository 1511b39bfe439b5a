/**
 What one serial step does to one conflict row and to the claims of its field: the row moves only
 forward, and a step that neither writes to the field nor decides the conflict leaves both alone.
 */
module FieldHistory {
  import opened Optional
  import opened Evidence
  import opened ClaimLedger
  import opened Reconciler
  import opened SerialRuns
  import opened EvidenceRuns
  import G = MergeGraph
  import M = EventMerges
  import W = ClaimWriting
  import C = Curation

  // ---------- The row ----------

  /** A later row of the same conflict: unchanged or of a higher version, with no link lost and every new
      link to an active claim. */
  ghost predicate RowMoved(claims: seq<Claim>, a: Conflict, b: Conflict) {
    b.IsOn(a.event, a.field) && a.links <= b.links && (b == a || b.version > a.version)
    && forall c | c in b.links && c !in a.links :: c < |claims| && claims[c].IsActive()
  }

  lemma RowMovedTwice(claims: seq<Claim>, a: Conflict, b: Conflict, c: Conflict)
    requires RowMoved(claims, a, b) && RowMoved(claims, b, c)
    ensures RowMoved(claims, a, c)
  {
  }

  lemma FixMovesRow(before: seq<Claim>, claims: seq<Claim>, ing: W.Ingestion, row: Conflict)
    ensures RowMoved(claims, row, FixLostRow(before, claims, ing, row))
  {
    var ids := ActiveIds(claims, row.event, row.field);
    assert ids != [] ==> ids[0] in ids;
  }

  lemma CloseMovesRow(claims: seq<Claim>, row: Conflict)
    ensures RowMoved(claims, row, ClosedIfAgreed(claims, row))
  {
    var ids := ActiveIds(claims, row.event, row.field);
    assert ids != [] ==> ids[0] in ids;
  }

  /** Detection leaves a row as it is or leaves it open. */
  lemma {:induction false} DetectMovesRow(claims: seq<Claim>, conflicts: seq<Conflict>, e: nat, fields: seq<FieldName>,
                                          i: nat)
    requires i < |conflicts|
    ensures var after := DetectFields(claims, conflicts, e, fields);
            i < |after| && RowMoved(claims, conflicts[i], after[i]) && (after[i] == conflicts[i] || after[i].status == Open)
  {
    if fields == [] {
    } else {
      var n := |fields| - 1;
      DetectMovesRow(claims, conflicts, e, fields[..n], i);
      var before := DetectFields(claims, conflicts, e, fields[..n]);
      DetectOneMovesRow(claims, before, e, fields[n], i);
      RowMovedTwice(claims, conflicts[i], before[i], DetectField(claims, before, e, fields[n])[i]);
    }
  }

  lemma DetectOneMovesRow(claims: seq<Claim>, conflicts: seq<Conflict>, e: nat, f: FieldName, i: nat)
    requires i < |conflicts|
    ensures var after := DetectField(claims, conflicts, e, f);
            i < |after| && RowMoved(claims, conflicts[i], after[i]) && (after[i] == conflicts[i] || after[i].status == Open)
  {
  }

  /** One row through the stages after the write. */
  ghost predicate RowStages(db: Db, ing: W.Ingestion, i: nat, fixed: Conflict, closed: Conflict)
    requires W.Accepted(ing) && i < |db.conflicts|
  {
    var claims := Ingest(db, ing).claims;
    fixed == FixLostRow(db.claims, claims, ing, db.conflicts[i])
    && closed == (if fixed.event == ing.event && fixed.field in W.AffectedFields(db.claims, ing)
                  then ClosedIfAgreed(claims, fixed) else fixed)
    && RowMoved(claims, db.conflicts[i], closed)
    && i < |Ingest(db, ing).conflicts|
    && var now := Ingest(db, ing).conflicts[i];
       RowMoved(claims, closed, now)
       && (now == closed
           || (now.status == Open && closed.event == ing.event && closed.field in DetectedFields(claims, ing.event)))
  }

  lemma IngestStages(db: Db, ing: W.Ingestion, i: nat) returns (fixed: Conflict, closed: Conflict)
    requires W.Accepted(ing) && i < |db.conflicts|
    ensures RowStages(db, ing, i, fixed, closed)
  {
    W.WriteItemsClaimByClaim(db, ing, ing.items);
    var written := W.Write(db, ing);
    var all := FixLost(written, db.claims, ing);
    var left := CloseStale(all, ing.event, W.AffectedFields(db.claims, ing));
    fixed, closed := all.conflicts[i], left.conflicts[i];
    DetectMovesRow(left.claims, left.conflicts, ing.event, DetectedFields(left.claims, ing.event), i);
    DetectFieldsFrame(left.claims, left.conflicts, ing.event, DetectedFields(left.claims, ing.event));
    FixMovesRow(db.claims, written.claims, ing, db.conflicts[i]);
    CloseMovesRow(written.claims, fixed);
    RowMovedTwice(written.claims, db.conflicts[i], fixed, closed);
  }

  /** No ingestion drops a link, and the only links it adds are to active claims. */
  lemma IngestMovesRow(db: Db, ing: W.Ingestion, i: nat)
    requires W.Accepted(ing) && i < |db.conflicts|
    ensures i < |Ingest(db, ing).conflicts|
    ensures RowMoved(Ingest(db, ing).claims, db.conflicts[i], Ingest(db, ing).conflicts[i])
  {
    var claims := Ingest(db, ing).claims;
    var fixed, closed := IngestStages(db, ing, i);
    RowMovedTwice(claims, db.conflicts[i], closed, Ingest(db, ing).conflicts[i]);
  }

  lemma MergeMovesRow(db: Db, source: nat, target: nat, i: nat)
    requires M.Merge(db, source, target).Committed? && i < |db.conflicts|
    ensures var after := M.Merge(db, source, target).db;
            i < |after.conflicts| && RowMoved(after.claims, db.conflicts[i], after.conflicts[i])
            && (after.conflicts[i] == db.conflicts[i]
                || (after.conflicts[i].status == Open && db.conflicts[i].event == target
                    && db.conflicts[i].field in DetectedFields(after.claims, target)))
  {
    M.MergeCommitsIff(db, source, target);
    var pointed := M.Pointed(db, source, target);
    var moved := M.Transfer(pointed, source, target);
    M.TransferLeavesRest(pointed, source, target);
    DetectMovesRow(moved.claims, moved.conflicts, target, DetectedFields(moved.claims, target), i);
    DetectFieldsFrame(moved.claims, moved.conflicts, target, DetectedFields(moved.claims, target));
  }

  // ---------- The claims of the field ----------

  /** A later table, as far as one field goes: a claim of the field is unchanged, or was active and has been
      superseded by a newer claim; a newer claim is active or superseded by a newer one. */
  ghost predicate FieldMoved(a: seq<Claim>, b: seq<Claim>, e: nat, f: FieldName) {
    |a| <= |b| && (forall c | 0 <= c < |a| :: b[c].SameAssertion(a[c]))
    && (forall c | 0 <= c < |a| && a[c].IsOn(e, f) :: b[c] == a[c] || (a[c].IsActive() && LostToNewer(b[c], |a|)))
    && (forall c | |a| <= c < |b| && b[c].IsOn(e, f) :: b[c].IsActive() || LostToNewer(b[c], |a|))
  }

  predicate LostToNewer(c: Claim, n: nat) {
    !c.IsActive() && c.supersededBy.Some? && c.supersededBy.value >= n
  }

  lemma FieldMovedTwice(a: seq<Claim>, b: seq<Claim>, c: seq<Claim>, e: nat, f: FieldName)
    requires FieldMoved(a, b, e, f) && FieldMoved(b, c, e, f)
    ensures FieldMoved(a, c, e, f)
  {
    forall i | 0 <= i < |a| ensures c[i].SameAssertion(a[i]) {
      assert b[i].SameAssertion(a[i]) && c[i].SameAssertion(b[i]);
    }
    forall i | 0 <= i < |a| && a[i].IsOn(e, f) ensures c[i] == a[i] || (a[i].IsActive() && LostToNewer(c[i], |a|)) {
      assert b[i].SameAssertion(a[i]);
    }
    forall i | |a| <= i < |c| && c[i].IsOn(e, f) ensures c[i].IsActive() || LostToNewer(c[i], |a|) {
      if i < |b| {
        assert c[i].SameAssertion(b[i]);
      }
    }
  }

  lemma WritingMovesField(before: seq<Claim>, after: seq<Claim>, ing: W.Ingestion, e: nat, f: FieldName)
    requires Wrote(before, after, ing)
    ensures FieldMoved(before, after, e, f)
  {
    forall c: nat | c < |after|
      ensures c < |before| ==> after[c].SameAssertion(before[c])
                               && (after[c] == before[c] || (before[c].IsActive() && LostToNewer(after[c], |before|)))
      ensures c >= |before| ==> after[c].IsActive()
    {
      if c < |before| {
        assert after[c] == W.Rewritten(before[c], ing, ing.items, |before|);
      } else {
        NewClaimWritten(before, after, ing, c - |before|);
      }
    }
  }

  lemma TransferMovesField(before: seq<Claim>, after: seq<Claim>, source: nat, target: nat, e: nat, f: FieldName)
    requires M.TransferredClaimByClaim(before, after, source, target)
    ensures FieldMoved(before, after, e, f)
  {
    hide M.TransferredClaimByClaim;
    M.TransferGrows(before, after, source, target);
    forall c: nat | c < |after|
      ensures c < |before| ==> after[c].SameAssertion(before[c])
                               && (after[c] == before[c] || (before[c].IsActive() && LostToNewer(after[c], |before|)))
      ensures c >= |before| ==> after[c].IsActive()
    {
      M.TransferredClaim(before, after, source, target, c);
    }
  }

  // ---------- The field, undisturbed ----------

  /** The ingestion carries no claim for the field. */
  predicate Skips(ing: W.Ingestion, e: nat, f: FieldName) {
    ing.event != e || W.ItemFor(ing.items, f) == None
  }

  /** The field's claims are those of `before`, unchanged. */
  ghost predicate FieldKept(before: seq<Claim>, after: seq<Claim>, e: nat, f: FieldName) {
    |before| <= |after|
    && forall c | 0 <= c < |after| && after[c].IsOn(e, f) :: c < |before| && after[c] == before[c]
  }

  lemma SkippingKeepsClaim(g: G.Graph, before: seq<Claim>, after: seq<Claim>, ing: W.Ingestion, e: nat, f: FieldName,
                           c: nat)
    requires Wrote(before, after, ing) && ScopeOnEvent(g, before, ing) && !G.Absorbed(g, e) && Skips(ing, e, f)
    requires c < |after| && after[c].IsOn(e, f)
    ensures c < |before| && after[c] == before[c]
  {
    if c < |before| {
      OldClaimWritten(before, after, ing, c);
      if W.InScope(before[c], ing) {
        ScopedEvent(g, before, ing, c);
      }
    } else {
      NewClaimWritten(before, after, ing, c - |before|);
    }
  }

  lemma SkippingKeepsField(g: G.Graph, before: seq<Claim>, after: seq<Claim>, ing: W.Ingestion, e: nat, f: FieldName)
    requires Wrote(before, after, ing) && ScopeOnEvent(g, before, ing) && !G.Absorbed(g, e) && Skips(ing, e, f)
    ensures FieldKept(before, after, e, f)
  {
    forall c: nat | c < |after| && after[c].IsOn(e, f) ensures c < |before| && after[c] == before[c] {
      SkippingKeepsClaim(g, before, after, ing, e, f, c);
    }
  }

  lemma KeptFieldStillDisagrees(before: seq<Claim>, after: seq<Claim>, e: nat, f: FieldName)
    requires FieldKept(before, after, e, f) && Disagree(before, e, f)
    requires forall c | 0 <= c < |before| :: after[c].SameAssertion(before[c])
    ensures Disagree(after, e, f)
  {
    var i: nat, j: nat :| ActiveOn(before, i, e, f) && ActiveOn(before, j, e, f) && before[i].value != before[j].value;
    assert after[i].IsOn(e, f) && after[j].IsOn(e, f);
    assert ActiveOn(after, i, e, f) && ActiveOn(after, j, e, f);
  }

  /** The row is the one it was, or new evidence has opened it. */
  ghost predicate Undisturbed(claims: seq<Claim>, was: Conflict, row: Conflict) {
    row == was || (row.status == Open && row.IsOn(was.event, was.field) && Disagree(claims, was.event, was.field))
  }

  /** An ingestion that carries no claim for a resolved conflict's field can at most open it. */
  lemma SkippingLeavesRow(db: Db, ing: W.Ingestion, i: nat, was: Conflict)
    requires Serial(db) && W.Accepted(ing) && ScopeOnEvent(db.events, db.claims, ing)
             && !G.Absorbed(db.events, was.event)
    requires was.status == Resolved && Skips(ing, was.event, was.field)
    requires i < |db.conflicts| && Undisturbed(db.claims, was, db.conflicts[i])
    ensures i < |Ingest(db, ing).conflicts| && Undisturbed(Ingest(db, ing).claims, was, Ingest(db, ing).conflicts[i])
  {
    hide Serial;
    var claims, row := Ingest(db, ing).claims, db.conflicts[i];
    W.WriteItemsClaimByClaim(db, ing, ing.items);
    assert Wrote(db.claims, claims, ing);
    SkippingKeepsField(db.events, db.claims, claims, ing, was.event, was.field);
    SerialRowOf(db, i);
    if row.status == Open {
      forall c | 0 <= c < |db.claims| ensures claims[c].SameAssertion(db.claims[c]) {
        OldClaimWritten(db.claims, claims, ing, c);
      }
      KeptFieldStillDisagrees(db.claims, claims, was.event, was.field);
    }
    var fixed, closed := IngestStages(db, ing, i);
    FixSkips(db.events, db.claims, claims, ing, row);
    NotAffected(db.claims, ing, was.event, was.field);
    if was.field in DetectedFields(claims, ing.event) && was.event == ing.event {
      DetectionIsDispute(claims, was.event, was.field);
    }
  }

  lemma SerialRowOf(db: Db, i: nat)
    requires Serial(db) && i < |db.conflicts|
    ensures SerialRow(db.events, db.claims, db.conflicts[i])
  {
  }

  lemma FixSkips(g: G.Graph, before: seq<Claim>, claims: seq<Claim>, ing: W.Ingestion, row: Conflict)
    requires SerialRow(g, before, row) && ScopeOnEvent(g, before, ing) && !G.Absorbed(g, row.event)
    requires Skips(ing, row.event, row.field)
    ensures FixLostRow(before, claims, ing, row) == row
  {
    if row.status == Resolved && W.InScope(before[row.winner.value], ing) {
      assert before[row.winner.value].IsOn(row.event, row.field);
      ScopedEvent(g, before, ing, row.winner.value);
    }
  }

  lemma NotAffected(claims: seq<Claim>, ing: W.Ingestion, e: nat, f: FieldName)
    requires Skips(ing, e, f)
    ensures !(e == ing.event && f in W.AffectedFields(claims, ing))
  {
  }

  // ---------- What history restores ----------

  lemma RestoredAfterCreated(history: seq<HistoryRow>, n: nat, kind: ClaimType, c: nat)
    requires kind != Superseded
    ensures RestoredType(history + [HistoryRow(n, None, kind)], c) == RestoredType(history, c)
  {
    assert (history + [HistoryRow(n, None, kind)])[..|history|] == history;
  }

  lemma {:induction false} RestoredAfterReviveRows(base: seq<HistoryRow>, n: nat, history: seq<HistoryRow>,
                                                   ids: set<nat>, c: nat)
    ensures RestoredType(base + ReviveRows(n, history, ids), c) == RestoredType(base, c)
  {
    if n == 0 {
      assert base + ReviveRows(n, history, ids) == base;
    } else {
      var rest := base + ReviveRows(n - 1, history, ids);
      RestoredAfterReviveRows(base, n - 1, history, ids, c);
      if n - 1 in ids {
        var row := HistoryRow(n - 1, Some(Superseded), RestoredType(history, n - 1));
        assert base + ReviveRows(n, history, ids) == rest + [row];
        assert (rest + [row])[..|rest|] == rest;
      } else {
        assert base + ReviveRows(n, history, ids) == rest;
      }
    }
  }

  /** The type a claim has or, when it is superseded, would be restored to. */
  function HomeType(db: Db, c: nat): ClaimType
    requires c < |db.claims|
  {
    if db.claims[c].IsActive() then db.claims[c].kind else RestoredType(db.history, c)
  }

  ghost predicate HomesKept(a: Db, b: Db) {
    |a.claims| <= |b.claims| && forall c | 0 <= c < |a.claims| :: HomeType(b, c) == HomeType(a, c)
  }

  lemma HomesKeptTwice(a: Db, b: Db, c: Db)
    requires HomesKept(a, b) && HomesKept(b, c)
    ensures HomesKept(a, c)
  {
    hide HomeType;
    forall i | 0 <= i < |a.claims| ensures HomeType(c, i) == HomeType(a, i) {
      assert HomeType(b, i) == HomeType(a, i);
    }
  }

  lemma AddingKeepsHomes(db: Db, c: Claim)
    requires c.IsActive()
    ensures HomesKept(db, AddClaim(db, c))
  {
    forall i: nat | i < |db.claims| ensures HomeType(AddClaim(db, c), i) == HomeType(db, i) {
      RestoredAfterCreated(db.history, |db.claims|, c.kind, i);
    }
  }

  lemma SupersedingKeepsHomes(db: Db, ids: set<nat>, by_: nat)
    ensures HomesKept(db, Supersede(db, ids, by_))
  {
    forall i: nat | i < |db.claims| ensures HomeType(Supersede(db, ids, by_), i) == HomeType(db, i) {
      RestoredAfterRetireRows(db.history, db.claims, ids, i);
    }
  }

  lemma ReactivatingKeepsHomes(db: Db, ids: set<nat>)
    requires forall i | i in ids :: i < |db.claims| && !db.claims[i].IsActive()
    ensures HomesKept(db, Reactivate(db, ids))
  {
    forall i: nat | i < |db.claims| ensures HomeType(Reactivate(db, ids), i) == HomeType(db, i) {
      RestoredAfterReviveRows(db.history, |db.claims|, db.history, ids, i);
    }
  }

  lemma {:induction false} WritingKeepsHomes(claims: seq<Claim>, db: Db, ing: W.Ingestion, items: seq<W.Item>)
    requires W.AllHaveValues(items)
    ensures HomesKept(db, W.WriteItems(claims, db, ing, items))
  {
    if items == [] {
    } else {
      var n := |items| - 1;
      var was := W.WriteItems(claims, db, ing, items[..n]);
      WritingKeepsHomes(claims, db, ing, items[..n]);
      var added := AddClaim(was, W.NewClaim(ing, items[n]));
      AddingKeepsHomes(was, W.NewClaim(ing, items[n]));
      SupersedingKeepsHomes(added, W.Priors(claims, ing, items[n].field), |was.claims|);
      HomesKeptTwice(db, was, added);
      HomesKeptTwice(db, added, W.WriteItems(claims, db, ing, items));
    }
  }

  lemma {:induction false} CopyingKeepsHomes(claims: seq<Claim>, db: Db, ids: seq<nat>, target: nat)
    requires M.Known(claims, ids) && forall k | 0 <= k < |ids| :: claims[ids[k]].IsActive()
    ensures HomesKept(db, M.AddCopies(claims, db, ids, target))
  {
    if ids == [] {
    } else {
      var n := |ids| - 1;
      CopyingKeepsHomes(claims, db, ids[..n], target);
      AddingKeepsHomes(M.AddCopies(claims, db, ids[..n], target), M.Copy(claims[ids[n]], target));
      HomesKeptTwice(db, M.AddCopies(claims, db, ids[..n], target), M.AddCopies(claims, db, ids, target));
    }
  }

  lemma {:induction false} RetiringEachKeepsHomes(db: Db, ids: seq<nat>, first: nat)
    ensures HomesKept(db, M.RetireEach(db, ids, first))
  {
    if ids == [] {
    } else {
      var n := |ids| - 1;
      RetiringEachKeepsHomes(db, ids[..n], first);
      SupersedingKeepsHomes(M.RetireEach(db, ids[..n], first), {ids[n]}, first + n);
      HomesKeptTwice(db, M.RetireEach(db, ids[..n], first), M.RetireEach(db, ids, first));
    }
  }

  lemma TransferKeepsHomes(db: Db, source: nat, target: nat)
    ensures HomesKept(db, M.Transfer(db, source, target))
  {
    var ids := M.ActiveOf(db.claims, source);
    forall k | 0 <= k < |ids| ensures db.claims[ids[k]].IsActive() {
      assert ids[k] in ids;
    }
    CopyingKeepsHomes(db.claims, db, ids, target);
    var copied := M.AddCopies(db.claims, db, ids, target);
    RetiringEachKeepsHomes(copied, ids, |db.claims|);
    HomesKeptTwice(db, copied, M.Transfer(db, source, target));
  }

  lemma SameClaimsSameHomes(a: Db, b: Db, c: Db)
    requires HomesKept(a, b) && b.claims == c.claims && b.history == c.history
    ensures HomesKept(a, c)
  {
    forall i | 0 <= i < |a.claims| ensures HomeType(c, i) == HomeType(a, i) {
      assert HomeType(b, i) == HomeType(a, i);
    }
  }

  lemma IngestKeepsHomes(db: Db, ing: W.Ingestion)
    requires W.Accepted(ing)
    ensures HomesKept(db, Ingest(db, ing))
  {
    WritingKeepsHomes(db.claims, db, ing, ing.items);
    SameClaimsSameHomes(db, W.Write(db, ing), Ingest(db, ing));
  }

  lemma OverrideKeepsHomes(db: Db, id: nat, expected: nat, source: nat, value: int)
    requires C.Override(db, id, expected, source, value).Committed?
    ensures HomesKept(db, C.Override(db, id, expected, source, value).db)
  {
    var entered := C.OverrideClaim(db.conflicts[id], source, value);
    var added := AddClaim(db, entered);
    AddingKeepsHomes(db, entered);
    SupersedingKeepsHomes(added, db.conflicts[id].links, |db.claims|);
    HomesKeptTwice(db, added, Supersede(added, db.conflicts[id].links, |db.claims|));
    SameClaimsSameHomes(db, Supersede(added, db.conflicts[id].links, |db.claims|),
                        C.Override(db, id, expected, source, value).db);
  }

  lemma MergeKeepsHomes(db: Db, source: nat, target: nat)
    requires M.Merge(db, source, target).Committed?
    ensures HomesKept(db, M.Merge(db, source, target).db)
  {
    M.MergeCommitsIff(db, source, target);
    var pointed := M.Pointed(db, source, target);
    SameClaimsSameHomes(db, db, pointed);
    TransferKeepsHomes(pointed, source, target);
    HomesKeptTwice(db, pointed, M.Transfer(pointed, source, target));
    SameClaimsSameHomes(db, M.Transfer(pointed, source, target), M.Merge(db, source, target).db);
  }

  /** No step changes the type a claim has or would be restored to. */
  lemma TakeKeepsHomes(db: Db, step: Step)
    requires Serial(db)
    ensures HomesKept(db, Take(db, step))
  {
    hide HomeType, Serial, Ingest, M.Merge;
    SameClaimsSameHomes(db, db, db);
    if Succeeds(db, step) {
      match step {
        case Ingestion(ing, explicitEvent) =>
          var e := TargetEvent(db, ing, explicitEvent).value;
          SameClaimsSameHomes(db, db, Registered(db, e));
          IngestKeepsHomes(Registered(db, e), ing.(event := e));
          HomesKeptTwice(db, Registered(db, e), Take(db, step));
        case ResolveStep(id, expected, winner) =>
          SupersedingKeepsHomes(db, db.conflicts[id].links - {winner}, winner);
          SameClaimsSameHomes(db, Supersede(db, db.conflicts[id].links - {winner}, winner), Take(db, step));
        case OverrideStep(id, expected, source, value) => OverrideKeepsHomes(db, id, expected, source, value);
        case ReopenStep(id, expected) => ReopenKeepsHomes(db, id, expected);
        case MergeStep(source, target) => MergeKeepsHomes(db, source, target);
      }
    }
  }

  lemma ReopenKeepsHomes(db: Db, id: nat, expected: nat)
    requires Serial(db) && C.Reopen(db, id, expected).Committed?
    ensures HomesKept(db, C.Reopen(db, id, expected).db)
  {
    var losers := C.LosersOf(db.claims, db.conflicts[id]);
    ReactivatingKeepsHomes(db, losers);
    SameClaimsSameHomes(db, Reactivate(db, losers), C.Reopen(db, id, expected).db);
  }
}
