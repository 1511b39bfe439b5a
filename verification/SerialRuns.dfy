/**
 Serial runs of the ingestion use case (write, fix superseded winners, close stale conflicts,
 detect) and of the curator's use cases, and what every run keeps: the conflict table agrees
 with the active claims.
 */
module SerialRuns {
  import opened Optional
  import opened Evidence
  import opened ClaimLedger
  import opened ConflictRows
  import opened Reconciler
  import G = MergeGraph
  import W = ClaimWriting

  // ---------- One ingestion as a function of the tables ----------

  /** A resolved conflict whose winner the write superseded. */
  predicate LostWinner(before: seq<Claim>, ing: W.Ingestion, row: Conflict) {
    row.status == Resolved && row.winner.Some? && row.winner.value in W.SupersededIds(before, ing)
  }

  function FixLostRow(before: seq<Claim>, after: seq<Claim>, ing: W.Ingestion, row: Conflict): Conflict {
    if LostWinner(before, ing, row) then
      var item := W.ItemFor(ing.items, before[row.winner.value].field);
      FixedWinner(after, row, |before| + item.value)
    else row
  }

  function FixLost(db: Db, before: seq<Claim>, ing: W.Ingestion): Db {
    db.(conflicts := seq(|db.conflicts|, i requires 0 <= i < |db.conflicts| =>
      FixLostRow(before, db.claims, ing, db.conflicts[i])))
  }

  /** Write, then the three reconciliation stages in their order. */
  function Ingest(db: Db, ing: W.Ingestion): Db
    requires W.Accepted(ing)
  {
    var written := W.Write(db, ing);
    var fixed := FixLost(written, db.claims, ing);
    var closed := CloseStale(fixed, ing.event, W.AffectedFields(db.claims, ing));
    DetectConflicts(closed, ing.event)
  }

  // ---------- What a serial run keeps ----------

  /** Links stay on the conflict's field; an open conflict has no winner, a resolved one a linked one, which
      is active unless the conflict's event has been absorbed by another. */
  ghost predicate SerialRow(g: G.Graph, claims: seq<Claim>, row: Conflict) {
    row.event in g && LinksFit(claims, row.event, row.field, row.links)
    && match row.status
       case Open => row.winner == None
       case Resolved => row.winner.Some? && row.winner.value in row.links && row.winner.value < |claims|
                        && (!G.Absorbed(g, row.event) ==> claims[row.winner.value].IsActive())
  }

  ghost predicate SerialRows(g: G.Graph, claims: seq<Claim>, conflicts: seq<Conflict>) {
    forall i | 0 <= i < |conflicts| :: SerialRow(g, claims, conflicts[i])
  }

  /** All claims of one source record are on events that lead to the same event. */
  ghost predicate RecordsTogether(g: G.Graph, claims: seq<Claim>) {
    forall i, j | 0 <= i < |claims| && 0 <= j < |claims| ::
      claims[i].source == claims[j].source && claims[i].record.Some? && claims[i].record == claims[j].record
      ==> G.Walk(g, claims[i].event, {}) == G.Walk(g, claims[j].event, {})
  }

  ghost predicate EventsKnown(g: G.Graph, claims: seq<Claim>) {
    forall i | 0 <= i < |claims| :: claims[i].event in g
  }

  ghost predicate Serial(db: Db) {
    PointersMatchTypes(db.claims) && G.Forest(db.events)
    && EventsKnown(db.events, db.claims) && RecordsTogether(db.events, db.claims)
    && OneRowPerField(db.conflicts) && SerialRows(db.events, db.claims, db.conflicts)
  }

  /** What a serial table asks of the claims alone. */
  ghost predicate ClaimsFit(g: G.Graph, claims: seq<Claim>) {
    PointersMatchTypes(claims) && EventsKnown(g, claims) && RecordsTogether(g, claims)
  }

  lemma SerialByParts(db: Db)
    ensures Serial(db) <==> ClaimsFit(db.events, db.claims) && G.Forest(db.events)
                            && OneRowPerField(db.conflicts) && SerialRows(db.events, db.claims, db.conflicts)
  {
  }

  /** Every open conflict, of an event that has not been absorbed, has two active claims that differ. */
  ghost predicate OpenRowsDisagree(db: Db) {
    forall i | 0 <= i < |db.conflicts| && db.conflicts[i].status == Open
           && !G.Absorbed(db.events, db.conflicts[i].event) ::
      Disagree(db.claims, db.conflicts[i].event, db.conflicts[i].field)
  }

  /** Every detected field of the event has an open conflict linking all its active claims. */
  ghost predicate Settled(db: Db, e: nat) {
    forall f | f in DetectedFields(db.claims, e) :: Covered(db.claims, db.conflicts, e, f)
  }

  ghost predicate Covered(claims: seq<Claim>, conflicts: seq<Conflict>, e: nat, f: FieldName) {
    exists i | 0 <= i < |conflicts| :: conflicts[i].IsOpenOn(e, f) && ActiveSet(claims, e, f) <= conflicts[i].links
  }

  /** The write is to an event that has not been absorbed, and everything it can supersede is there or on
      an event absorbed into it. */
  ghost predicate ScopeOnEvent(g: G.Graph, claims: seq<Claim>, ing: W.Ingestion) {
    G.Unmerged(g, ing.event)
    && forall id | 0 <= id < |claims|
       && W.InScope(claims[id], ing) :: G.Walk(g, claims[id].event, {}) == G.Root(ing.event)
  }

  lemma ScopedEvent(g: G.Graph, claims: seq<Claim>, ing: W.Ingestion, id: nat)
    requires ScopeOnEvent(g, claims, ing) && id < |claims| && W.InScope(claims[id], ing)
             && !G.Absorbed(g, claims[id].event)
    ensures claims[id].event == ing.event
  {
  }

  // ---------- Stage by stage, row by row ----------

  /** `after` is the claim table a write of `ing` leaves. */
  ghost predicate Wrote(before: seq<Claim>, after: seq<Claim>, ing: W.Ingestion) {
    W.Accepted(ing) && W.WrittenClaimByClaim(before, after, ing, ing.items)
  }

  lemma OldClaimWritten(before: seq<Claim>, after: seq<Claim>, ing: W.Ingestion, id: nat)
    requires Wrote(before, after, ing) && id < |before|
    ensures after[id].SameAssertion(before[id])
    ensures if id in W.SupersededIds(before, ing) then !after[id].IsActive() else after[id] == before[id]
  {
    assert after[id] == W.Rewritten(before[id], ing, ing.items, |before|);
  }

  lemma NewClaimWritten(before: seq<Claim>, after: seq<Claim>, ing: W.Ingestion, i: nat)
    requires Wrote(before, after, ing) && i < |ing.items|
    ensures |before| + i < |after| && after[|before| + i] == W.NewClaim(ing, ing.items[i])
    ensures ActiveOn(after, |before| + i, ing.event, ing.items[i].field)
  {
  }

  lemma LinksFitAfterWrite(before: seq<Claim>, after: seq<Claim>, ing: W.Ingestion, row: Conflict)
    requires Wrote(before, after, ing) && LinksFit(before, row.event, row.field, row.links)
    ensures LinksFit(after, row.event, row.field, row.links)
  {
    forall id | id in row.links ensures id < |after| && after[id].IsOn(row.event, row.field) {
      OldClaimWritten(before, after, ing, id);
    }
  }

  lemma FixedWinnerIsSerial(g: G.Graph, claims: seq<Claim>, row: Conflict, replacement: nat)
    requires LinksFit(claims, row.event, row.field, row.links) && row.status == Resolved
    requires row.event in g && row.winner.Some? && row.winner.value in row.links
    requires !G.Absorbed(g, row.event) ==> HasActive(claims, row.event, row.field)
    ensures SerialRow(g, claims, FixedWinner(claims, row, replacement))
    ensures FixedWinner(claims, row, replacement).IsOn(row.event, row.field)
    ensures FixedWinner(claims, row, replacement).status == Open ==> Disagree(claims, row.event, row.field)
  {
    var ids := ActiveIds(claims, row.event, row.field);
    CountingValuesTestsAgreement(claims, row.event, row.field);
    if ids == [] {
      assert !HasActive(claims, row.event, row.field);
    } else {
      assert ids[0] in ids;
      if |UniqueValues(claims, ids)| == 1 {
        MovedWinnerIsSerial(g, claims, row, if replacement in ids then replacement else ids[0]);
      } else {
        ReopenedIsSerial(g, claims, row);
      }
    }
  }

  lemma MovedWinnerIsSerial(g: G.Graph, claims: seq<Claim>, row: Conflict, winner: nat)
    requires row.event in g && LinksFit(claims, row.event, row.field, row.links) && row.status == Resolved
    requires ActiveOn(claims, winner, row.event, row.field)
    ensures SerialRow(g, claims, Perform(row, MoveWinner(winner)))
  {
  }

  lemma ReopenedIsSerial(g: G.Graph, claims: seq<Claim>, row: Conflict)
    requires row.event in g && LinksFit(claims, row.event, row.field, row.links)
    ensures SerialRow(g, claims, Perform(row, ReopenForEvidence(ActiveSet(claims, row.event, row.field))))
  {
  }

  lemma FixLostRowIsSerial(g: G.Graph, before: seq<Claim>, after: seq<Claim>, ing: W.Ingestion, row: Conflict)
    requires Wrote(before, after, ing) && ScopeOnEvent(g, before, ing) && SerialRow(g, before, row)
    ensures var fixed := FixLostRow(before, after, ing, row);
            SerialRow(g, after, fixed) && fixed.IsOn(row.event, row.field)
            && (fixed.status == Open ==> row.status == Open || Disagree(after, row.event, row.field))
  {
    LinksFitAfterWrite(before, after, ing, row);
    if row.status == Resolved {
      var w := row.winner.value;
      OldClaimWritten(before, after, ing, w);
      if LostWinner(before, ing, row) {
        var i := W.ItemFor(ing.items, before[w].field).value;
        NewClaimWritten(before, after, ing, i);
        assert before[w].IsOn(row.event, row.field);
        if !G.Absorbed(g, row.event) {
          ScopedEvent(g, before, ing, w);
        }
        FixedWinnerIsSerial(g, after, row, |before| + i);
      }
    }
  }

  lemma ClosedIfAgreedIsSerial(g: G.Graph, claims: seq<Claim>, row: Conflict)
    requires SerialRow(g, claims, row)
    ensures var closed := ClosedIfAgreed(claims, row);
            SerialRow(g, claims, closed) && closed.IsOn(row.event, row.field)
            && (closed.status == Open ==> row.status == Open)
            && (closed.status == Open && HasActive(claims, row.event, row.field) ==> Disagree(claims, row.event, row.field))
  {
    CountingValuesTestsAgreement(claims, row.event, row.field);
    var ids := ActiveIds(claims, row.event, row.field);
    assert ids != [] ==> ids[0] in ids;
    if HasActive(claims, row.event, row.field) {
      var i: nat :| ActiveOn(claims, i, row.event, row.field);
      assert i in ids;
    }
  }

  // ---------- Detection ----------

  /** The winner of a resolved row cannot agree with every active claim of a disputed field. */
  lemma ResolvedIsContradicted(g: G.Graph, claims: seq<Claim>, conflicts: seq<Conflict>, e: nat, f: FieldName)
    requires SerialRows(g, claims, conflicts) && Disagree(claims, e, f) && LatestResolved(conflicts, e, f).Some?
    ensures Contradicted(claims, claims, conflicts, e, f) == LatestResolved(conflicts, e, f)
  {
    assert SerialRow(g, claims, conflicts[LatestResolved(conflicts, e, f).value]);
    var i: nat, j: nat :| ActiveOn(claims, i, e, f) && ActiveOn(claims, j, e, f) && claims[i].value != claims[j].value;
    assert i in ActiveIds(claims, e, f) && j in ActiveIds(claims, e, f);
  }

  /** In a serial table the brand-new case never meets an existing row: a disputed field with a
      resolved conflict is always reopened. */
  lemma BrandNewMeansNoRow(g: G.Graph, claims: seq<Claim>, conflicts: seq<Conflict>, e: nat, f: FieldName)
    requires SerialRows(g, claims, conflicts) && Disputed(claims, e, f)
    ensures FindOpen(conflicts, e, f).None? && Contradicted(claims, claims, conflicts, e, f).None? <==>
            forall i | 0 <= i < |conflicts| :: !conflicts[i].IsOn(e, f)
  {
    if LatestResolved(conflicts, e, f).Some? {
      ResolvedIsContradicted(g, claims, conflicts, e, f);
    }
    if FindOpen(conflicts, e, f).None? {
      assert forall i | 0 <= i < |conflicts| :: !conflicts[i].IsOpenOn(e, f);
    }
  }

  lemma DetectFieldIsSerial(g: G.Graph, claims: seq<Claim>, conflicts: seq<Conflict>, e: nat, f: FieldName)
    requires SerialRows(g, claims, conflicts) && OneRowPerField(conflicts) && Disputed(claims, e, f) && e in g
    ensures var after := DetectField(claims, conflicts, e, f);
            SerialRows(g, claims, after) && OneRowPerField(after) && Covered(claims, after, e, f)
            && OnlyFieldsChanged(conflicts, after, e, [f])
  {
    var after := DetectField(claims, conflicts, e, f);
    var ids := ActiveSet(claims, e, f);
    BrandNewMeansNoRow(g, claims, conflicts, e, f);
    var open, contradicted := FindOpen(conflicts, e, f), Contradicted(claims, claims, conflicts, e, f);
    var at := if open.Some? then open.value else if contradicted.Some? then contradicted.value else |conflicts|;
    if at < |conflicts| {
      assert SerialRow(g, claims, conflicts[at]);
    }
    assert after[at].IsOpenOn(e, f) && ids <= after[at].links && SerialRow(g, claims, after[at]);
    forall i | 0 <= i < |after| ensures SerialRow(g, claims, after[i]) {
      if i != at {
        assert after[i] == conflicts[i] && SerialRow(g, claims, conflicts[i]);
      }
    }
  }

  lemma CoveredStays(claims: seq<Claim>, before: seq<Conflict>, after: seq<Conflict>, e: nat, f: FieldName,
                     fields: seq<FieldName>)
    requires Covered(claims, before, e, f) && OnlyFieldsChanged(before, after, e, fields) && f !in fields
    ensures Covered(claims, after, e, f)
  {
    var i :| 0 <= i < |before| && before[i].IsOpenOn(e, f) && ActiveSet(claims, e, f) <= before[i].links;
    assert after[i] == before[i];
  }

  lemma CoveredStaysAside(claims: seq<Claim>, conflicts: seq<Conflict>, e: nat, f: FieldName, other: FieldName)
    requires Covered(claims, conflicts, e, f) && f != other
    ensures Covered(claims, DetectField(claims, conflicts, e, other), e, f)
  {
    DetectFieldFrame(claims, conflicts, e, other);
    CoveredStays(claims, conflicts, DetectField(claims, conflicts, e, other), e, f, [other]);
  }

  ghost predicate AllCovered(claims: seq<Claim>, conflicts: seq<Conflict>, e: nat, fields: seq<FieldName>) {
    forall k | 0 <= k < |fields| :: Covered(claims, conflicts, e, fields[k])
  }

  lemma AllCoveredNext(claims: seq<Claim>, before: seq<Conflict>, after: seq<Conflict>, e: nat, fields: seq<FieldName>,
                       n: nat)
    requires |fields| == n + 1 && AllCovered(claims, before, e, fields[..n]) && AllDistinct(fields)
    requires after == DetectField(claims, before, e, fields[n]) && Covered(claims, after, e, fields[n])
    ensures AllCovered(claims, after, e, fields)
  {
    forall k | 0 <= k < |fields| ensures Covered(claims, after, e, fields[k]) {
      if k < n {
        assert fields[..n][k] == fields[k];
        CoveredStaysAside(claims, before, e, fields[k], fields[n]);
      }
    }
  }

  lemma {:induction false} DetectFieldsIsSerial(g: G.Graph, claims: seq<Claim>, conflicts: seq<Conflict>, e: nat,
                                                fields: seq<FieldName>)
    requires SerialRows(g, claims, conflicts) && OneRowPerField(conflicts) && e in g
    requires forall k | 0 <= k < |fields| :: Disputed(claims, e, fields[k])
    requires AllDistinct(fields)
    ensures var after := DetectFields(claims, conflicts, e, fields);
            SerialRows(g, claims, after) && OneRowPerField(after) && AllCovered(claims, after, e, fields)
  {
    if fields == [] {
    } else {
      var n := |fields| - 1;
      DetectFieldsIsSerial(g, claims, conflicts, e, fields[..n]);
      var before := DetectFields(claims, conflicts, e, fields[..n]);
      DetectFieldIsSerial(g, claims, before, e, fields[n]);
      AllCoveredNext(claims, before, DetectFields(claims, conflicts, e, fields), e, fields, n);
    }
  }

  // ---------- The stages together ----------

  lemma FixLostIsSerial(db: Db, before: seq<Claim>, ing: W.Ingestion)
    requires Wrote(before, db.claims, ing) && ScopeOnEvent(db.events, before, ing)
    requires SerialRows(db.events, before, db.conflicts) && OneRowPerField(db.conflicts)
    ensures var fixed := FixLost(db, before, ing).conflicts;
            SerialRows(db.events, db.claims, fixed) && OneRowPerField(fixed)
            && forall i | 0 <= i < |fixed| ::
                 fixed[i].IsOn(db.conflicts[i].event, db.conflicts[i].field)
                 && (fixed[i].status == Open ==>
                       db.conflicts[i].status == Open || Disagree(db.claims, fixed[i].event, fixed[i].field))
  {
    var fixed := FixLost(db, before, ing).conflicts;
    forall i | 0 <= i < |fixed|
      ensures SerialRow(db.events, db.claims, fixed[i]) && fixed[i].IsOn(db.conflicts[i].event, db.conflicts[i].field)
              && (fixed[i].status == Open ==>
                    db.conflicts[i].status == Open || Disagree(db.claims, fixed[i].event, fixed[i].field))
    {
      assert SerialRow(db.events, before, db.conflicts[i]);
      FixLostRowIsSerial(db.events, before, db.claims, ing, db.conflicts[i]);
    }
  }

  lemma CloseStaleIsSerial(db: Db, e: nat, fields: set<FieldName>)
    requires SerialRows(db.events, db.claims, db.conflicts) && OneRowPerField(db.conflicts)
    ensures var closed := CloseStale(db, e, fields).conflicts;
            SerialRows(db.events, db.claims, closed) && OneRowPerField(closed)
            && forall i | 0 <= i < |closed| ::
                 closed[i].IsOn(db.conflicts[i].event, db.conflicts[i].field)
                 && (closed[i].status == Open ==> db.conflicts[i].status == Open)
                 && (closed[i].status == Open && closed[i].event == e && closed[i].field in fields
                     && HasActive(db.claims, closed[i].event, closed[i].field)
                     ==> Disagree(db.claims, closed[i].event, closed[i].field))
  {
    var closed := CloseStale(db, e, fields).conflicts;
    forall i | 0 <= i < |closed|
      ensures SerialRow(db.events, db.claims, closed[i]) && closed[i].IsOn(db.conflicts[i].event, db.conflicts[i].field)
              && (closed[i].status == Open ==> db.conflicts[i].status == Open)
              && (closed[i].status == Open && closed[i].event == e && closed[i].field in fields
                  && HasActive(db.claims, closed[i].event, closed[i].field)
                  ==> Disagree(db.claims, closed[i].event, closed[i].field))
    {
      assert SerialRow(db.events, db.claims, db.conflicts[i]);
      ClosedIfAgreedIsSerial(db.events, db.claims, db.conflicts[i]);
    }
  }

  lemma DetectConflictsIsSerial(db: Db, e: nat)
    requires SerialRows(db.events, db.claims, db.conflicts) && OneRowPerField(db.conflicts) && e in db.events
    ensures var after := DetectConflicts(db, e);
            after.claims == db.claims && SerialRows(db.events, db.claims, after.conflicts)
            && OneRowPerField(after.conflicts)
            && Settled(after, e)
            && OnlyFieldsChanged(db.conflicts, after.conflicts, e, DetectedFields(db.claims, e))
  {
    var fields := DetectedFields(db.claims, e);
    forall k | 0 <= k < |fields| ensures Disputed(db.claims, e, fields[k]) {
      DetectionIsDispute(db.claims, e, fields[k]);
    }
    DetectFieldsIsSerial(db.events, db.claims, db.conflicts, e, fields);
    DetectFieldsFrame(db.claims, db.conflicts, e, fields);
  }

  lemma WriteKeepsClaims(g: G.Graph, before: seq<Claim>, after: seq<Claim>, ing: W.Ingestion)
    requires Wrote(before, after, ing) && ScopeOnEvent(g, before, ing)
    requires PointersMatchTypes(before) && EventsKnown(g, before) && RecordsTogether(g, before)
    ensures PointersMatchTypes(after) && EventsKnown(g, after) && RecordsTogether(g, after)
  {
    forall i | 0 <= i < |after|
      ensures (after[i].kind == Superseded <==> after[i].supersededBy.Some?)
              && (after[i].supersededBy.Some? ==> after[i].supersededBy.value < |after|)
    {
      if i < |before| {
        assert after[i] == W.Rewritten(before[i], ing, ing.items, |before|);
      } else {
        NewClaimWritten(before, after, ing, i - |before|);
      }
    }
    forall i, j | 0 <= i < |after| && 0 <= j < |after| && after[i].source == after[j].source
                  && after[i].record.Some? && after[i].record == after[j].record
      ensures G.Walk(g, after[i].event, {}) == G.Walk(g, after[j].event, {})
    {
      AssertionWritten(before, after, ing, i);
      AssertionWritten(before, after, ing, j);
    }
    forall i | 0 <= i < |after| ensures after[i].event in g {
      AssertionWritten(before, after, ing, i);
    }
  }

  /** A claim after the write asserts what it did before, or is one of the new claims. */
  lemma AssertionWritten(before: seq<Claim>, after: seq<Claim>, ing: W.Ingestion, i: nat)
    requires Wrote(before, after, ing) && i < |after|
    ensures i < |before| ==> after[i].SameAssertion(before[i])
    ensures i >= |before| ==>
              after[i].source == ing.source && after[i].record == ing.record && after[i].event == ing.event
  {
    if i < |before| {
      OldClaimWritten(before, after, ing, i);
    } else {
      NewClaimWritten(before, after, ing, i - |before|);
    }
  }

  /** A disagreement no superseded claim took part in survives the write. */
  lemma DisagreementSurvives(g: G.Graph, before: seq<Claim>, after: seq<Claim>, ing: W.Ingestion, e: nat, f: FieldName)
    requires Wrote(before, after, ing) && ScopeOnEvent(g, before, ing) && !G.Absorbed(g, e) && Disagree(before, e, f)
    requires e != ing.event || f !in W.AffectedFields(before, ing)
    ensures Disagree(after, e, f)
  {
    var i: nat, j: nat :| ActiveOn(before, i, e, f) && ActiveOn(before, j, e, f) && before[i].value != before[j].value;
    forall k: nat | ActiveOn(before, k, e, f) ensures ActiveOn(after, k, e, f) && after[k] == before[k] {
      OldClaimWritten(before, after, ing, k);
      if W.InScope(before[k], ing) {
        ScopedEvent(g, before, ing, k);
      }
    }
  }

  lemma AffectedHasActive(before: seq<Claim>, after: seq<Claim>, ing: W.Ingestion, f: FieldName)
    requires Wrote(before, after, ing) && f in W.AffectedFields(before, ing)
    ensures HasActive(after, ing.event, f)
  {
    var id :| id in W.SupersededIds(before, ing) && before[id].field == f;
    NewClaimWritten(before, after, ing, W.ItemFor(ing.items, f).value);
  }

  /** One ingestion: the invariants survive, and every disputed field of its event ends up with one
      open conflict that links all its active claims. */
  lemma IngestSettles(db: Db, ing: W.Ingestion)
    requires Serial(db) && W.Accepted(ing) && ScopeOnEvent(db.events, db.claims, ing)
    ensures Serial(Ingest(db, ing)) && Settled(Ingest(db, ing), ing.event)
    ensures Ingest(db, ing).claims == W.Write(db, ing).claims && Ingest(db, ing).events == db.events
    ensures OpenRowsDisagree(db) ==> OpenRowsDisagree(Ingest(db, ing))
  {
    var before := db.claims;
    W.WriteItemsClaimByClaim(db, ing, ing.items);
    var written := W.Write(db, ing);
    var claims := written.claims;
    WriteKeepsClaims(db.events, before, claims, ing);
    FixLostIsSerial(written, before, ing);
    var fixed := FixLost(written, before, ing);
    var affected := W.AffectedFields(before, ing);
    CloseStaleIsSerial(fixed, ing.event, affected);
    var closed := CloseStale(fixed, ing.event, affected);
    DetectConflictsIsSerial(closed, ing.event);
    if OpenRowsDisagree(db) {
      forall i | 0 <= i < |closed.conflicts| && closed.conflicts[i].status == Open
             && !G.Absorbed(db.events, closed.conflicts[i].event)
        ensures Disagree(claims, closed.conflicts[i].event, closed.conflicts[i].field)
      {
        StaleRowsAreClosed(db, written, ing, fixed, closed, i);
      }
      DetectionOpensOnlyDisputes(closed, ing.event);
    }
  }

  lemma StaleRowsAreClosed(db: Db, written: Db, ing: W.Ingestion, fixed: Db, closed: Db, i: nat)
    requires Wrote(db.claims, written.claims, ing) && ScopeOnEvent(db.events, db.claims, ing)
    requires written.conflicts == db.conflicts && written.events == db.events
    requires SerialRows(db.events, db.claims, db.conflicts) && OneRowPerField(db.conflicts) && OpenRowsDisagree(db)
    requires fixed == FixLost(written, db.claims, ing)
    requires closed == CloseStale(fixed, ing.event, W.AffectedFields(db.claims, ing))
    requires i < |closed.conflicts| && closed.conflicts[i].status == Open
             && !G.Absorbed(db.events, closed.conflicts[i].event)
    ensures Disagree(written.claims, closed.conflicts[i].event, closed.conflicts[i].field)
  {
    var affected := W.AffectedFields(db.claims, ing);
    FixLostIsSerial(written, db.claims, ing);
    CloseStaleIsSerial(fixed, ing.event, affected);
    var row := closed.conflicts[i];
    if row.event == ing.event && row.field in affected {
      AffectedHasActive(db.claims, written.claims, ing, row.field);
    } else if db.conflicts[i].status == Open {
      DisagreementSurvives(db.events, db.claims, written.claims, ing, row.event, row.field);
    }
  }

  lemma DetectionOpensOnlyDisputes(db: Db, e: nat)
    requires SerialRows(db.events, db.claims, db.conflicts) && OneRowPerField(db.conflicts) && OpenRowsDisagree(db)
             && e in db.events
    ensures OpenRowsDisagree(DetectConflicts(db, e))
  {
    var after := DetectConflicts(db, e);
    DetectConflictsIsSerial(db, e);
    forall i | 0 <= i < |after.conflicts| && after.conflicts[i].status == Open
           && !G.Absorbed(db.events, after.conflicts[i].event)
      ensures Disagree(db.claims, after.conflicts[i].event, after.conflicts[i].field)
    {
      if i >= |db.conflicts| || after.conflicts[i] != db.conflicts[i] {
        DetectionIsDispute(db.claims, e, after.conflicts[i].field);
      }
    }
  }

  /** When moreover each source has at most one active claim per field, the open fields of the event
      are exactly the disputed ones. */
  lemma OpenFieldsAreDisputedFields(db: Db, e: nat, f: FieldName)
    requires Settled(db, e) && OpenRowsDisagree(db) && !G.Absorbed(db.events, e) && OneClaimPerSource(db.claims, e)
    ensures HasOpen(db.conflicts, e, f) <==> Disputed(db.claims, e, f)
  {
    DetectionIsDispute(db.claims, e, f);
    DisagreementNeedsTwoSources(db.claims, e, f);
    if f in DetectedFields(db.claims, e) {
      assert Covered(db.claims, db.conflicts, e, f);
    }
  }
}
