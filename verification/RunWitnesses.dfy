/**
 Concrete runs from the empty tables. Source 0 reports a record and source 1 disagrees; then corrections,
 decisions, merges and manual reopens that break what a reopen is meant to restore, and a merge that fails.
 */
module RunWitnesses {
  import opened Optional
  import opened Evidence
  import opened ClaimLedger
  import opened ConflictRows
  import opened Reconciler
  import opened SerialRuns
  import opened EvidenceRuns
  import opened FieldHistory
  import G = MergeGraph
  import M = EventMerges
  import W = ClaimWriting
  import C = Curation
  import L = LaterReopens

  const RECORD := RecordId("record")
  const OPERATOR := FieldName("operator")

  const FIRST := W.Ingestion(0, 0, Some(RECORD), [W.Item(OPERATOR, Some(1))])
  const DISSENT := W.Ingestion(0, 1, None, [W.Item(OPERATOR, Some(2))])

  const ELSEWHERE := W.Ingestion(1, 2, None, [W.Item(OPERATOR, Some(1))])

  const REPORTED := Claim(0, 0, Some(RECORD), OPERATOR, 1, Raw, None)
  const DISSENTING := Claim(0, 1, None, OPERATOR, 2, Raw, None)

  const ELSEWHERE_REPORTED := Claim(1, 2, None, OPERATOR, 1, Raw, None)

  /** Source 0 re-reports its record. */
  function Correction(value: int): W.Ingestion {
    W.Ingestion(0, 0, Some(RECORD), [W.Item(OPERATOR, Some(value))])
  }

  function Corrected(value: int): Claim {
    Claim(0, 0, Some(RECORD), OPERATOR, value, Raw, None)
  }

  // ---------- The claims of the runs ----------

  lemma SameWrite(before: seq<Claim>, a: seq<Claim>, b: seq<Claim>, ing: W.Ingestion)
    requires W.Accepted(ing)
    requires W.WrittenClaimByClaim(before, a, ing, ing.items) && W.WrittenClaimByClaim(before, b, ing, ing.items)
    ensures a == b
  {
    forall i | 0 <= i < |a| ensures a[i] == b[i] {
      if i >= |before| {
        assert a[|before| + (i - |before|)] == W.NewClaim(ing, ing.items[i - |before|]);
        assert b[|before| + (i - |before|)] == W.NewClaim(ing, ing.items[i - |before|]);
      }
    }
  }

  lemma TargetsEventZero(db: Db, ing: W.Ingestion)
    requires ing.event == 0 && forall i | 0 <= i < |db.claims| :: db.claims[i].event == 0
    requires (db.claims == [] && db.events == map[]) || G.Unmerged(db.events, 0)
    ensures TargetEvent(db, ing, false) == Some(0)
  {
  }

  /** One ingestion to the event it names. */
  lemma IngestOne(db: Db, ing: W.Ingestion, claims: seq<Claim>)
    requires Serial(db) && W.Accepted(ing) && TargetEvent(db, ing, false) == Some(ing.event)
    requires W.WrittenClaimByClaim(db.claims, claims, ing, ing.items)
    ensures Succeeds(db, Ingestion(ing, false))
    ensures var now := Ingest(Registered(db, ing.event), ing);
            Take(db, Ingestion(ing, false)) == now && Serial(now) && Settled(now, ing.event) && now.claims == claims
            && now.events == Registered(db, ing.event).events
  {
    hide Serial, Settled, Ingest, TargetEvent, ScopeOnEvent;
    var known := Registered(db, ing.event);
    ContinuityScopesTheWrite(db, ing, false);
    assert ing.(event := ing.event) == ing;
    IngestSettles(known, ing);
    W.WriteItemsClaimByClaim(known, ing, ing.items);
    SameWrite(db.claims, Ingest(known, ing).claims, claims, ing);
  }

  lemma OneItem(ing: W.Ingestion, f: FieldName)
    requires |ing.items| == 1
    ensures W.ItemFor(ing.items, f) == if f == ing.items[0].field then Some(0) else None
  {
  }

  lemma FirstWrites()
    ensures W.WrittenClaimByClaim([], [REPORTED], FIRST, FIRST.items)
    ensures W.WrittenClaimByClaim([REPORTED], [REPORTED, DISSENTING], DISSENT, DISSENT.items)
  {
    OneItem(FIRST, OPERATOR);
    OneItem(DISSENT, OPERATOR);
  }

  /** A correction retires the record's claim if that is still active. */
  lemma CorrectionWrites(reported: Claim, dissenting: Claim, value: int)
    requires reported.SameAssertion(REPORTED) && dissenting.SameAssertion(DISSENTING)
    ensures var after := if reported.IsActive() then Retire(reported, 2) else reported;
            W.WrittenClaimByClaim([reported, dissenting], [after, dissenting, Corrected(value)],
                                  Correction(value), Correction(value).items)
  {
    OneItem(Correction(value), OPERATOR);
  }

  /** The state after the first two ingestions, and its open conflict, which links both claims. */
  ghost predicate TwoReported(two: Db, id: nat) {
    Serial(two) && two.claims == [REPORTED, DISSENTING] && two.events == map[0 := None] && id < |two.conflicts|
    && two.conflicts[id].IsOpenOn(0, OPERATOR) && two.conflicts[id].links == {0, 1}
  }

  lemma OneReport() returns (one: Db)
    ensures one == Take(EMPTY_DB, Ingestion(FIRST, false)) && Serial(one) && one.claims == [REPORTED]
            && one.events == map[0 := None]
  {
    hide Take, Ingest, Settled, TargetEvent;
    FirstWrites();
    TargetsEventZero(EMPTY_DB, FIRST);
    EmptyIsSerial();
    IngestOne(EMPTY_DB, FIRST, [REPORTED]);
    one := Ingest(Registered(EMPTY_DB, 0), FIRST);
  }

  lemma EmptyIsSerial()
    ensures Serial(EMPTY_DB)
  {
  }

  lemma TwoReports() returns (two: Db, id: nat)
    ensures two == After([Ingestion(FIRST, false), Ingestion(DISSENT, false)]) && TwoReported(two, id)
  {
    hide Take, Ingest, TargetEvent, Serial;
    var one := OneReport();
    FirstWrites();
    TargetsEventZero(one, DISSENT);
    IngestOne(one, DISSENT, [REPORTED, DISSENTING]);
    two := Ingest(Registered(one, 0), DISSENT);
    AfterPush([], Ingestion(FIRST, false));
    AfterPush([Ingestion(FIRST, false)], Ingestion(DISSENT, false));
    assert [] + [Ingestion(FIRST, false)] == [Ingestion(FIRST, false)];
    assert [Ingestion(FIRST, false)] + [Ingestion(DISSENT, false)] == [Ingestion(FIRST, false), Ingestion(DISSENT, false)];
    id := DisputedRow(two);
  }

  lemma AfterPush(steps: seq<Step>, step: Step)
    ensures After(steps + [step]) == Take(After(steps), step)
  {
    assert (steps + [step])[..|steps|] == steps;
  }

  lemma AfterThreeMore(steps: seq<Step>, a: Step, b: Step, c: Step)
    ensures After(steps + [a] + [b] + [c]) == Take(Take(Take(After(steps), a), b), c)
  {
    AfterPush(steps, a);
    AfterPush(steps + [a], b);
    AfterPush(steps + [a] + [b], c);
  }

  lemma DisputedRow(two: Db) returns (id: nat)
    requires Serial(two) && Settled(two, 0) && two.claims == [REPORTED, DISSENTING]
    ensures id < |two.conflicts| && two.conflicts[id].IsOpenOn(0, OPERATOR) && two.conflicts[id].links == {0, 1}
  {
    hide Perform, Serial;
    id := RowOfDispute(two, 0, 1);
    LinksFitInRun(two, id);
  }

  /** The open row of two disagreeing claims links both. */
  lemma RowOfDispute(db: Db, i: nat, j: nat) returns (id: nat)
    requires Serial(db) && Settled(db, 0) && ActiveOn(db.claims, i, 0, OPERATOR) && ActiveOn(db.claims, j, 0, OPERATOR)
    requires db.claims[i].source != db.claims[j].source && db.claims[i].value != db.claims[j].value
    ensures id < |db.conflicts| && db.conflicts[id].IsOpenOn(0, OPERATOR) && i in db.conflicts[id].links
            && j in db.conflicts[id].links
  {
    DetectionIsDispute(db.claims, 0, OPERATOR);
    assert Covered(db.claims, db.conflicts, 0, OPERATOR);
    id :| id < |db.conflicts| && db.conflicts[id].IsOpenOn(0, OPERATOR)
    && ActiveSet(db.claims, 0, OPERATOR) <= db.conflicts[id].links;
    assert i in ActiveSet(db.claims, 0, OPERATOR) && j in ActiveSet(db.claims, 0, OPERATOR);
  }

  // ---------- One row through one ingestion ----------

  /** Detection leaves the row of an agreeing field alone. */
  lemma AgreeingRowLeft(db: Db, ing: W.Ingestion, id: nat, fixed: Conflict, closed: Conflict)
    requires W.Accepted(ing) && id < |db.conflicts| && RowStages(db, ing, id, fixed, closed)
    requires !Disagree(Ingest(db, ing).claims, ing.event, closed.field)
    ensures Ingest(db, ing).conflicts[id] == closed
  {
    DetectionIsDispute(Ingest(db, ing).claims, ing.event, closed.field);
  }

  /** An ingestion after which the field's claims agree: its claims, and the conflict's row through the stages. */
  lemma Agree(db: Db, id: nat, ing: W.Ingestion, claims: seq<Claim>) returns (fixed: Conflict, closed: Conflict)
    requires Serial(db) && id < |db.conflicts| && db.conflicts[id].IsOn(0, OPERATOR)
    requires W.Accepted(ing) && ing.event == 0 && db.events == map[0 := None]
    requires forall i | 0 <= i < |db.claims| :: db.claims[i].event == 0
    requires W.WrittenClaimByClaim(db.claims, claims, ing, ing.items) && !Disagree(claims, 0, OPERATOR)
    ensures Take(db, Ingestion(ing, false)) == Ingest(db, ing) && Serial(Ingest(db, ing))
            && Ingest(db, ing).claims == claims
    ensures RowStages(db, ing, id, fixed, closed) && Ingest(db, ing).conflicts[id] == closed
    ensures Ingest(db, ing).events == db.events
  {
    TargetsEventZero(db, ing);
    IngestOne(db, ing, claims);
    fixed, closed := IngestStages(db, ing, id);
    AgreeingRowLeft(db, ing, id, fixed, closed);
  }

  lemma Agreement(claims: seq<Claim>, i: nat)
    requires ActiveOn(claims, i, 0, OPERATOR) && !Disagree(claims, 0, OPERATOR)
    ensures |UniqueValues(claims, ActiveIds(claims, 0, OPERATOR))| == 1 && i in ActiveIds(claims, 0, OPERATOR)
  {
    CountingValuesTestsAgreement(claims, 0, OPERATOR);
    assert HasActive(claims, 0, OPERATOR);
  }

  lemma KeptRow(db: Db, ing: W.Ingestion, id: nat, fixed: Conflict, closed: Conflict)
    requires W.Accepted(ing) && id < |db.conflicts| && RowStages(db, ing, id, fixed, closed)
    requires db.conflicts[id].status == Resolved && !LostWinner(db.claims, ing, db.conflicts[id])
    ensures closed == db.conflicts[id]
  {
  }

  lemma MovedRow(db: Db, ing: W.Ingestion, id: nat, fixed: Conflict, closed: Conflict, winner: nat)
    requires W.Accepted(ing) && id < |db.conflicts| && RowStages(db, ing, id, fixed, closed)
    requires LostWinner(db.claims, ing, db.conflicts[id]) && db.conflicts[id].IsOn(0, OPERATOR)
    requires W.ItemFor(ing.items, db.claims[db.conflicts[id].winner.value].field) == Some(0) && winner == |db.claims|
    requires ActiveOn(Ingest(db, ing).claims, winner, 0, OPERATOR) && !Disagree(Ingest(db, ing).claims, 0, OPERATOR)
    ensures closed == Perform(db.conflicts[id], MoveWinner(winner))
  {
    Agreement(Ingest(db, ing).claims, winner);
    hide Ingest, W.Accepted, UniqueValues, Disagree, HasActive;
  }

  lemma ClosedRow(db: Db, ing: W.Ingestion, id: nat, fixed: Conflict, closed: Conflict)
    requires W.Accepted(ing) && id < |db.conflicts| && RowStages(db, ing, id, fixed, closed)
    requires db.conflicts[id].IsOpenOn(0, OPERATOR) && ing.event == 0 && OPERATOR in W.AffectedFields(db.claims, ing)
    requires var claims := Ingest(db, ing).claims;
             |claims| == 3 && !claims[0].IsActive() && ActiveOn(claims, 1, 0, OPERATOR)
             && !Disagree(claims, 0, OPERATOR)
    ensures closed == Perform(db.conflicts[id], AutoClose(1))
  {
    Agreement(Ingest(db, ing).claims, 1);
    FirstActive(Ingest(db, ing).claims);
  }

  lemma Undisputed(claims: seq<Claim>)
    requires |claims| == 3 && !claims[0].IsActive() && (claims[1].IsActive() ==> claims[1].value == claims[2].value)
    ensures !Disagree(claims, 0, OPERATOR)
  {
  }

  lemma ResolveCommits(db: Db, id: nat, winner: nat)
    requires id < |db.conflicts| && db.conflicts[id].status == Open && winner in db.conflicts[id].links
    requires winner < |db.claims| && db.claims[winner].IsActive()
    ensures C.Resolve(db, id, db.conflicts[id].version, winner).Committed?
  {
  }

  lemma TakeResolves(db: Db, id: nat, expected: nat, winner: nat)
    requires C.Resolve(db, id, expected, winner).Committed?
    ensures Take(db, ResolveStep(id, expected, winner)) == C.Resolve(db, id, expected, winner).db
  {
    hide C.Resolve;
  }

  lemma ReopenCommits(db: Db, id: nat)
    requires Serial(db) && id < |db.conflicts| && db.conflicts[id].status == Resolved
    ensures C.Reopen(db, id, db.conflicts[id].version).Committed?
    ensures Take(db, ReopenStep(id, db.conflicts[id].version)) == C.Reopen(db, id, db.conflicts[id].version).db
    ensures Succeeds(db, ReopenStep(id, db.conflicts[id].version))
  {
    hide Serial;
    OneRowInRun(db);
    L.OneRowImpliesOneOpen(db.conflicts);
  }

  lemma OneRowInRun(db: Db)
    requires Serial(db)
    ensures OneRowPerField(db.conflicts)
  {
  }

  /** The curator picks one of the first two claims. */
  lemma Pick(two: Db, id: nat, winner: nat) returns (resolved: Db)
    requires TwoReported(two, id) && winner < 2
    ensures resolved == Take(two, ResolveStep(id, two.conflicts[id].version, winner)) && Serial(resolved)
            && resolved.events == two.events
    ensures resolved.claims == if winner == 0 then [REPORTED, Retire(DISSENTING, 0)] else [Retire(REPORTED, 1), DISSENTING]
    ensures id < |resolved.conflicts| && resolved.conflicts[id] == Perform(two.conflicts[id], CuratorResolve(winner))
  {
    hide Serial, Take, Perform;
    var version := two.conflicts[id].version;
    ResolveCommits(two, id, winner);
    resolved := C.Resolve(two, id, version, winner).db;
    C.ResolveDecides(two, resolved, id, version, winner);
    TakeResolves(two, id, version, winner);
    ResolveIsSerial(two, id, version, winner);
    PickedClaims(two.claims, winner);
  }

  lemma PickedClaims(claims: seq<Claim>, winner: nat)
    requires claims == [REPORTED, DISSENTING] && winner < 2
    ensures RetireAll(claims, {0, 1} - {winner}, winner)
            == if winner == 0 then [REPORTED, Retire(DISSENTING, 0)] else [Retire(REPORTED, 1), DISSENTING]
  {
  }

  // ---------- The correction wins ----------

  /** The first two reports of source 0 are both active. */
  ghost predicate ReportedTwice(claims: seq<Claim>) {
    |claims| == 3 && W.Twins(claims[0], claims[2])
  }

  /** Source 0 corrects its record before the curator picks the correction: the corrected claim had lost to
      the winner already, and comes back beside it. */
  lemma CorrectedBefore() returns (id: nat, version: nat)
    ensures var back := After([Ingestion(FIRST, false), Ingestion(DISSENT, false)] + [Ingestion(Correction(3), false)]
                              + [ResolveStep(id, version, 2)] + [ReopenStep(id, version + 1)]);
            ReportedTwice(back.claims)
  {
    hide Take, Serial, ReportedTwice, W.WrittenClaimByClaim;
    var two;
    two, id := TwoReports();
    var steps := [Ingestion(FIRST, false), Ingestion(DISSENT, false)];
    CorrectionWrites(REPORTED, DISSENTING, 3);
    var claims := [Retire(REPORTED, 2), DISSENTING, Corrected(3)];
    var three := OpenAfterCorrection(two, id, claims);
    version := three.conflicts[id].version;
    AfterPush(steps, Ingestion(Correction(3), false));
    AfterPush(steps + [Ingestion(Correction(3), false)], ResolveStep(id, version, 2));
    AfterPush(steps + [Ingestion(Correction(3), false)] + [ResolveStep(id, version, 2)], ReopenStep(id, version + 1));
    var resolved := PickTheCorrection(three, id, claims);
    ReopenLeavesTwins(resolved, id, version + 1);
  }

  lemma OpenAfterCorrection(two: Db, id: nat, claims: seq<Claim>) returns (three: Db)
    requires TwoReported(two, id) && claims == [Retire(REPORTED, 2), DISSENTING, Corrected(3)]
    requires W.WrittenClaimByClaim(two.claims, claims, Correction(3), Correction(3).items)
    ensures three == Take(two, Ingestion(Correction(3), false)) && Serial(three) && three.claims == claims
    ensures id < |three.conflicts| && three.conflicts[id].IsOpenOn(0, OPERATOR)
            && {0, 1, 2} <= three.conflicts[id].links
  {
    hide Take, Serial, Ingest, TargetEvent, W.WrittenClaimByClaim;
    var ing := Correction(3);
    TargetsEventZero(two, ing);
    IngestOne(two, ing, claims);
    three := Ingest(two, ing);
    IngestMovesRow(two, ing, id);
    var i := RowOfDispute(three, 1, 2);
    OneRowInRun(three);
    assert three.conflicts[id].IsOn(three.conflicts[i].event, three.conflicts[i].field);
  }

  lemma PickTheCorrection(three: Db, id: nat, claims: seq<Claim>) returns (resolved: Db)
    requires Serial(three) && three.claims == claims == [Retire(REPORTED, 2), DISSENTING, Corrected(3)]
    requires id < |three.conflicts| && three.conflicts[id].IsOpenOn(0, OPERATOR)
             && {0, 1, 2} <= three.conflicts[id].links
    ensures resolved == Take(three, ResolveStep(id, three.conflicts[id].version, 2)) && Serial(resolved)
            && |resolved.claims| == 3
    ensures resolved.claims[0] == claims[0] && resolved.claims[2] == claims[2]
    ensures id < |resolved.conflicts| && resolved.conflicts[id] == Perform(three.conflicts[id], CuratorResolve(2))
  {
    hide Serial, Take, Perform;
    var version := three.conflicts[id].version;
    ResolveCommits(three, id, 2);
    resolved := C.Resolve(three, id, version, 2).db;
    C.ResolveDecides(three, resolved, id, version, 2);
    TakeResolves(three, id, version, 2);
    ResolveIsSerial(three, id, version, 2);
  }

  /** A reopen that finds the record's first claim beaten by the winner and its correction active. */
  lemma ReopenLeavesTwins(db: Db, id: nat, expected: nat)
    requires Serial(db) && |db.claims| == 3 && id < |db.conflicts|
    requires db.conflicts[id].version == expected && db.conflicts[id].status == Resolved && 0 in db.conflicts[id].links
    requires db.conflicts[id].IsOn(0, OPERATOR)
    requires db.claims[0].SameAssertion(REPORTED) && db.claims[0].supersededBy.Some?
             && db.claims[0].supersededBy == db.conflicts[id].winner
    requires db.claims[2].SameAssertion(Corrected(db.claims[2].value)) && db.claims[2].IsActive()
    ensures Take(db, ReopenStep(id, expected)) == C.Reopen(db, id, expected).db && C.Reopen(db, id, expected).Committed?
    ensures ReportedTwice(C.Reopen(db, id, expected).db.claims)
  {
    hide Serial, Take, C.Reopen;
    ReopenCommits(db, id);
    var back := C.Reopen(db, id, expected).db;
    C.AliveAfterReopen(db, back, id, expected, 0);
    C.AliveAfterReopen(db, back, id, expected, 2);
  }

  // ---------- A correction between resolve and reopen ----------

  /** The curator picks source 1's claim, source 0 comes round to it, and the curator reopens with the
      version the resolve left: source 0's old claim comes back beside its own correction, although no
      claim had lost to the winner before. */
  lemma CorrectedMeanwhile() returns (id: nat, version: nat)
    ensures var two := After([Ingestion(FIRST, false), Ingestion(DISSENT, false)]);
            id < |two.conflicts| && L.NoneLostBefore(two.claims, two.conflicts[id], 1)
    ensures var back := After([Ingestion(FIRST, false), Ingestion(DISSENT, false)] + [ResolveStep(id, version, 1)]
                              + [Ingestion(Correction(2), false)] + [ReopenStep(id, version + 1)]);
            ReportedTwice(back.claims)
  {
    hide Take, Serial, ReportedTwice, L.NoneLostBefore;
    var two;
    two, id := TwoReports();
    version := two.conflicts[id].version;
    AfterThreeMore([Ingestion(FIRST, false), Ingestion(DISSENT, false)],
                   ResolveStep(id, version, 1), Ingestion(Correction(2), false), ReopenStep(id, version + 1));
    AgreeThenReopen(two, id, version);
  }

  lemma AgreeThenReopen(two: Db, id: nat, version: nat)
    requires TwoReported(two, id) && two.conflicts[id].version == version
    ensures L.NoneLostBefore(two.claims, two.conflicts[id], 1)
    ensures var now := Take(Take(two, ResolveStep(id, version, 1)), Ingestion(Correction(2), false));
            var back := Take(now, ReopenStep(id, version + 1));
            ReportedTwice(back.claims)
  {
    hide Take, Serial, ReportedTwice;
    var now := AgreeMeanwhile(two, id);
    ReopenLeavesTwins(now, id, version + 1);
  }

  lemma AgreeMeanwhile(two: Db, id: nat) returns (now: Db)
    requires TwoReported(two, id)
    ensures now == Take(Take(two, ResolveStep(id, two.conflicts[id].version, 1)), Ingestion(Correction(2), false))
    ensures Serial(now) && now.claims == [Retire(REPORTED, 1), DISSENTING, Corrected(2)]
    ensures id < |now.conflicts| && now.conflicts[id] == Perform(two.conflicts[id], CuratorResolve(1))
  {
    hide Take, Serial;
    var resolved := Pick(two, id, 1);
    now := AgreeWithWinner(resolved, id);
  }

  lemma AgreeWithWinner(db: Db, id: nat) returns (now: Db)
    requires Serial(db) && db.claims == [Retire(REPORTED, 1), DISSENTING] && db.events == map[0 := None]
             && id < |db.conflicts|
    requires db.conflicts[id].IsOn(0, OPERATOR) && db.conflicts[id].status == Resolved
             && db.conflicts[id].winner == Some(1)
    ensures now == Take(db, Ingestion(Correction(2), false)) && Serial(now)
    ensures now.claims == [Retire(REPORTED, 1), DISSENTING, Corrected(2)]
    ensures id < |now.conflicts| && now.conflicts[id] == db.conflicts[id]
  {
    var claims := [Retire(REPORTED, 1), DISSENTING, Corrected(2)];
    CorrectionWrites(Retire(REPORTED, 1), DISSENTING, 2);
    Undisputed(claims);
    var fixed, closed := Agree(db, id, Correction(2), claims);
    now := Ingest(db, Correction(2));
    assert 1 !in W.SupersededIds(db.claims, Correction(2));
    KeptRow(db, Correction(2), id, fixed, closed);
  }

  // ---------- The winner corrected between resolve and reopen ----------

  /** The curator picks source 0's claim and source 0 corrects it: the conflict's winner moves to the
      correction, and reopening brings the corrected claim back while the loser stays superseded. */
  lemma WinnerCorrectedMeanwhile() returns (id: nat, version: nat)
    ensures var back := After([Ingestion(FIRST, false), Ingestion(DISSENT, false)] + [ResolveStep(id, version, 0)]
                              + [Ingestion(Correction(3), false)] + [ReopenStep(id, version + 2)]);
            ReportedTwice(back.claims) && !back.claims[1].IsActive()
  {
    hide Take, Serial, ReportedTwice, Perform, C.Reopen;
    var two;
    two, id := TwoReports();
    version := two.conflicts[id].version;
    AfterThreeMore([Ingestion(FIRST, false), Ingestion(DISSENT, false)],
                   ResolveStep(id, version, 0), Ingestion(Correction(3), false), ReopenStep(id, version + 2));
    var now := MoveTheWinner(two, id);
    MovedWinnerRow(two.conflicts[id]);
    ReopenLeavesTwins(now, id, version + 2);
    C.AliveAfterReopen(now, C.Reopen(now, id, version + 2).db, id, version + 2, 1);
  }

  lemma MovedWinnerRow(row: Conflict)
    requires row.status == Open && 0 in row.links
    ensures var now := Perform(Perform(row, CuratorResolve(0)), MoveWinner(2));
            now.version == row.version + 2 && now.status == Resolved && now.winner == Some(2)
            && 0 in now.links && now.IsOn(row.event, row.field)
  {
    hide Perform;
    UpdatedRow(row, CuratorResolve(0));
    UpdatedRow(Perform(row, CuratorResolve(0)), MoveWinner(2));
  }

  lemma UpdatedRow(row: Conflict, op: Op)
    ensures var now, set_ := Perform(row, op), SetColumns(row, op);
            now.version == row.version + 1 && now.status == set_.status && now.winner == set_.winner
            && now.links == row.links + NewLinks(op) && now.IsOn(row.event, row.field)
  {
  }

  lemma MoveTheWinner(two: Db, id: nat) returns (now: Db)
    requires TwoReported(two, id)
    ensures now == Take(Take(two, ResolveStep(id, two.conflicts[id].version, 0)), Ingestion(Correction(3), false))
    ensures Serial(now) && now.claims == [Retire(REPORTED, 2), Retire(DISSENTING, 0), Corrected(3)]
    ensures id < |now.conflicts|
            && now.conflicts[id] == Perform(Perform(two.conflicts[id], CuratorResolve(0)), MoveWinner(2))
  {
    hide Take, Serial;
    var resolved := Pick(two, id, 0);
    now := CorrectTheWinner(resolved, id);
  }

  lemma CorrectTheWinner(db: Db, id: nat) returns (now: Db)
    requires Serial(db) && db.claims == [REPORTED, Retire(DISSENTING, 0)] && db.events == map[0 := None]
             && id < |db.conflicts|
    requires db.conflicts[id].IsOn(0, OPERATOR) && db.conflicts[id].status == Resolved
             && db.conflicts[id].winner == Some(0)
    ensures now == Take(db, Ingestion(Correction(3), false)) && Serial(now)
    ensures now.claims == [Retire(REPORTED, 2), Retire(DISSENTING, 0), Corrected(3)]
    ensures id < |now.conflicts| && now.conflicts[id] == Perform(db.conflicts[id], MoveWinner(2))
  {
    var claims := [Retire(REPORTED, 2), Retire(DISSENTING, 0), Corrected(3)];
    CorrectionWrites(REPORTED, Retire(DISSENTING, 0), 3);
    Undisputed(claims);
    var fixed, closed := Agree(db, id, Correction(3), claims);
    now := Ingest(db, Correction(3));
    OneItem(Correction(3), OPERATOR);
    assert ActiveOn(claims, 2, 0, OPERATOR);
    assert 0 in W.SupersededIds(db.claims, Correction(3));
    MovedRow(db, Correction(3), id, fixed, closed, 2);
  }

  // ---------- An auto-closed conflict ----------

  /** Source 0 comes round to source 1's value, the conflict is closed for it, and the curator reopens it:
      the conflict is open although its evidence agrees. */
  lemma ReopenedWithoutDispute() returns (id: nat, version: nat)
    ensures var steps := [Ingestion(FIRST, false), Ingestion(DISSENT, false)] + [Ingestion(Correction(2), false)];
            var back := After(steps + [ReopenStep(id, version)]);
            Succeeds(After(steps), ReopenStep(id, version)) && OpenRowsDisagree(After(steps)) && !OpenRowsDisagree(back)
  {
    hide Take;
    var two;
    two, id := TwoReports();
    version := two.conflicts[id].version + 1;
    var steps := [Ingestion(FIRST, false), Ingestion(DISSENT, false)];
    AfterPush(steps, Ingestion(Correction(2), false));
    AfterPush(steps + [Ingestion(Correction(2), false)], ReopenStep(id, version));
    OpenConflictsAreGenuine(steps + [Ingestion(Correction(2), false)]);
    var now := CloseByAgreement(two, id);
    ReopenWithoutDispute(now, id, version);
  }

  lemma ReopenWithoutDispute(now: Db, id: nat, version: nat)
    requires Serial(now) && OpenRowsDisagree(now) && now.claims == [Retire(REPORTED, 2), DISSENTING, Corrected(2)]
    requires id < |now.conflicts| && now.conflicts[id].version == version && now.conflicts[id].status == Resolved
    requires now.conflicts[id].winner == Some(1) && now.conflicts[id].IsOn(0, OPERATOR) && now.events == map[0 := None]
    ensures Succeeds(now, ReopenStep(id, version)) && !OpenRowsDisagree(Take(now, ReopenStep(id, version)))
  {
    hide Serial, OpenRowsDisagree, Take, Succeeds, C.Reopen, AliveDisagree;
    ReopenCommits(now, id);
    ReopenKeepsGenuineIff(now, C.Reopen(now, id, version).db, id, version);
    AgreeingAlive(now.claims, now.conflicts[id]);
  }

  lemma AgreeingAlive(claims: seq<Claim>, row: Conflict)
    requires claims == [Retire(REPORTED, 2), DISSENTING, Corrected(2)] && row.winner == Some(1)
    ensures !AliveDisagree(claims, row)
  {
    forall c: nat | AliveOn(claims, row, c) ensures claims[c].value == 2 {
    }
  }

  lemma CloseByAgreement(two: Db, id: nat) returns (now: Db)
    requires TwoReported(two, id)
    ensures now == Take(two, Ingestion(Correction(2), false))
    ensures Serial(now) && now.claims == [Retire(REPORTED, 2), DISSENTING, Corrected(2)] && now.events == two.events
    ensures id < |now.conflicts| && now.conflicts[id] == Perform(two.conflicts[id], AutoClose(1))
  {
    CorrectionWrites(REPORTED, DISSENTING, 2);
    var claims := [Retire(REPORTED, 2), DISSENTING, Corrected(2)];
    Undisputed(claims);
    var fixed, closed := Agree(two, id, Correction(2), claims);
    now := Ingest(two, Correction(2));
    OneItem(Correction(2), OPERATOR);
    assert 0 in W.SupersededIds(two.claims, Correction(2));
    assert ActiveOn(claims, 1, 0, OPERATOR);
    ClosedRow(two, Correction(2), id, fixed, closed);
  }

  lemma FirstActive(claims: seq<Claim>)
    requires |claims| == 3 && !claims[0].IsActive() && ActiveOn(claims, 1, 0, OPERATOR)
    ensures ActiveIds(claims, 0, OPERATOR) != [] && ActiveIds(claims, 0, OPERATOR)[0] == 1
  {
    var ids := ActiveIds(claims, 0, OPERATOR);
    assert 1 in ids;
    assert ids[0] in ids;
  }

  // ---------- The event merged between resolve and reopen ----------

  const THREE_REPORTS := [Ingestion(FIRST, false), Ingestion(DISSENT, false)] + [Ingestion(ELSEWHERE, false)]

  /** The two reports and one on another event, which will absorb the first. */
  ghost predicate ThreeReported(three: Db, id: nat) {
    Serial(three) && three.claims == [REPORTED, DISSENTING, ELSEWHERE_REPORTED]
    && three.events == map[0 := None, 1 := None]
    && id < |three.conflicts| && three.conflicts[id].IsOpenOn(0, OPERATOR) && three.conflicts[id].links == {0, 1}
  }

  lemma ElsewhereWrites()
    ensures W.WrittenClaimByClaim([REPORTED, DISSENTING], [REPORTED, DISSENTING, ELSEWHERE_REPORTED], ELSEWHERE, ELSEWHERE.items)
  {
    OneItem(ELSEWHERE, OPERATOR);
  }

  /** An ingestion to another event leaves an open conflict alone. */
  lemma OtherEventLeavesRow(db: Db, ing: W.Ingestion, id: nat)
    requires W.Accepted(ing) && id < |db.conflicts| && db.conflicts[id].status == Open
             && db.conflicts[id].event != ing.event
    ensures id < |Ingest(db, ing).conflicts| && Ingest(db, ing).conflicts[id] == db.conflicts[id]
  {
    var fixed, closed := IngestStages(db, ing, id);
  }

  lemma ThreeReports() returns (three: Db, id: nat)
    ensures three == After(THREE_REPORTS) && ThreeReported(three, id)
  {
    hide Take, Ingest, TargetEvent, Serial, W.WrittenClaimByClaim;
    var two;
    two, id := TwoReports();
    ElsewhereWrites();
    NewEventIsTarget(two, ELSEWHERE);
    IngestOne(two, ELSEWHERE, [REPORTED, DISSENTING, ELSEWHERE_REPORTED]);
    three := Ingest(Registered(two, 1), ELSEWHERE);
    OtherEventLeavesRow(Registered(two, 1), ELSEWHERE, id);
    AfterPush([Ingestion(FIRST, false), Ingestion(DISSENT, false)], Ingestion(ELSEWHERE, false));
    assert three.events == map[0 := None, 1 := None];
  }

  lemma NewEventIsTarget(db: Db, ing: W.Ingestion)
    requires ing.event !in db.events && ing.record == None
    ensures TargetEvent(db, ing, false) == Some(ing.event)
  {
  }

  /** An event with an open conflict cannot be merged, though nothing is wrong with the two events. */
  lemma DisputedEventCannotMerge()
    ensures var three := After(THREE_REPORTS);
            G.Unmerged(three.events, 0) && G.Unmerged(three.events, 1) && !Succeeds(three, MergeStep(0, 1))
  {
    hide Take, Serial, M.Merge;
    var three, id := ThreeReports();
    M.MergeCommitsIff(three, 0, 1);
    assert M.HasOpenOn(three.conflicts, 0);
  }

  /** The curator picks source 0's claim, the event is merged away, and the curator reopens: the loser comes
      back on the absorbed event and the winner does not. No linked claim had lost to the winner before, and
      none written since is active. */
  lemma MergedMeanwhile() returns (id: nat, version: nat)
    ensures var base := After(THREE_REPORTS);
            var now := After(THREE_REPORTS + [ResolveStep(id, version, 0)] + [MergeStep(0, 1)]);
            var back := After(THREE_REPORTS + [ResolveStep(id, version, 0)] + [MergeStep(0, 1)] + [ReopenStep(id, version + 1)]);
            id < |base.conflicts| && L.NoneLostBefore(base.claims, base.conflicts[id], 0)
            && !L.Newer(now.claims, 3, 0, OPERATOR)
            && Succeeds(now, ReopenStep(id, version + 1)) && !L.FieldAsBefore(base.claims, back.claims, 0, OPERATOR)
  {
    hide Take, Serial, Succeeds, L.NoneLostBefore, L.Newer, L.FieldAsBefore;
    var three;
    three, id := ThreeReports();
    version := three.conflicts[id].version;
    AfterThreeMore(THREE_REPORTS, ResolveStep(id, version, 0), MergeStep(0, 1), ReopenStep(id, version + 1));
    AfterPush(THREE_REPORTS, ResolveStep(id, version, 0));
    AfterPush(THREE_REPORTS + [ResolveStep(id, version, 0)], MergeStep(0, 1));
    var resolved := PickAmongThree(three, id);
    NoReopenYet([ResolveStep(id, version, 0)]);
    var now := MergeAway(resolved, id);
    ReopenAbsorbed(now, id);
    NoneLostToTheFirst(three.claims, three.conflicts[id]);
  }

  lemma NoneLostToTheFirst(claims: seq<Claim>, row: Conflict)
    requires claims == [REPORTED, DISSENTING, ELSEWHERE_REPORTED]
    ensures L.NoneLostBefore(claims, row, 0)
  {
  }

  /** No step so far is a reopen, so every open conflict is genuine. */
  lemma NoReopenYet(steps: seq<Step>)
    requires forall k | 0 <= k < |steps| :: !steps[k].ReopenStep?
    ensures OpenRowsDisagree(After(THREE_REPORTS + steps))
  {
    hide Take, After;
    assert forall k | 0 <= k < |THREE_REPORTS| :: !THREE_REPORTS[k].ReopenStep?;
    OpenConflictsAreGenuine(THREE_REPORTS + steps);
  }

  lemma PickAmongThree(three: Db, id: nat) returns (resolved: Db)
    requires ThreeReported(three, id)
    ensures resolved == Take(three, ResolveStep(id, three.conflicts[id].version, 0)) && Serial(resolved)
            && resolved.events == three.events
    ensures resolved.claims == [REPORTED, Retire(DISSENTING, 0), ELSEWHERE_REPORTED]
    ensures id < |resolved.conflicts| && resolved.conflicts[id] == Perform(three.conflicts[id], CuratorResolve(0))
  {
    hide Serial, Take, Perform;
    var version := three.conflicts[id].version;
    ResolveCommits(three, id, 0);
    resolved := C.Resolve(three, id, version, 0).db;
    C.ResolveDecides(three, resolved, id, version, 0);
    TakeResolves(three, id, version, 0);
    ResolveIsSerial(three, id, version, 0);
    PickedAmongThree(three.claims);
  }

  lemma PickedAmongThree(claims: seq<Claim>)
    requires claims == [REPORTED, DISSENTING, ELSEWHERE_REPORTED]
    ensures RetireAll(claims, {0, 1} - {0}, 0) == [REPORTED, Retire(DISSENTING, 0), ELSEWHERE_REPORTED]
  {
  }

  /** Only the picked claim is active on event 0, so nothing is open there. */
  lemma NothingOpenOnZero(resolved: Db)
    requires resolved.claims == [REPORTED, Retire(DISSENTING, 0), ELSEWHERE_REPORTED] && OpenRowsDisagree(resolved)
    requires G.Unmerged(resolved.events, 0)
    ensures !M.HasOpenOn(resolved.conflicts, 0)
  {
    forall f ensures !Disagree(resolved.claims, 0, f) {
    }
  }

  lemma MergeAway(resolved: Db, id: nat) returns (now: Db)
    requires Serial(resolved) && OpenRowsDisagree(resolved) && resolved.events == map[0 := None, 1 := None]
    requires resolved.claims == [REPORTED, Retire(DISSENTING, 0), ELSEWHERE_REPORTED]
    requires id < |resolved.conflicts| && resolved.conflicts[id].event == 0
    ensures now == Take(resolved, MergeStep(0, 1)) && Serial(now)
    ensures now.claims == [Retire(REPORTED, 3), Retire(DISSENTING, 0), ELSEWHERE_REPORTED, M.Copy(REPORTED, 1)]
    ensures id < |now.conflicts| && now.conflicts[id] == resolved.conflicts[id]
  {
    hide Serial, OpenRowsDisagree, M.Merge, M.TransferredClaimByClaim;
    NothingOpenOnZero(resolved);
    M.MergeCommitsIff(resolved, 0, 1);
    M.MergeSettles(resolved, 0, 1);
    MergeMovesRow(resolved, 0, 1, id);
    now := M.Merge(resolved, 0, 1).db;
    OneClaimMoves(resolved.claims, now.claims);
  }

  lemma OneClaimMoves(before: seq<Claim>, after: seq<Claim>)
    requires before == [REPORTED, Retire(DISSENTING, 0), ELSEWHERE_REPORTED]
             && M.TransferredClaimByClaim(before, after, 0, 1)
    ensures after == [Retire(REPORTED, 3), Retire(DISSENTING, 0), ELSEWHERE_REPORTED, M.Copy(REPORTED, 1)]
  {
    assert before[..2][..1] == [REPORTED] && [REPORTED][..0] == [];
    assert M.ActiveOf([REPORTED], 0) == [0];
    assert M.ActiveOf(before[..2], 0) == [0];
    assert M.ActiveOf(before, 0) == [0];
  }

  lemma ReopenAbsorbed(now: Db, id: nat)
    requires Serial(now)
             && now.claims == [Retire(REPORTED, 3), Retire(DISSENTING, 0), ELSEWHERE_REPORTED, M.Copy(REPORTED, 1)]
    requires id < |now.conflicts| && now.conflicts[id].status == Resolved && now.conflicts[id].winner == Some(0)
    ensures Succeeds(now, ReopenStep(id, now.conflicts[id].version)) && !L.Newer(now.claims, 3, 0, OPERATOR)
    ensures var back := Take(now, ReopenStep(id, now.conflicts[id].version));
            !L.FieldAsBefore([REPORTED, DISSENTING, ELSEWHERE_REPORTED], back.claims, 0, OPERATOR)
  {
    hide Serial, Take, Succeeds, C.Reopen;
    ReopenCommits(now, id);
    var back := C.Reopen(now, id, now.conflicts[id].version).db;
    C.AliveAfterReopen(now, back, id, now.conflicts[id].version, 0);
    assert ActiveOn([REPORTED, DISSENTING, ELSEWHERE_REPORTED], 0, 0, OPERATOR)
    && !ActiveOn(back.claims, 0, 0, OPERATOR);
  }
}
