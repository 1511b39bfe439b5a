/**
 What reopening a conflict restores, however much has happened since it was decided: any serial run of
 ingestions, of event merges and of curator steps on other conflicts may lie between the decision and
 the reopen.
 */
module LaterReopens {
  import opened Optional
  import opened Evidence
  import opened ClaimLedger
  import opened ConflictRows
  import opened Reconciler
  import opened SerialRuns
  import opened EvidenceRuns
  import opened FieldHistory
  import G = MergeGraph
  import M = EventMerges
  import W = ClaimWriting
  import C = Curation

  /** The step is no curator's step on this conflict. */
  predicate Spares(step: Step, id: nat) {
    match step
    case ResolveStep(other, _, _) => other != id
    case OverrideStep(other, _, _, _) => other != id
    case ReopenStep(other, _) => other != id
    case _ => true
  }

  function TakeAll(db: Db, steps: seq<Step>): Db {
    if steps == [] then db else Take(TakeAll(db, steps[..|steps| - 1]), steps[|steps| - 1])
  }

  // ---------- What stays true since the decision ----------

  /** The row moved only forward, and was linked since only to claims that are newer or were active. */
  ghost predicate RowSince(was: Db, row: Conflict, now: Conflict) {
    now.IsOn(row.event, row.field) && row.links <= now.links && (now == row || now.version > row.version)
    && forall c | c in now.links && c !in row.links && c < |was.claims| :: was.claims[c].IsActive()
  }

  ghost predicate Since(was: Db, now: Db, id: nat)
    requires id < |was.conflicts|
  {
    var row := was.conflicts[id];
    id < |now.conflicts| && RowSince(was, row, now.conflicts[id])
    && FieldMoved(was.claims, now.claims, row.event, row.field) && HomesKept(was, now)
  }

  lemma SinceNothing(was: Db, id: nat)
    requires id < |was.conflicts|
    ensures Since(was, was, id)
  {
  }

  /** What one step does to the conflict and its field. */
  ghost predicate Stepped(now: Db, after: Db, id: nat)
    requires id < |now.conflicts|
  {
    var row := now.conflicts[id];
    id < |after.conflicts| && RowMoved(after.claims, row, after.conflicts[id])
    && FieldMoved(now.claims, after.claims, row.event, row.field)
  }

  lemma SteppedSince(was: Db, now: Db, after: Db, id: nat)
    requires id < |was.conflicts| && Since(was, now, id) && Stepped(now, after, id) && HomesKept(now, after)
    requires LinksFit(after.claims, was.conflicts[id].event, was.conflicts[id].field, after.conflicts[id].links)
    ensures Since(was, after, id)
  {
    hide HomesKept;
    var row := was.conflicts[id];
    HomesKeptTwice(was, now, after);
    FieldMovedTwice(was.claims, now.claims, after.claims, row.event, row.field);
    forall c | c in after.conflicts[id].links && c !in row.links && c < |was.claims| ensures was.claims[c].IsActive() {
      if c !in now.conflicts[id].links {
        assert after.claims[c].IsActive() && after.claims[c].SameAssertion(was.claims[c]);
      }
    }
  }

  // ---------- Single steps ----------

  lemma OtherRowOtherField(db: Db, id: nat, other: nat)
    requires Serial(db) && id < |db.conflicts| && other < |db.conflicts| && other != id
    ensures !db.conflicts[other].IsOn(db.conflicts[id].event, db.conflicts[id].field)
    ensures SerialRow(db.events, db.claims, db.conflicts[other])
  {
  }

  /** A curator's step elsewhere: rows and claims of the field are untouched. */
  ghost predicate Elsewhere(now: Db, after: Db, id: nat, e: nat, f: FieldName) {
    id < |now.conflicts| && id < |after.conflicts| && after.conflicts[id] == now.conflicts[id]
    && after.events == now.events && |now.claims| <= |after.claims|
    && (forall c | 0 <= c < |now.claims| :: after.claims[c].SameAssertion(now.claims[c]))
    && (forall c | 0 <= c < |after.claims| && after.claims[c].IsOn(e, f) :: c < |now.claims| && after.claims[c] == now.claims[c])
  }

  lemma ResolveElsewhere(db: Db, id: nat, other: nat, expected: nat, winner: nat)
    requires Serial(db) && id < |db.conflicts| && other != id && C.Resolve(db, other, expected, winner).Committed?
    ensures Elsewhere(db, C.Resolve(db, other, expected, winner).db, id, db.conflicts[id].event, db.conflicts[id].field)
  {
    hide Serial;
    OtherRowOtherField(db, id, other);
  }

  lemma OverrideElsewhere(db: Db, id: nat, other: nat, expected: nat, source: nat, value: int)
    requires Serial(db) && id < |db.conflicts| && other != id
             && C.Override(db, other, expected, source, value).Committed?
    ensures Elsewhere(db, C.Override(db, other, expected, source, value).db, id, db.conflicts[id].event, db.conflicts[id].field)
  {
    hide Serial;
    OtherRowOtherField(db, id, other);
  }

  lemma ReopenElsewhere(db: Db, id: nat, other: nat, expected: nat)
    requires Serial(db) && id < |db.conflicts| && other != id && C.Reopen(db, other, expected).Committed?
    ensures Elsewhere(db, C.Reopen(db, other, expected).db, id, db.conflicts[id].event, db.conflicts[id].field)
  {
    hide Serial;
    OtherRowOtherField(db, id, other);
  }

  lemma CuratorStepElsewhere(db: Db, step: Step, id: nat)
    requires Serial(db) && Spares(step, id) && id < |db.conflicts| && Succeeds(db, step) && !EndsInDetection(step)
    ensures Elsewhere(db, Take(db, step), id, db.conflicts[id].event, db.conflicts[id].field)
  {
    hide Serial, Elsewhere, C.Resolve, C.Override, C.Reopen;
    match step {
      case ResolveStep(other, expected, w) => ResolveElsewhere(db, id, other, expected, w);
      case OverrideStep(other, expected, source, value) => OverrideElsewhere(db, id, other, expected, source, value);
      case ReopenStep(other, expected) => ReopenElsewhere(db, id, other, expected);
    }
  }

  lemma ElsewhereSteps(now: Db, after: Db, id: nat)
    requires id < |now.conflicts| && Elsewhere(now, after, id, now.conflicts[id].event, now.conflicts[id].field)
    ensures Stepped(now, after, id)
  {
    var e, f := now.conflicts[id].event, now.conflicts[id].field;
    forall c: nat | c < |now.claims| && now.claims[c].IsOn(e, f) ensures after.claims[c] == now.claims[c] {
      assert after.claims[c].SameAssertion(now.claims[c]);
    }
  }

  lemma IngestSteps(now: Db, ing: W.Ingestion, e: nat, id: nat)
    requires W.Accepted(ing) && id < |now.conflicts|
    ensures Stepped(now, IngestInto(now, ing, e), id)
  {
    var known, routed := Registered(now, e), ing.(event := e);
    W.WriteItemsClaimByClaim(known, routed, routed.items);
    WritingMovesField(now.claims, Ingest(known, routed).claims, routed, now.conflicts[id].event,
                      now.conflicts[id].field);
    IngestMovesRow(known, routed, id);
  }

  lemma MergeSteps(now: Db, source: nat, target: nat, id: nat)
    requires Serial(now) && M.Merge(now, source, target).Committed? && id < |now.conflicts|
    ensures Stepped(now, M.Merge(now, source, target).db, id)
  {
    hide Serial, M.Merge, M.TransferredClaimByClaim;
    M.MergeSettles(now, source, target);
    TransferMovesField(now.claims, M.Merge(now, source, target).db.claims, source, target, now.conflicts[id].event,
                       now.conflicts[id].field);
    MergeMovesRow(now, source, target, id);
  }

  lemma TakeSteps(now: Db, step: Step, id: nat)
    requires Serial(now) && Spares(step, id) && id < |now.conflicts|
    ensures Stepped(now, Take(now, step), id)
  {
    hide Serial, Stepped, Elsewhere, IngestInto, TargetEvent, M.Merge, C.Resolve, C.Override, C.Reopen;
    if !Succeeds(now, step) {
      NoStep(now, id);
    } else {
      match step {
        case Ingestion(ing, explicitEvent) => IngestSteps(now, ing, TargetEvent(now, ing, explicitEvent).value, id);
        case MergeStep(source, target) => MergeSteps(now, source, target, id);
        case _ =>
          CuratorStepElsewhere(now, step, id);
          ElsewhereSteps(now, Take(now, step), id);
      }
    }
  }

  lemma NoStep(now: Db, id: nat)
    requires id < |now.conflicts|
    ensures Stepped(now, now, id)
  {
  }

  lemma TakeKeepsSince(was: Db, now: Db, step: Step, id: nat)
    requires Serial(now) && Spares(step, id) && id < |was.conflicts| && Since(was, now, id)
    ensures Serial(Take(now, step)) && Since(was, Take(now, step), id)
  {
    hide Serial, Take, HomesKept;
    TakeSteps(now, step, id);
    TakeKeepsHomes(now, step);
    TakeIsSerial(now, step);
    SerialRowOf(Take(now, step), id);
    SteppedSince(was, now, Take(now, step), id);
  }

  // ---------- While the event is not absorbed ----------

  /** An active claim of the field was written after the first n claims. */
  ghost predicate Newer(claims: seq<Claim>, n: nat, e: nat, f: FieldName) {
    exists c: nat :: c >= n && ActiveOn(claims, c, e, f)
  }

  /** A newer claim is active, or nothing happened to the field and its conflict was at most opened. */
  ghost predicate NewerOrUndisturbed(was: Db, now: Db, id: nat)
    requires id < |was.conflicts|
  {
    var row := was.conflicts[id];
    Newer(now.claims, |was.claims|, row.event, row.field)
    || (FieldKept(was.claims, now.claims, row.event, row.field)
        && id < |now.conflicts| && Undisturbed(now.claims, row, now.conflicts[id]))
  }

  ghost predicate LiveSince(was: Db, now: Db, id: nat)
    requires id < |was.conflicts|
  {
    !G.Absorbed(now.events, was.conflicts[id].event) ==> NewerOrUndisturbed(was, now, id)
  }

  lemma WritingIsNewer(before: seq<Claim>, after: seq<Claim>, ing: W.Ingestion, n: nat, e: nat, f: FieldName)
    requires Wrote(before, after, ing) && !Skips(ing, e, f) && n <= |before|
    ensures Newer(after, n, e, f)
  {
    var i := W.ItemFor(ing.items, f).value;
    NewClaimWritten(before, after, ing, i);
    assert ActiveOn(after, |before| + i, e, f);
  }

  lemma NewerStays(g: G.Graph, before: seq<Claim>, after: seq<Claim>, ing: W.Ingestion, n: nat, e: nat, f: FieldName)
    requires Wrote(before, after, ing) && ScopeOnEvent(g, before, ing) && !G.Absorbed(g, e) && Skips(ing, e, f)
             && Newer(before, n, e, f)
    ensures Newer(after, n, e, f)
  {
    var c: nat :| c >= n && ActiveOn(before, c, e, f);
    OldClaimWritten(before, after, ing, c);
    SkippingKeepsClaim(g, before, after, ing, e, f, c);
    assert ActiveOn(after, c, e, f);
  }

  lemma FieldKeptTwice(a: seq<Claim>, b: seq<Claim>, c: seq<Claim>, e: nat, f: FieldName)
    requires FieldKept(a, b, e, f) && FieldKept(b, c, e, f)
    ensures FieldKept(a, c, e, f)
  {
  }

  lemma IngestKeepsLive(was: Db, now: Db, ing: W.Ingestion, id: nat)
    requires Serial(now) && W.Accepted(ing) && ScopeOnEvent(now.events, now.claims, ing) && |was.claims| <= |now.claims|
    requires id < |was.conflicts| && id < |now.conflicts| && was.conflicts[id].status == Resolved
    requires !G.Absorbed(now.events, was.conflicts[id].event) && NewerOrUndisturbed(was, now, id)
    ensures NewerOrUndisturbed(was, Ingest(now, ing), id)
  {
    hide Serial, ScopeOnEvent, FieldKept, Undisturbed;
    var row, after := was.conflicts[id], Ingest(now, ing);
    W.WriteItemsClaimByClaim(now, ing, ing.items);
    if !Skips(ing, row.event, row.field) {
      WritingIsNewer(now.claims, after.claims, ing, |was.claims|, row.event, row.field);
    } else if Newer(now.claims, |was.claims|, row.event, row.field) {
      NewerStays(now.events, now.claims, after.claims, ing, |was.claims|, row.event, row.field);
    } else {
      SkippingKeepsField(now.events, now.claims, after.claims, ing, row.event, row.field);
      FieldKeptTwice(was.claims, now.claims, after.claims, row.event, row.field);
      SkippingLeavesRow(now, ing, id, row);
    }
  }

  lemma ElsewhereKeepsLive(was: Db, now: Db, after: Db, id: nat)
    requires id < |was.conflicts| && Elsewhere(now, after, id, was.conflicts[id].event, was.conflicts[id].field)
    requires NewerOrUndisturbed(was, now, id)
    ensures NewerOrUndisturbed(was, after, id)
  {
    var row := was.conflicts[id];
    var e, f := row.event, row.field;
    assert FieldKept(now.claims, after.claims, e, f);
    if Newer(now.claims, |was.claims|, e, f) {
      var c: nat :| c >= |was.claims| && ActiveOn(now.claims, c, e, f);
      assert after.claims[c].SameAssertion(now.claims[c]);
      assert ActiveOn(after.claims, c, e, f);
    } else {
      FieldKeptTwice(was.claims, now.claims, after.claims, e, f);
      if now.conflicts[id] != row {
        KeptFieldStillDisagrees(now.claims, after.claims, e, f);
      }
    }
  }

  /** A merge into the conflict's event, or past it. */
  lemma TransferKeepsNewer(before: seq<Claim>, after: seq<Claim>, source: nat, target: nat, n: nat, e: nat,
                           f: FieldName)
    requires M.TransferredClaimByClaim(before, after, source, target) && e != source && n <= |before|
    ensures Newer(before, n, e, f) ==> Newer(after, n, e, f)
    ensures Newer(after, n, e, f) || FieldKept(before, after, e, f)
  {
    hide M.TransferredClaimByClaim;
    M.TransferGrows(before, after, source, target);
    if Newer(before, n, e, f) {
      var c: nat :| c >= n && ActiveOn(before, c, e, f);
      M.TransferredClaim(before, after, source, target, c);
      assert ActiveOn(after, c, e, f);
    } else if !FieldKept(before, after, e, f) {
      var c: nat :| c < |after| && after[c].IsOn(e, f) && !(c < |before| && after[c] == before[c]);
      M.TransferredClaim(before, after, source, target, c);
      assert ActiveOn(after, c, e, f);
    }
  }

  lemma MergeKeepsLive(was: Db, now: Db, source: nat, target: nat, id: nat)
    requires Serial(now) && M.Merge(now, source, target).Committed? && |was.claims| <= |now.claims|
    requires id < |was.conflicts| && was.conflicts[id].status == Resolved && was.conflicts[id].event != source
    requires NewerOrUndisturbed(was, now, id)
    ensures NewerOrUndisturbed(was, M.Merge(now, source, target).db, id)
  {
    hide Serial, M.Merge, FieldKept, M.TransferredClaimByClaim;
    var after, row := M.Merge(now, source, target).db, was.conflicts[id];
    var e, f := row.event, row.field;
    M.MergeSettles(now, source, target);
    TransferKeepsNewer(now.claims, after.claims, source, target, |was.claims|, e, f);
    if !Newer(after.claims, |was.claims|, e, f) {
      FieldKeptTwice(was.claims, now.claims, after.claims, e, f);
      MergeMovesRow(now, source, target, id);
      DetectionIsDispute(after.claims, target, f);
      if now.conflicts[id].status == Open {
        M.TransferKeepsDisagreement(now.claims, after.claims, source, target, e, f);
      }
    }
  }

  lemma TakeKeepsLive(was: Db, now: Db, step: Step, id: nat)
    requires Serial(now) && Spares(step, id) && id < |was.conflicts| && was.conflicts[id].status == Resolved
    requires Since(was, now, id) && LiveSince(was, now, id)
    ensures LiveSince(was, Take(now, step), id)
  {
    hide Serial, NewerOrUndisturbed, Ingest, M.Merge, C.Resolve, C.Override, C.Reopen, Elsewhere, ScopeOnEvent, TargetEvent;
    if Succeeds(now, step) {
      match step {
        case Ingestion(ing, explicitEvent) =>
          IngestStepKeepsLive(was, now, ing, explicitEvent, id);
        case MergeStep(source, target) =>
          MergeStepKeepsLive(was, now, source, target, id);
        case _ =>
          CuratorStepElsewhere(now, step, id);
          SameEvents(now, Take(now, step), id, was.conflicts[id].event, was.conflicts[id].field);
          if !G.Absorbed(now.events, was.conflicts[id].event) {
            ElsewhereKeepsLive(was, now, Take(now, step), id);
          }
      }
    }
  }

  lemma SameEvents(now: Db, after: Db, id: nat, e: nat, f: FieldName)
    requires Elsewhere(now, after, id, e, f)
    ensures after.events == now.events
  {
  }

  lemma IngestStepKeepsLive(was: Db, now: Db, ing: W.Ingestion, explicitEvent: bool, id: nat)
    requires Serial(now) && W.Accepted(ing) && TargetEvent(now, ing, explicitEvent).Some?
    requires id < |was.conflicts| && was.conflicts[id].status == Resolved && Since(was, now, id)
             && LiveSince(was, now, id)
    ensures LiveSince(was, IngestInto(now, ing, TargetEvent(now, ing, explicitEvent).value), id)
  {
    hide Serial, NewerOrUndisturbed, Ingest, ScopeOnEvent, TargetEvent;
    var e := TargetEvent(now, ing, explicitEvent).value;
    ContinuityScopesTheWrite(now, ing, explicitEvent);
    IngestSettles(Registered(now, e), ing.(event := e));
    var row := was.conflicts[id];
    if !G.Absorbed(IngestInto(now, ing, e).events, row.event) {
      assert !G.Absorbed(now.events, row.event);
      RegisteringKeepsLive(was, now, e, id);
      IngestKeepsLive(was, Registered(now, e), ing.(event := e), id);
    }
  }

  lemma RegisteringKeepsLive(was: Db, now: Db, e: nat, id: nat)
    requires id < |was.conflicts| && NewerOrUndisturbed(was, now, id)
    ensures NewerOrUndisturbed(was, Registered(now, e), id)
  {
  }

  lemma MergeStepKeepsLive(was: Db, now: Db, source: nat, target: nat, id: nat)
    requires Serial(now) && M.Merge(now, source, target).Committed?
    requires id < |was.conflicts| && was.conflicts[id].status == Resolved && Since(was, now, id)
             && LiveSince(was, now, id)
    ensures LiveSince(was, M.Merge(now, source, target).db, id)
  {
    hide Serial, M.Merge, NewerOrUndisturbed;
    var row := was.conflicts[id];
    M.MergeCommitsIff(now, source, target);
    M.MergeSettles(now, source, target);
    if !G.Absorbed(M.Merge(now, source, target).db.events, row.event) {
      MergeKeepsLive(was, now, source, target, id);
    }
  }

  // ---------- Once the event is absorbed ----------

  /** When the event was absorbed since, none of its claims for the field is active. */
  ghost predicate EmptiedSince(was: Db, now: Db, id: nat)
    requires id < |was.conflicts|
  {
    var row := was.conflicts[id];
    !G.Absorbed(was.events, row.event) && G.Absorbed(now.events, row.event) ==> !HasActive(now.claims, row.event, row.field)
  }

  lemma WritingKeepsEmpty(before: seq<Claim>, after: seq<Claim>, ing: W.Ingestion, e: nat, f: FieldName)
    requires Wrote(before, after, ing) && ing.event != e && !HasActive(before, e, f)
    ensures !HasActive(after, e, f)
  {
    forall c: nat ensures !ActiveOn(after, c, e, f) {
      assert !ActiveOn(before, c, e, f);
      if c < |before| {
        OldClaimWritten(before, after, ing, c);
      } else if c < |after| {
        NewClaimWritten(before, after, ing, c - |before|);
      }
    }
  }

  lemma IngestKeepsEmpty(now: Db, ing: W.Ingestion, explicitEvent: bool, e: nat, f: FieldName)
    requires Serial(now) && W.Accepted(ing) && TargetEvent(now, ing, explicitEvent).Some?
    requires G.Absorbed(now.events, e) && !HasActive(now.claims, e, f)
    ensures !HasActive(IngestInto(now, ing, TargetEvent(now, ing, explicitEvent).value).claims, e, f)
  {
    hide Serial, TargetEvent, HasActive, ScopeOnEvent;
    var target := TargetEvent(now, ing, explicitEvent).value;
    ContinuityScopesTheWrite(now, ing, explicitEvent);
    var known, routed := Registered(now, target), ing.(event := target);
    W.WriteItemsClaimByClaim(known, routed, routed.items);
    WritingKeepsEmpty(now.claims, Ingest(known, routed).claims, routed, e, f);
  }

  lemma MergeEmpties(now: Db, source: nat, target: nat, e: nat, f: FieldName)
    requires Serial(now) && M.Merge(now, source, target).Committed?
    requires e == source || (G.Absorbed(now.events, e) && !HasActive(now.claims, e, f))
    ensures !HasActive(M.Merge(now, source, target).db.claims, e, f)
  {
    hide Serial, M.Merge, M.TransferredClaimByClaim;
    M.MergeCommitsIff(now, source, target);
    M.MergeSettles(now, source, target);
    var after := M.Merge(now, source, target).db.claims;
    forall c: nat ensures !ActiveOn(after, c, e, f) {
      assert e == source || !ActiveOn(now.claims, c, e, f);
      if c < |after| {
        M.TransferredClaim(now.claims, after, source, target, c);
      }
    }
  }

  lemma ElsewhereKeepsEmpty(now: Db, after: Db, id: nat, e: nat, f: FieldName)
    requires Elsewhere(now, after, id, e, f) && !HasActive(now.claims, e, f)
    ensures !HasActive(after.claims, e, f)
  {
    forall c: nat ensures !ActiveOn(after.claims, c, e, f) {
      assert !ActiveOn(now.claims, c, e, f);
    }
  }

  lemma TakeKeepsEmptied(was: Db, now: Db, step: Step, id: nat)
    requires Serial(now) && Spares(step, id) && id < |was.conflicts| && Since(was, now, id)
             && EmptiedSince(was, now, id)
    ensures EmptiedSince(was, Take(now, step), id)
  {
    hide Serial, IngestInto, TargetEvent, M.Merge, C.Resolve, C.Override, C.Reopen, Elsewhere, HasActive;
    var row := was.conflicts[id];
    if Succeeds(now, step) && !G.Absorbed(was.events, row.event) && G.Absorbed(Take(now, step).events, row.event) {
      match step {
        case Ingestion(ing, explicitEvent) =>
          IngestAbsorbsNothing(now, ing, explicitEvent, row.event);
          IngestKeepsEmpty(now, ing, explicitEvent, row.event, row.field);
        case MergeStep(source, target) =>
          M.MergeSettles(now, source, target);
          MergeEmpties(now, source, target, row.event, row.field);
        case _ =>
          CuratorStepElsewhere(now, step, id);
          SameEvents(now, Take(now, step), id, row.event, row.field);
          ElsewhereKeepsEmpty(now, Take(now, step), id, row.event, row.field);
      }
    }
  }

  lemma IngestAbsorbsNothing(now: Db, ing: W.Ingestion, explicitEvent: bool, e: nat)
    requires Serial(now) && W.Accepted(ing) && TargetEvent(now, ing, explicitEvent).Some?
    ensures G.Absorbed(IngestInto(now, ing, TargetEvent(now, ing, explicitEvent).value).events, e) <==>
              G.Absorbed(now.events, e)
  {
    hide Serial, TargetEvent, Ingest;
    var target := TargetEvent(now, ing, explicitEvent).value;
    ContinuityScopesTheWrite(now, ing, explicitEvent);
    IngestSettles(Registered(now, target), ing.(event := target));
  }

  // ---------- Runs ----------

  predicate AllSpare(steps: seq<Step>, id: nat) {
    forall k | 0 <= k < |steps| :: Spares(steps[k], id)
  }

  lemma {:induction false} RunKeepsSince(was: Db, steps: seq<Step>, id: nat)
    requires Serial(was) && AllSpare(steps, id) && id < |was.conflicts| && was.conflicts[id].status == Resolved
    ensures var now := TakeAll(was, steps);
            Serial(now) && Since(was, now, id) && LiveSince(was, now, id)
            && EmptiedSince(was, now, id)
  {
    hide Serial, Since, LiveSince, EmptiedSince, Take;
    if steps == [] {
      SinceNothing(was, id);
      StillLive(was, id);
    } else {
      var n := |steps| - 1;
      RunKeepsSince(was, steps[..n], id);
      TakeKeepsSince(was, TakeAll(was, steps[..n]), steps[n], id);
      TakeKeepsLive(was, TakeAll(was, steps[..n]), steps[n], id);
      TakeKeepsEmptied(was, TakeAll(was, steps[..n]), steps[n], id);
    }
  }

  lemma StillLive(was: Db, id: nat)
    requires id < |was.conflicts|
    ensures LiveSince(was, was, id) && EmptiedSince(was, was, id)
  {
  }

  /** Over any run, no claim's type is lost: what it is, or would be restored to, never changes. */
  lemma {:induction false} RunKeepsHomes(db: Db, steps: seq<Step>)
    requires Serial(db)
    ensures Serial(TakeAll(db, steps)) && HomesKept(db, TakeAll(db, steps))
  {
    hide Serial, HomesKept, Take;
    if steps == [] {
      SameClaimsKeepHomes(db);
    } else {
      var n := |steps| - 1;
      RunKeepsHomes(db, steps[..n]);
      TakeIsSerial(TakeAll(db, steps[..n]), steps[n]);
      TakeKeepsHomes(TakeAll(db, steps[..n]), steps[n]);
      HomesKeptTwice(db, TakeAll(db, steps[..n]), TakeAll(db, steps));
    }
  }

  lemma SameClaimsKeepHomes(db: Db)
    ensures HomesKept(db, db)
  {
  }

  // ---------- The theorems ----------

  /** A reopen at a later moment: the conflict was decided on `base`, a run that spares it followed, and
      now it is reopened. */
  ghost predicate Reopened(base: Db, decided: Db, steps: seq<Step>, id: nat, winner: nat, expected: nat, back: Db) {
    PointersMatchTypes(base.claims) && Serial(decided) && C.Decided(base, decided, id, winner) && AllSpare(steps, id)
    && C.Reopen(TakeAll(decided, steps), id, expected) == C.Committed(back)
  }

  /** The same without the run: what the theorems use of it. */
  ghost predicate ReopenedSince(base: Db, decided: Db, now: Db, id: nat, winner: nat, back: Db) {
    PointersMatchTypes(base.claims) && C.Decided(base, decided, id, winner)
    && SerialRow(decided.events, decided.claims, decided.conflicts[id])
    && Since(decided, now, id) && LiveSince(decided, now, id) && EmptiedSince(decided, now, id)
    && Serial(now) && now.conflicts[id].status == Resolved && |back.claims| == |now.claims| && Revived(now, back, id)
  }

  /** Every claim asserts what it did, and is active if it was or is about to be revived. */
  ghost predicate Revived(now: Db, back: Db, id: nat)
    requires id < |now.conflicts| && |back.claims| == |now.claims|
  {
    PointersMatchTypes(back.claims) && HomesKept(now, back)
    && forall c: nat | c < |now.claims| ::
         back.claims[c].SameAssertion(now.claims[c])
         && (back.claims[c].IsActive() <==> C.ComesAlive(now.claims, now.conflicts[id], c))
  }

  lemma ReopenedAfterRun(base: Db, decided: Db, steps: seq<Step>, id: nat, winner: nat, expected: nat, back: Db)
    requires Reopened(base, decided, steps, id, winner, expected, back)
    ensures ReopenedSince(base, decided, TakeAll(decided, steps), id, winner, back)
  {
    hide Serial, Since, LiveSince, EmptiedSince, HomesKept;
    var now := TakeAll(decided, steps);
    RunKeepsSince(decided, steps, id);
    SerialRowOf(decided, id);
    C.ReopenWrites(now, back, id, expected);
    ReopenIsSerial(now, id, expected);
    SerialByParts(back);
    ReopenKeepsHomes(now, id, expected);
    forall c: nat | c < |now.claims|
      ensures back.claims[c].SameAssertion(now.claims[c])
              && (back.claims[c].IsActive() <==> C.ComesAlive(now.claims, now.conflicts[id], c))
    {
      C.AliveAfterReopen(now, back, id, expected, c);
    }
  }

  /** A reopen with the version the decision left is committed exactly as long as the conflict's row is
      the one the decision left. */
  lemma ReopenCommitsIff(base: Db, decided: Db, steps: seq<Step>, id: nat, winner: nat)
    requires Serial(decided) && C.Decided(base, decided, id, winner) && AllSpare(steps, id)
    ensures var now, row := TakeAll(decided, steps), decided.conflicts[id];
            id < |now.conflicts| && (C.Reopen(now, id, row.version).Committed? <==> now.conflicts[id] == row)
  {
    RunKeepsSince(decided, steps, id);
    OneRowImpliesOneOpen(TakeAll(decided, steps).conflicts);
  }

  lemma OneRowImpliesOneOpen(conflicts: seq<Conflict>)
    requires OneRowPerField(conflicts)
    ensures forall id: nat | id < |conflicts| :: !OtherOpen(conflicts, id)
  {
  }

  // ---------- Claim by claim ----------

  lemma DecisionKeepsHomes(base: Db, decided: Db, id: nat, winner: nat)
    requires C.Decided(base, decided, id, winner)
    ensures HomesKept(base, decided)
  {
    var losers := decided.conflicts[id].links - {winner};
    SupersedingKeepsHomes(base, losers, winner);
    SameClaimsSameHomes(base, Supersede(base, losers, winner), decided);
  }

  /** A claim that is active both before the decision and after the reopen is exactly the same. */
  lemma SameWhenActive(base: Db, decided: Db, now: Db, id: nat, winner: nat, back: Db, c: nat)
    requires ReopenedSince(base, decided, now, id, winner, back)
    requires c < |base.claims| && c < |back.claims| && base.claims[c].IsActive() && back.claims[c].IsActive()
    ensures back.claims[c] == base.claims[c]
  {
    hide Serial, LiveSince, EmptiedSince, SerialRow, RowSince, C.ComesAlive, RetireRows, RestoredType;
    DecisionKeepsHomes(base, decided, id, winner);
    assert HomeType(base, c) == HomeType(decided, c) == HomeType(now, c) == HomeType(back, c);
    assert back.claims[c].SameAssertion(now.claims[c]) && now.claims[c].SameAssertion(decided.claims[c]);
  }

  /** Whoever points at the winner did so when it was decided, and was linked then if it is now. */
  lemma LosersOfTheWinner(base: Db, decided: Db, now: Db, id: nat, winner: nat, back: Db, c: nat)
    requires ReopenedSince(base, decided, now, id, winner, back) && now.conflicts[id].winner == Some(winner)
    ensures c in C.LosersOf(now.claims, now.conflicts[id]) <==>
            c in decided.conflicts[id].links && c < |decided.claims| && decided.claims[c].supersededBy == Some(winner)
  {
    hide Serial, HomesKept, LiveSince, EmptiedSince, SerialRow, Revived;
    var row := decided.conflicts[id];
    LinksOnField(base, decided, now, id, winner, back);
    if c in C.LosersOf(now.claims, now.conflicts[id]) {
      assert now.claims[c].IsOn(row.event, row.field) && now.claims[c].supersededBy == Some(winner);
      assert c < |decided.claims| ==> now.claims[c].SameAssertion(decided.claims[c]);
    }
  }

  lemma LinksOnField(base: Db, decided: Db, now: Db, id: nat, winner: nat, back: Db)
    requires ReopenedSince(base, decided, now, id, winner, back)
    ensures LinksFit(decided.claims, decided.conflicts[id].event, decided.conflicts[id].field, decided.conflicts[id].links)
    ensures PointersMatchTypes(now.claims)
  {
  }

  /** A claim the decision superseded is exactly as it was before the decision if and only if the conflict
      still has that winner; if the winner has been moved since, the claim stays superseded. */
  lemma LoserComesBackIff(base: Db, decided: Db, steps: seq<Step>, id: nat, winner: nat, expected: nat, back: Db,
                          c: nat)
    requires Reopened(base, decided, steps, id, winner, expected, back)
    requires c in decided.conflicts[id].links && c != winner && base.claims[c].IsActive()
    ensures id < |TakeAll(decided, steps).conflicts| && c < |back.claims|
    ensures back.claims[c] == if TakeAll(decided, steps).conflicts[id].winner == Some(winner) then base.claims[c]
                              else decided.claims[c]
    ensures base.claims[c] != decided.claims[c]
  {
    var now := TakeAll(decided, steps);
    ReopenedAfterRun(base, decided, steps, id, winner, expected, back);
    C.ReopenWrites(now, back, id, expected);
    LostClaimStaysLost(base, decided, now, id, winner, back, c);
    if now.conflicts[id].winner == Some(winner) {
      LosersOfTheWinner(base, decided, now, id, winner, back, c);
      SameWhenActive(base, decided, now, id, winner, back, c);
    }
  }

  lemma LostClaimStaysLost(base: Db, decided: Db, now: Db, id: nat, winner: nat, back: Db, c: nat)
    requires ReopenedSince(base, decided, now, id, winner, back)
    requires c in decided.conflicts[id].links && c != winner && base.claims[c].IsActive()
    ensures c < |decided.claims| && c < |now.claims|
            && now.claims[c] == decided.claims[c] == Retire(base.claims[c], winner)
  {
    hide Serial, LiveSince, EmptiedSince, Revived, HomesKept;
    LinksOnField(base, decided, now, id, winner, back);
  }

  // ---------- The dispute ----------

  /** The active claims of the field are those before the decision, each exactly as it was. */
  ghost predicate FieldAsBefore(base: seq<Claim>, back: seq<Claim>, e: nat, f: FieldName) {
    forall c: nat :: (ActiveOn(back, c, e, f) <==> ActiveOn(base, c, e, f)) && (ActiveOn(back, c, e, f) ==> back[c] == base[c])
  }

  /** The claims alive after the reopen are those active before the decision. */
  ghost predicate SameAlive(base: seq<Claim>, now: seq<Claim>, row: Conflict) {
    forall c: nat :: AliveOn(now, row, c) <==> ActiveOn(base, c, row.event, row.field)
  }

  /** No linked claim had lost to the winner before it was chosen. */
  ghost predicate NoneLostBefore(base: seq<Claim>, row: Conflict, winner: nat) {
    forall c | c in row.links && c < |base| :: base[c].supersededBy != Some(winner)
  }

  /** No claim of the field that the decision left active has been superseded since. */
  ghost predicate NoneLostSince(decided: seq<Claim>, now: seq<Claim>, e: nat, f: FieldName) {
    forall c: nat :: ActiveOn(decided, c, e, f) ==> ActiveOn(now, c, e, f)
  }

  lemma AsBeforeIffSameAlive(base: Db, decided: Db, now: Db, id: nat, winner: nat, back: Db)
    requires ReopenedSince(base, decided, now, id, winner, back)
    ensures var row := decided.conflicts[id];
            FieldAsBefore(base.claims, back.claims, row.event, row.field)
            <==> SameAlive(base.claims, now.claims, now.conflicts[id])
  {
    hide Serial, HomesKept, LiveSince, EmptiedSince, SerialRow;
    var row := decided.conflicts[id];
    forall c: nat
      ensures ActiveOn(back.claims, c, row.event, row.field) <==> AliveOn(now.claims, now.conflicts[id], c)
      ensures ActiveOn(back.claims, c, row.event, row.field) && ActiveOn(base.claims, c, row.event, row.field) ==>
                back.claims[c] == base.claims[c]
    {
      if c < |back.claims| {
        assert back.claims[c].SameAssertion(now.claims[c]);
        if c < |base.claims| && back.claims[c].IsActive() && base.claims[c].IsActive() {
          SameWhenActive(base, decided, now, id, winner, back, c);
        }
      }
    }
  }

  /** Who is alive on the field when the winner has not been moved. */
  lemma AliveWithTheWinner(base: Db, decided: Db, now: Db, id: nat, winner: nat, back: Db, c: nat)
    requires ReopenedSince(base, decided, now, id, winner, back) && now.conflicts[id].winner == Some(winner)
    ensures var row := decided.conflicts[id];
            AliveOn(now.claims, now.conflicts[id], c) <==>
            ActiveOn(now.claims, c, row.event, row.field)
            || (c in row.links && c < |decided.claims| && decided.claims[c].supersededBy == Some(winner))
  {
    hide Serial, HomesKept, LiveSince, EmptiedSince, SerialRow, Revived;
    LosersOfTheWinner(base, decided, now, id, winner, back, c);
    LinksOnField(base, decided, now, id, winner, back);
    if c in decided.conflicts[id].links {
      assert now.claims[c].SameAssertion(decided.claims[c]);
    }
  }

  /** Who was active on the field before the decision. */
  lemma ActiveBefore(base: Db, decided: Db, now: Db, id: nat, winner: nat, back: Db, c: nat)
    requires ReopenedSince(base, decided, now, id, winner, back)
    ensures var row := decided.conflicts[id];
            ActiveOn(base.claims, c, row.event, row.field) <==>
            ActiveOn(decided.claims, c, row.event, row.field)
            || (c in row.links && c < |base.claims| && c != winner && base.claims[c].IsActive())
    ensures c in decided.conflicts[id].links ==>
              c < |base.claims| == |decided.claims|
              && (decided.claims[c].supersededBy == Some(winner) <==>
                  (c != winner && base.claims[c].IsActive()) || base.claims[c].supersededBy == Some(winner))
  {
    hide Serial, Since, LiveSince, EmptiedSince, Revived;
    LinksOnField(base, decided, now, id, winner, back);
  }

  lemma ActiveNow(base: Db, decided: Db, now: Db, id: nat, winner: nat, back: Db, c: nat)
    requires ReopenedSince(base, decided, now, id, winner, back)
    ensures var row := decided.conflicts[id];
            ActiveOn(now.claims, c, row.event, row.field) && c < |decided.claims| ==>
              ActiveOn(decided.claims, c, row.event, row.field)
  {
    hide Serial, LiveSince, EmptiedSince, Revived, SerialRow, HomesKept, C.Decided, RowSince;
    if c < |decided.claims| {
      assert now.claims[c].SameAssertion(decided.claims[c]);
    }
  }

  lemma AliveIffActiveBefore(base: Db, decided: Db, now: Db, id: nat, winner: nat, back: Db, c: nat)
    requires ReopenedSince(base, decided, now, id, winner, back) && now.conflicts[id].winner == Some(winner)
    requires var row := decided.conflicts[id];
             NoneLostBefore(base.claims, row, winner) && !Newer(now.claims, |decided.claims|, row.event, row.field)
             && NoneLostSince(decided.claims, now.claims, row.event, row.field)
    ensures AliveOn(now.claims, now.conflicts[id], c) <==>
            ActiveOn(base.claims, c, decided.conflicts[id].event, decided.conflicts[id].field)
  {
    AliveWithTheWinner(base, decided, now, id, winner, back, c);
    ActiveBefore(base, decided, now, id, winner, back, c);
    ActiveNow(base, decided, now, id, winner, back, c);
    hide ReopenedSince, AliveOn;
  }

  /** Where one of the conditions fails, a claim is alive that was not active, or the reverse. */
  lemma NotSameAlive(base: Db, decided: Db, now: Db, id: nat, winner: nat, back: Db, c: nat)
    requires ReopenedSince(base, decided, now, id, winner, back) && now.conflicts[id].winner == Some(winner)
    requires var row := decided.conflicts[id];
             (c in row.links && c < |base.claims| && base.claims[c].supersededBy == Some(winner))
             || (c >= |decided.claims| && ActiveOn(now.claims, c, row.event, row.field))
             || (ActiveOn(decided.claims, c, row.event, row.field) && !ActiveOn(now.claims, c, row.event, row.field))
    ensures !(AliveOn(now.claims, now.conflicts[id], c) <==>
              ActiveOn(base.claims, c, decided.conflicts[id].event, decided.conflicts[id].field))
  {
    AliveWithTheWinner(base, decided, now, id, winner, back, c);
    ActiveBefore(base, decided, now, id, winner, back, c);
    PointersBefore(base, decided, now, id, winner, back, c);
    hide ReopenedSince, AliveOn;
  }

  lemma PointersBefore(base: Db, decided: Db, now: Db, id: nat, winner: nat, back: Db, c: nat)
    requires ReopenedSince(base, decided, now, id, winner, back)
    ensures |base.claims| == |decided.claims|
    ensures c < |base.claims| && base.claims[c].supersededBy.Some? ==> !base.claims[c].IsActive()
    ensures c < |decided.claims| && decided.claims[c].supersededBy.Some? ==> !decided.claims[c].IsActive()
  {
    hide Serial, Since, LiveSince, EmptiedSince, Revived, SerialRow;
  }

  lemma SameAliveMeansUndisturbed(base: Db, decided: Db, now: Db, id: nat, winner: nat, back: Db)
    requires ReopenedSince(base, decided, now, id, winner, back) && now.conflicts[id].winner == Some(winner)
    requires SameAlive(base.claims, now.claims, now.conflicts[id])
    ensures var row := decided.conflicts[id];
            NoneLostBefore(base.claims, row, winner) && !Newer(now.claims, |decided.claims|, row.event, row.field)
            && NoneLostSince(decided.claims, now.claims, row.event, row.field)
  {
    SameField(base, decided, now, id, winner, back);
    hide ReopenedSince, AliveOn, ActiveOn;
    var row := decided.conflicts[id];
    var e, f := row.event, row.field;
    if c: nat :| c in row.links && c < |base.claims| && base.claims[c].supersededBy == Some(winner) {
      NotSameAlive(base, decided, now, id, winner, back, c);
    } else if c: nat :| c >= |decided.claims| && ActiveOn(now.claims, c, e, f) {
      NotSameAlive(base, decided, now, id, winner, back, c);
    } else if c: nat :| ActiveOn(decided.claims, c, e, f) && !ActiveOn(now.claims, c, e, f) {
      NotSameAlive(base, decided, now, id, winner, back, c);
    }
  }

  lemma SameField(base: Db, decided: Db, now: Db, id: nat, winner: nat, back: Db)
    requires ReopenedSince(base, decided, now, id, winner, back)
    ensures id < |decided.conflicts| && id < |now.conflicts|
    ensures now.conflicts[id].IsOn(decided.conflicts[id].event, decided.conflicts[id].field)
  {
  }

  lemma SameAliveWithTheWinnerIff(base: Db, decided: Db, now: Db, id: nat, winner: nat, back: Db)
    requires ReopenedSince(base, decided, now, id, winner, back) && now.conflicts[id].winner == Some(winner)
    ensures var row := decided.conflicts[id];
            SameAlive(base.claims, now.claims, now.conflicts[id])
            <==> NoneLostBefore(base.claims, row, winner) && !Newer(now.claims, |decided.claims|, row.event, row.field)
                 && NoneLostSince(decided.claims, now.claims, row.event, row.field)
  {
    SameField(base, decided, now, id, winner, back);
    hide ReopenedSince, AliveOn, ActiveOn, NoneLostBefore, Newer, NoneLostSince;
    var row := decided.conflicts[id];
    if SameAlive(base.claims, now.claims, now.conflicts[id]) {
      SameAliveMeansUndisturbed(base, decided, now, id, winner, back);
    } else if NoneLostBefore(base.claims, row, winner) && !Newer(now.claims, |decided.claims|, row.event, row.field)
              && NoneLostSince(decided.claims, now.claims, row.event, row.field) {
      forall c: nat ensures AliveOn(now.claims, now.conflicts[id], c) <==> ActiveOn(base.claims, c, row.event, row.field) {
        AliveIffActiveBefore(base, decided, now, id, winner, back, c);
      }
    }
  }

  /** The decision superseded a claim: there was a dispute to restore. */
  ghost predicate BeatAClaim(base: seq<Claim>, row: Conflict, winner: nat) {
    exists c :: c in row.links && c != winner && c < |base| && base[c].IsActive()
  }

  lemma NewerIsAlive(base: Db, decided: Db, now: Db, id: nat, winner: nat, back: Db)
    requires ReopenedSince(base, decided, now, id, winner, back)
    requires Newer(now.claims, |decided.claims|, decided.conflicts[id].event, decided.conflicts[id].field)
    ensures !SameAlive(base.claims, now.claims, now.conflicts[id])
  {
    hide Serial, HomesKept, LiveSince, EmptiedSince, SerialRow, Revived;
    var row := decided.conflicts[id];
    var c: nat :| c >= |decided.claims| && ActiveOn(now.claims, c, row.event, row.field);
    assert AliveOn(now.claims, now.conflicts[id], c);
  }

  lemma MovedWinnerIsNewer(base: Db, decided: Db, now: Db, id: nat, winner: nat, back: Db)
    requires ReopenedSince(base, decided, now, id, winner, back) && now.conflicts[id].winner != Some(winner)
    ensures var row := decided.conflicts[id];
            G.Absorbed(now.events, row.event) || Newer(now.claims, |decided.claims|, row.event, row.field)
  {
    hide Serial, HomesKept, EmptiedSince, SerialRow, Revived;
  }

  lemma LoserOfAnother(claims: seq<Claim>, row: Conflict, winner: nat, c: nat)
    requires c < |claims| && !claims[c].IsActive() && claims[c].supersededBy == Some(winner)
             && row.winner != Some(winner)
    ensures !AliveOn(claims, row, c)
  {
  }

  lemma MovedWinnerLosesDispute(base: Db, decided: Db, now: Db, id: nat, winner: nat, back: Db)
    requires ReopenedSince(base, decided, now, id, winner, back) && now.conflicts[id].winner != Some(winner)
    requires BeatAClaim(base.claims, decided.conflicts[id], winner)
    ensures !SameAlive(base.claims, now.claims, now.conflicts[id])
  {
    SameField(base, decided, now, id, winner, back);
    hide ReopenedSince, ActiveOn;
    var row := decided.conflicts[id];
    var c :| c in row.links && c != winner && c < |base.claims| && base.claims[c].IsActive();
    LostClaimStaysLost(base, decided, now, id, winner, back, c);
    ActiveBefore(base, decided, now, id, winner, back, c);
    LoserOfAnother(now.claims, now.conflicts[id], winner, c);
  }

  /** Once the winner was moved, only a decision that beat nobody can look undone, and only on an event that
      has been absorbed. */
  lemma SameAliveWithoutTheWinner(base: Db, decided: Db, now: Db, id: nat, winner: nat, back: Db)
    requires ReopenedSince(base, decided, now, id, winner, back) && now.conflicts[id].winner != Some(winner)
    requires SameAlive(base.claims, now.claims, now.conflicts[id])
    ensures G.Absorbed(now.events, decided.conflicts[id].event)
            && !BeatAClaim(base.claims, decided.conflicts[id], winner)
  {
    SameField(base, decided, now, id, winner, back);
    hide ReopenedSince, SameAlive, BeatAClaim, Newer;
    MovedWinnerIsNewer(base, decided, now, id, winner, back);
    if Newer(now.claims, |decided.claims|, decided.conflicts[id].event, decided.conflicts[id].field) {
      NewerIsAlive(base, decided, now, id, winner, back);
      assert false;
    }
    if BeatAClaim(base.claims, decided.conflicts[id], winner) {
      MovedWinnerLosesDispute(base, decided, now, id, winner, back);
      assert false;
    }
  }

  /** What a reopen restores, in all cases. While the conflict still has the winner it was decided for: the
      dispute exactly if and only if no linked claim had lost to that winner before the decision, no claim
      of the field written since is active, and none the decision left active has been superseded since.
      Once the winner was moved: if and only if the event has been absorbed, the decision beat nobody, and
      the claims that are active or have lost to the new winner are those active before the decision. */
  lemma DisputeComesBackIff(base: Db, decided: Db, steps: seq<Step>, id: nat, winner: nat, expected: nat, back: Db)
    requires Reopened(base, decided, steps, id, winner, expected, back)
    ensures id < |TakeAll(decided, steps).conflicts|
    ensures var row, now := decided.conflicts[id], TakeAll(decided, steps);
            FieldAsBefore(base.claims, back.claims, row.event, row.field)
            <==> if now.conflicts[id].winner == Some(winner)
                 then NoneLostBefore(base.claims, row, winner)
                      && !Newer(now.claims, |decided.claims|, row.event, row.field)
                      && NoneLostSince(decided.claims, now.claims, row.event, row.field)
                 else G.Absorbed(now.events, row.event) && !BeatAClaim(base.claims, row, winner)
                      && SameAlive(base.claims, now.claims, now.conflicts[id])
  {
    hide SameAlive, FieldAsBefore, NoneLostBefore, NoneLostSince, Newer, BeatAClaim;
    var now := TakeAll(decided, steps);
    ReopenedAfterRun(base, decided, steps, id, winner, expected, back);
    AsBeforeIffSameAlive(base, decided, now, id, winner, back);
    if now.conflicts[id].winner == Some(winner) {
      SameAliveWithTheWinnerIff(base, decided, now, id, winner, back);
    } else if SameAlive(base.claims, now.claims, now.conflicts[id]) {
      SameAliveWithoutTheWinner(base, decided, now, id, winner, back);
    }
  }

  /** For a decision on an event not absorbed then: the dispute is restored exactly if and only if the event
      has not been absorbed since, no linked claim had lost to the winner before, and no claim of the field
      written since is active. (A decision that beat nobody may look restored on an absorbed event.) */
  lemma LiveDisputeComesBackIff(base: Db, decided: Db, steps: seq<Step>, id: nat, winner: nat, expected: nat, back: Db)
    requires Reopened(base, decided, steps, id, winner, expected, back)
             && !G.Absorbed(decided.events, decided.conflicts[id].event)
    requires BeatAClaim(base.claims, decided.conflicts[id], winner)
             || !G.Absorbed(TakeAll(decided, steps).events, decided.conflicts[id].event)
    ensures var row, now := decided.conflicts[id], TakeAll(decided, steps);
            FieldAsBefore(base.claims, back.claims, row.event, row.field)
            <==> !G.Absorbed(now.events, row.event) && NoneLostBefore(base.claims, row, winner)
                 && !Newer(now.claims, |decided.claims|, row.event, row.field)
  {
    hide SameAlive, FieldAsBefore, NoneLostBefore, NoneLostSince, Newer, BeatAClaim, Reopened;
    var now := TakeAll(decided, steps);
    ReopenedAfterRun(base, decided, steps, id, winner, expected, back);
    AsBeforeIffSameAlive(base, decided, now, id, winner, back);
    if now.conflicts[id].winner == Some(winner) {
      SameAliveWithTheWinnerIff(base, decided, now, id, winner, back);
      LostSinceIff(base, decided, now, id, winner, back);
    } else {
      MovedWinnerIsNewer(base, decided, now, id, winner, back);
      if SameAlive(base.claims, now.claims, now.conflicts[id]) {
        SameAliveWithoutTheWinner(base, decided, now, id, winner, back);
        assert false;
      }
    }
  }

  /** With the winner in place, a claim was superseded since exactly when the event was absorbed, unless a
      newer claim is active. */
  lemma LostSinceIff(base: Db, decided: Db, now: Db, id: nat, winner: nat, back: Db)
    requires ReopenedSince(base, decided, now, id, winner, back)
             && !G.Absorbed(decided.events, decided.conflicts[id].event)
    ensures var row := decided.conflicts[id];
            Newer(now.claims, |decided.claims|, row.event, row.field)
            || (NoneLostSince(decided.claims, now.claims, row.event, row.field) <==> !G.Absorbed(now.events, row.event))
  {
    hide Serial, Revived, HomesKept, RowSince, RetireAll, RetireRows;
    var row := decided.conflicts[id];
    assert ActiveOn(decided.claims, winner, row.event, row.field);
    if G.Absorbed(now.events, row.event) {
      assert !ActiveOn(now.claims, winner, row.event, row.field);
    } else if !Newer(now.claims, |decided.claims|, row.event, row.field) {
      assert FieldKept(decided.claims, now.claims, row.event, row.field);
      forall c: nat | ActiveOn(decided.claims, c, row.event, row.field) ensures ActiveOn(now.claims, c, row.event, row.field) {
        assert now.claims[c].SameAssertion(decided.claims[c]);
      }
    }
  }

  lemma DecisionOnRow(row: Conflict, op: Op)
    ensures Perform(row, op).links == row.links + NewLinks(op) && Perform(row, op).IsOn(row.event, row.field)
  {
  }

  lemma PointersInRun(db: Db)
    requires Serial(db)
    ensures PointersMatchTypes(db.claims)
  {
  }

  lemma ResolveThenReopen(db: Db, resolved: Db, steps: seq<Step>, id: nat, expected: nat, winner: nat, later: nat,
                          back: Db)
    requires Serial(db) && C.Resolve(db, id, expected, winner) == C.Committed(resolved) && AllSpare(steps, id)
    requires C.Reopen(TakeAll(resolved, steps), id, later) == C.Committed(back)
    ensures Reopened(db, resolved, steps, id, winner, later, back) && resolved.events == db.events
            && |resolved.claims| == |db.claims|
    ensures id < |db.conflicts| && id < |resolved.conflicts| && resolved.conflicts[id].links == db.conflicts[id].links
    ensures resolved.conflicts[id].IsOn(db.conflicts[id].event, db.conflicts[id].field)
  {
    hide Serial, TakeAll, C.Reopen, PointersMatchTypes, Perform, RetireRows;
    C.ResolveDecides(db, resolved, id, expected, winner);
    ResolveIsSerial(db, id, expected, winner);
    PointersInRun(db);
    DecisionOnRow(db.conflicts[id], CuratorResolve(winner));
  }

  /** After a resolve of a conflict whose event is not absorbed. */
  lemma ResolvedDisputeComesBackIff(db: Db, resolved: Db, steps: seq<Step>, id: nat, expected: nat, winner: nat,
                                    later: nat, back: Db)
    requires Serial(db) && C.Resolve(db, id, expected, winner) == C.Committed(resolved) && AllSpare(steps, id)
    requires C.Reopen(TakeAll(resolved, steps), id, later) == C.Committed(back)
    requires id < |db.conflicts| && !G.Absorbed(db.events, db.conflicts[id].event)
    requires BeatAClaim(db.claims, db.conflicts[id], winner)
             || !G.Absorbed(TakeAll(resolved, steps).events, db.conflicts[id].event)
    ensures var row, now := db.conflicts[id], TakeAll(resolved, steps);
            FieldAsBefore(db.claims, back.claims, row.event, row.field)
            <==> !G.Absorbed(now.events, row.event) && NoneLostBefore(db.claims, row, winner)
                 && !Newer(now.claims, |db.claims|, row.event, row.field)
  {
    hide Serial, FieldAsBefore, NoneLostBefore, Newer, BeatAClaim, Take, AllSpare, C.Reopen, C.Resolve, Reopened;
    ResolveThenReopen(db, resolved, steps, id, expected, winner, later, back);
    SameLinks(db.claims, db.conflicts[id], resolved.conflicts[id], winner);
    LiveDisputeComesBackIff(db, resolved, steps, id, winner, later, back);
  }

  lemma SameLinks(claims: seq<Claim>, a: Conflict, b: Conflict, winner: nat)
    requires a.links == b.links
    ensures BeatAClaim(claims, a, winner) <==> BeatAClaim(claims, b, winner)
    ensures NoneLostBefore(claims, a, winner) <==> NoneLostBefore(claims, b, winner)
  {
  }

  lemma OverrideThenReopen(db: Db, resolved: Db, steps: seq<Step>, id: nat, expected: nat, source: nat, value: int,
                           later: nat, back: Db)
    requires Serial(db) && C.Override(db, id, expected, source, value) == C.Committed(resolved) && AllSpare(steps, id)
    requires C.Reopen(TakeAll(resolved, steps), id, later) == C.Committed(back)
    ensures id < |db.conflicts| && id < |resolved.conflicts|
            && resolved.conflicts[id].links == db.conflicts[id].links + {|db.claims|}
    ensures var added := AddClaim(db, C.OverrideClaim(db.conflicts[id], source, value));
            Reopened(added, resolved, steps, id, |db.claims|, later, back)
            && NoneLostBefore(added.claims, resolved.conflicts[id], |db.claims|)
            && (BeatAClaim(db.claims, db.conflicts[id], |db.claims|) ==>
                  BeatAClaim(added.claims, resolved.conflicts[id], |db.claims|))
    ensures resolved.events == db.events && |resolved.claims| == |db.claims| + 1
    ensures resolved.conflicts[id].IsOn(db.conflicts[id].event, db.conflicts[id].field)
  {
    hide Serial, TakeAll, C.Reopen, PointersMatchTypes, NoneLostBefore, BeatAClaim, Perform, RetireRows, C.Decided;
    PointersInRun(db);
    LinksFitInRun(db, id);
    C.OverrideDecides(db, resolved, id, expected, source, value);
    OverrideIsSerial(db, id, expected, source, value);
    DecisionOnRow(db.conflicts[id], CuratorOverride(|db.claims|));
    AddedClaimIsNew(db.claims, C.OverrideClaim(db.conflicts[id], source, value), db.conflicts[id],
                    resolved.conflicts[id]);
  }

  /** After a manual override: the dispute is as it was, the override beside it. */
  lemma OverriddenDisputeComesBackIff(db: Db, resolved: Db, steps: seq<Step>, id: nat, expected: nat, source: nat,
                                      value: int,
                                      later: nat, back: Db)
    requires Serial(db) && C.Override(db, id, expected, source, value) == C.Committed(resolved) && AllSpare(steps, id)
    requires C.Reopen(TakeAll(resolved, steps), id, later) == C.Committed(back)
    requires id < |db.conflicts| && !G.Absorbed(db.events, db.conflicts[id].event)
    requires BeatAClaim(db.claims, db.conflicts[id], |db.claims|)
             || !G.Absorbed(TakeAll(resolved, steps).events, db.conflicts[id].event)
    ensures var row, now := db.conflicts[id], TakeAll(resolved, steps);
            FieldAsBefore(db.claims + [C.OverrideClaim(row, source, value)], back.claims, row.event, row.field)
            <==> !G.Absorbed(now.events, row.event) && !Newer(now.claims, |db.claims| + 1, row.event, row.field)
  {
    hide Serial, FieldAsBefore, NoneLostBefore, Newer, BeatAClaim, Take, AllSpare, C.Reopen, C.Override, Reopened;
    OverrideThenReopen(db, resolved, steps, id, expected, source, value, later, back);
    var added := AddClaim(db, C.OverrideClaim(db.conflicts[id], source, value));
    LiveDisputeComesBackIff(added, resolved, steps, id, |db.claims|, later, back);
  }

  /** Nobody has lost to a claim that was not there. */
  lemma AddedClaimIsNew(claims: seq<Claim>, entered: Claim, a: Conflict, b: Conflict)
    requires PointersMatchTypes(claims) && entered.IsActive() && entered.supersededBy == None
    requires b.links == a.links + {|claims|}
    ensures PointersMatchTypes(claims + [entered]) && NoneLostBefore(claims + [entered], b, |claims|)
    ensures BeatAClaim(claims, a, |claims|) ==> BeatAClaim(claims + [entered], b, |claims|)
  {
    if c :| c in a.links && c != |claims| && c < |claims| && claims[c].IsActive() {
      assert (claims + [entered])[c].IsActive();
    }
  }
}
