/**
 Whole serial runs from the empty tables: ingestions, each routed by source-record continuity,
 curator resolves, overrides and reopens, and merges of events, each committed before the next begins.
 */
module EvidenceRuns {
  import opened Optional
  import opened Evidence
  import opened ClaimLedger
  import opened ConflictRows
  import opened Reconciler
  import opened SerialRuns
  import G = MergeGraph
  import M = EventMerges
  import W = ClaimWriting
  import C = Curation

  datatype Step =
    | Ingestion(ing: W.Ingestion, explicitEvent: bool)
    | ResolveStep(id: nat, expected: nat, winner: nat)
    | OverrideStep(id: nat, expected: nat, source: nat, value: int)
    | ReopenStep(id: nat, expected: nat)
    | MergeStep(source: nat, target: nat)

  /** The latest claim of a source record. */
  ghost predicate LatestOf(claims: seq<Claim>, source: nat, record: Option<RecordId>, i: nat) {
    record.Some? && i < |claims| && claims[i].source == source && claims[i].record == record
    && forall j | i < j < |claims| :: !(claims[j].source == source && claims[j].record == record)
  }

  /** find_latest_event_id_by_source_record_id: the event of the record's latest claim. */
  function PriorEvent(claims: seq<Claim>, source: nat, record: Option<RecordId>): (r: Option<nat>)
    ensures r.Some? ==> exists i: nat :: LatestOf(claims, source, record, i) && claims[i].event == r.value
    ensures r.None? && record.Some? ==>
              forall i | 0 <= i < |claims| :: !(claims[i].source == source && claims[i].record == record)
  {
    if claims == [] || record == None then None
    else
      var n := |claims| - 1;
      if claims[n].source == source && claims[n].record == record then
        assert LatestOf(claims, source, record, n);
        Some(claims[n].event)
      else
        var r := PriorEvent(claims[..n], source, record);
        assert forall i | 0 <= i < n :: claims[..n][i] == claims[i];
        assert forall i: nat :: LatestOf(claims[..n], source, record, i) ==> LatestOf(claims, source, record, i);
        r
  }

  /** The event an ingestion is written to: the one the record's own event leads to when it has one, and a
      mismatch with an explicitly named other event is an error, as is naming an event that is absent or
      absorbed. `ing.event` is the event the caller named, or the one identity resolution chose, which is
      new or not absorbed. */
  function TargetEvent(db: Db, ing: W.Ingestion, explicitEvent: bool): Option<nat> {
    if if explicitEvent then !G.Unmerged(db.events, ing.event) else G.Absorbed(db.events, ing.event) then None
    else
      match G.Continued(db.events, PriorEvent(db.claims, ing.source, ing.record), if explicitEvent then Some(ing.event) else None)
      case Err(_) => None
      case Ok(None) => Some(ing.event)
      case Ok(Some(owner)) => Some(owner)
  }

  /** Where an ingestion is written, by reachability: to event `e` exactly when the event named is `e` and unmerged,
      or none is named and the one chosen is not absorbed; and when the record's latest claim, if it has one, leads
      to `e`, or, if it has none, `e` is the event named or chosen. */
  lemma RoutedIff(db: Db, ing: W.Ingestion, explicitEvent: bool, e: nat)
    ensures TargetEvent(db, ing, explicitEvent) == Some(e) <==>
            (if explicitEvent then G.Unmerged(db.events, ing.event) && ing.event == e
             else !G.Absorbed(db.events, ing.event))
            && ((forall i: nat :: !LatestOf(db.claims, ing.source, ing.record, i)) ==> ing.event == e)
            && (forall i: nat | LatestOf(db.claims, ing.source, ing.record, i) ::
                  G.Unmerged(db.events, e) && G.Reaches(db.events, db.claims[i].event, e))
  {
    var prior := PriorEvent(db.claims, ing.source, ing.record);
    if prior.Some? {
      var i: nat :| LatestOf(db.claims, ing.source, ing.record, i) && db.claims[i].event == prior.value;
      assert forall j: nat :: LatestOf(db.claims, ing.source, ing.record, j) ==> j == i;
      G.ContinuityIsReachability(db.events, prior.value, if explicitEvent then Some(ing.event) else None);
    }
  }

  /** A submission that names an event is never written to another; and it is accepted for that event if and
      only if the event is unmerged and the record is new or its latest claim leads there. */
  lemma NamedEventIsKept(db: Db, ing: W.Ingestion)
    ensures TargetEvent(db, ing, true).Some? ==> TargetEvent(db, ing, true).value == ing.event
    ensures TargetEvent(db, ing, true).Some? <==>
            G.Unmerged(db.events, ing.event)
            && forall i: nat | LatestOf(db.claims, ing.source, ing.record, i) ::
                 G.Reaches(db.events, db.claims[i].event, ing.event)
  {
    RoutedIff(db, ing, true, ing.event);
    var target := TargetEvent(db, ing, true);
    if target.Some? {
      RoutedIff(db, ing, true, target.value);
    }
  }

  /** An event that identity resolution has to create first. */
  function Registered(db: Db, e: nat): Db {
    db.(events := G.Grow(db.events, G.Created(e)))
  }

  function IngestInto(db: Db, ing: W.Ingestion, e: nat): Db
    requires W.Accepted(ing)
  {
    Ingest(Registered(db, e), ing.(event := e))
  }

  predicate Succeeds(db: Db, step: Step) {
    match step
    case Ingestion(ing, explicitEvent) => W.Accepted(ing) && TargetEvent(db, ing, explicitEvent).Some?
    case ResolveStep(id, expected, winner) => C.Resolve(db, id, expected, winner).Committed?
    case OverrideStep(id, expected, source, value) => C.Override(db, id, expected, source, value).Committed?
    case ReopenStep(id, expected) => C.Reopen(db, id, expected).Committed?
    case MergeStep(source, target) => M.Merge(db, source, target).Committed?
  }

  /** The tables after one step; a step that fails is rolled back. */
  function Take(db: Db, step: Step): Db {
    if !Succeeds(db, step) then db
    else
      match step
      case Ingestion(ing, explicitEvent) => IngestInto(db, ing, TargetEvent(db, ing, explicitEvent).value)
      case ResolveStep(id, expected, winner) => C.Resolve(db, id, expected, winner).db
      case OverrideStep(id, expected, source, value) => C.Override(db, id, expected, source, value).db
      case ReopenStep(id, expected) => C.Reopen(db, id, expected).db
      case MergeStep(source, target) => M.Merge(db, source, target).db
  }

  function After(steps: seq<Step>): Db {
    if steps == [] then EMPTY_DB
    else Take(After(steps[..|steps| - 1]), steps[|steps| - 1])
  }

  /** The claims after a committed ingestion: those of its write, to the event it was routed to. */
  lemma IngestionWrites(db: Db, ing: W.Ingestion, explicitEvent: bool)
    requires Succeeds(db, Ingestion(ing, explicitEvent))
    ensures exists e: nat :: TargetEvent(db, ing, explicitEvent) == Some(e) && (explicitEvent ==> e == ing.event)
                             && W.WrittenInColumns(db.claims, Take(db, Ingestion(ing, explicitEvent)).claims, ing.(event := e))
  {
    var e := TargetEvent(db, ing, explicitEvent).value;
    if explicitEvent {
      NamedEventIsKept(db, ing);
    }
    W.WriteMeans(Registered(db, e), ing.(event := e));
  }

  // ---------- Curator steps keep the invariants ----------

  /** Superseding linked claims of one row, whose winner stays, disturbs no other row. */
  lemma RetiringLosersKeepsRows(g: G.Graph, claims: seq<Claim>, conflicts: seq<Conflict>, id: nat, losers: set<nat>,
                                winner: nat, e: nat, f: FieldName)
    requires SerialRows(g, claims, conflicts) && OneRowPerField(conflicts) && id < |conflicts|
             && conflicts[id].IsOn(e, f)
    requires LinksFit(claims, e, f, losers) && winner !in losers
    requires conflicts[id].status == Resolved ==> conflicts[id].winner == Some(winner)
    ensures SerialRows(g, RetireAll(claims, losers, winner), conflicts)
  {
    var after := RetireAll(claims, losers, winner);
    forall i | 0 <= i < |conflicts| ensures SerialRow(g, after, conflicts[i]) {
      assert SerialRow(g, claims, conflicts[i]);
      if conflicts[i].status == Resolved && i != id {
        var w := conflicts[i].winner.value;
        assert claims[w].IsOn(conflicts[i].event, conflicts[i].field);
        assert !conflicts[i].IsOn(conflicts[id].event, conflicts[id].field);
      }
    }
  }

  lemma ReplacingRowKeepsTable(g: G.Graph, claims: seq<Claim>, conflicts: seq<Conflict>, id: nat, row: Conflict)
    requires SerialRows(g, claims, conflicts) && OneRowPerField(conflicts) && id < |conflicts|
    requires row.IsOn(conflicts[id].event, conflicts[id].field) && SerialRow(g, claims, row)
    ensures SerialRows(g, claims, conflicts[id := row]) && OneRowPerField(conflicts[id := row])
  {
    var after := conflicts[id := row];
    forall i: nat, j: nat | i < |after| && j < |after| && after[j].IsOn(after[i].event, after[i].field) ensures i == j {
      assert conflicts[j].IsOn(conflicts[i].event, conflicts[i].field);
    }
  }

  lemma RetiringKeepsClaims(g: G.Graph, claims: seq<Claim>, ids: set<nat>, winner: nat)
    requires ClaimsFit(g, claims) && winner < |claims|
    ensures ClaimsFit(g, RetireAll(claims, ids, winner))
  {
    hide G.Walk;
  }

  lemma AddingKeepsClaims(g: G.Graph, claims: seq<Claim>, c: Claim)
    requires ClaimsFit(g, claims) && c.IsActive() && c.supersededBy == None && c.event in g && c.record == None
    ensures ClaimsFit(g, claims + [c])
  {
    hide G.Walk;
  }

  lemma ResolveIsSerial(db: Db, id: nat, expected: nat, winner: nat)
    requires Serial(db) && C.Resolve(db, id, expected, winner).Committed?
    ensures Serial(C.Resolve(db, id, expected, winner).db)
  {
    hide Serial, ClaimsFit, RetireAll, G.Forest;
    var after := C.Resolve(db, id, expected, winner).db;
    SerialByParts(db);
    SerialByParts(after);
    var row := Perform(db.conflicts[id], CuratorResolve(winner));
    var losers := db.conflicts[id].links - {winner};
    assert SerialRow(db.events, db.claims, db.conflicts[id]);
    ReplacingRowKeepsTable(db.events, db.claims, db.conflicts, id, row);
    RetiringKeepsClaims(db.events, db.claims, losers, winner);
    RetiringLosersKeepsRows(db.events, db.claims, db.conflicts[id := row], id, losers, winner, row.event, row.field);
  }

  lemma AddingKeepsRows(g: G.Graph, claims: seq<Claim>, conflicts: seq<Conflict>, c: Claim)
    requires SerialRows(g, claims, conflicts)
    ensures SerialRows(g, claims + [c], conflicts)
  {
    forall i | 0 <= i < |conflicts| ensures SerialRow(g, claims + [c], conflicts[i]) {
      assert SerialRow(g, claims, conflicts[i]);
    }
  }

  lemma OverrideIsSerial(db: Db, id: nat, expected: nat, source: nat, value: int)
    requires Serial(db) && C.Override(db, id, expected, source, value).Committed?
    ensures Serial(C.Override(db, id, expected, source, value).db)
  {
    hide Serial, ClaimsFit, RetireAll, G.Forest;
    var after := C.Override(db, id, expected, source, value).db;
    SerialByParts(db);
    SerialByParts(after);
    var row, winner := Perform(db.conflicts[id], CuratorOverride(|db.claims|)), |db.claims|;
    var entered := C.OverrideClaim(db.conflicts[id], source, value);
    var added := db.claims + [entered];
    assert SerialRow(db.events, db.claims, db.conflicts[id]);
    AddingKeepsRows(db.events, db.claims, db.conflicts, entered);
    AddingKeepsClaims(db.events, db.claims, entered);
    OverriddenRowIsSerial(db.events, db.claims, db.conflicts[id], entered);
    ReplacingRowKeepsTable(db.events, added, db.conflicts, id, row);
    RetiringKeepsClaims(db.events, added, db.conflicts[id].links, winner);
    RetiringLosersKeepsRows(db.events, added, db.conflicts[id := row], id, db.conflicts[id].links, winner, row.event,
                            row.field);
  }

  lemma OverriddenRowIsSerial(g: G.Graph, claims: seq<Claim>, row: Conflict, entered: Claim)
    requires SerialRow(g, claims, row) && entered.IsActive() && entered.IsOn(row.event, row.field)
    ensures SerialRow(g, claims + [entered], Perform(row, CuratorOverride(|claims|)))
    ensures LinksFit(claims + [entered], row.event, row.field, row.links) && |claims| !in row.links
  {
  }

  lemma RevivingKeepsRows(g: G.Graph, before: seq<Claim>, after: seq<Claim>, conflicts: seq<Conflict>)
    requires SerialRows(g, before, conflicts) && |after| == |before|
    requires forall i | 0 <= i < |before| :: after[i].SameAssertion(before[i]) && (before[i].IsActive() ==> after[i].IsActive())
    ensures SerialRows(g, after, conflicts)
  {
    forall i | 0 <= i < |conflicts| ensures SerialRow(g, after, conflicts[i]) {
      assert SerialRow(g, before, conflicts[i]);
    }
  }

  lemma RevivingKeepsClaims(g: G.Graph, claims: seq<Claim>, history: seq<HistoryRow>, ids: set<nat>)
    requires ClaimsFit(g, claims)
    ensures var after := ReviveAll(claims, history, ids);
            ClaimsFit(g, after) && |after| == |claims|
            && forall i | 0 <= i < |claims| :: after[i].SameAssertion(claims[i]) && (claims[i].IsActive() ==> after[i].IsActive())
  {
    hide G.Walk;
  }

  lemma ReopenIsSerial(db: Db, id: nat, expected: nat)
    requires Serial(db) && C.Reopen(db, id, expected).Committed?
    ensures Serial(C.Reopen(db, id, expected).db)
  {
    hide Serial, ClaimsFit, ReviveAll, G.Forest;
    var losers := C.LosersOf(db.claims, db.conflicts[id]);
    var revived := ReviveAll(db.claims, db.history, losers);
    SerialByParts(db);
    SerialByParts(C.Reopen(db, id, expected).db);
    RevivingKeepsClaims(db.events, db.claims, db.history, losers);
    assert SerialRow(db.events, db.claims, db.conflicts[id]);
    RevivingKeepsRows(db.events, db.claims, revived, db.conflicts);
    ReplacingRowKeepsTable(db.events, revived, db.conflicts, id, Perform(db.conflicts[id], CuratorReopen));
  }

  /** A record's claims all lead to its prior event's canonical one. */
  lemma PriorEventLeads(db: Db, source: nat, record: Option<RecordId>, i: nat)
    requires RecordsTogether(db.events, db.claims) && record.Some?
    requires i < |db.claims| && db.claims[i].source == source && db.claims[i].record == record
    ensures var prior := PriorEvent(db.claims, source, record);
            prior.Some? && G.Walk(db.events, db.claims[i].event, {}) == G.Walk(db.events, prior.value, {})
  {
    var prior := PriorEvent(db.claims, source, record);
    var j: nat :| LatestOf(db.claims, source, record, j) && db.claims[j].event == prior.value;
  }

  /** Continuity keeps a source record together, so a write supersedes only on its own event and on events
      absorbed into it. */
  lemma ContinuityScopesTheWrite(db: Db, ing: W.Ingestion, explicitEvent: bool)
    requires Serial(db) && TargetEvent(db, ing, explicitEvent).Some?
    ensures var e := TargetEvent(db, ing, explicitEvent).value;
            Serial(Registered(db, e)) && !G.Absorbed(db.events, e)
            && ScopeOnEvent(Registered(db, e).events, db.claims, ing.(event := e))
  {
    hide G.Walk, G.Forest, G.Grow, Serial;
    var e := TargetEvent(db, ing, explicitEvent).value;
    var prior := PriorEvent(db.claims, ing.source, ing.record);
    SerialByParts(db);
    if prior.Some? {
      G.WalkIsSound(db.events, prior.value, {});
    }
    RegisteringIsSerial(db, e);
    var routed, g := ing.(event := e), Registered(db, e).events;
    G.RootIsItself(g, e);
    forall i: nat | i < |db.claims| && W.InScope(db.claims[i], routed)
      ensures G.Walk(g, db.claims[i].event, {}) == G.Root(e)
    {
      RegisteringKeepsWalks(db, e, i);
      if ing.record.Some? {
        PriorEventLeads(db, ing.source, ing.record, i);
      }
    }
  }

  /** A new event is one nothing leads to yet. */
  lemma RegisteringKeepsWalks(db: Db, e: nat, i: nat)
    requires G.Forest(db.events) && EventsKnown(db.events, db.claims) && i < |db.claims|
    ensures G.Walk(Registered(db, e).events, db.claims[i].event, {}) == G.Walk(db.events, db.claims[i].event, {})
  {
    var event := db.claims[i].event;
    assert G.Rooted(db.events, event);
    G.RootedIff(db.events, event);
    if e !in db.events {
      G.CreateKeepsWalks(db.events, e, event, {});
    }
  }

  lemma RegisteringIsSerial(db: Db, e: nat)
    requires Serial(db) && !G.Absorbed(db.events, e)
    ensures Serial(Registered(db, e)) && G.Unmerged(Registered(db, e).events, e)
    ensures e in db.events ==> Registered(db, e) == db
  {
    hide G.Walk, G.Forest;
    var g := Registered(db, e).events;
    G.GrowKeepsForest(db.events, G.Created(e));
    forall i: nat | i < |db.claims| ensures G.Walk(g, db.claims[i].event, {}) == G.Walk(db.events, db.claims[i].event, {}) {
      RegisteringKeepsWalks(db, e, i);
    }
    forall i | 0 <= i < |db.conflicts| ensures SerialRow(g, db.claims, db.conflicts[i]) {
      assert SerialRow(db.events, db.claims, db.conflicts[i]);
    }
  }

  lemma TakeIsSerial(db: Db, step: Step)
    requires Serial(db)
    ensures Serial(Take(db, step))
  {
    if Succeeds(db, step) {
      match step {
        case Ingestion(ing, explicitEvent) =>
          var e := TargetEvent(db, ing, explicitEvent).value;
          ContinuityScopesTheWrite(db, ing, explicitEvent);
          IngestSettles(Registered(db, e), ing.(event := e));
        case ResolveStep(id, expected, winner) => ResolveIsSerial(db, id, expected, winner);
        case OverrideStep(id, expected, source, value) => OverrideIsSerial(db, id, expected, source, value);
        case ReopenStep(id, expected) => ReopenIsSerial(db, id, expected);
        case MergeStep(source, target) => M.MergeSettles(db, source, target);
      }
    }
  }

  /** Every serial run, merges of events included, keeps at most one conflict row per event and field, and
      every resolved conflict's winner active unless its event was absorbed. */
  lemma {:induction false} EveryRunIsSerial(steps: seq<Step>)
    ensures Serial(After(steps))
  {
    if steps == [] {
    } else {
      EveryRunIsSerial(steps[..|steps| - 1]);
      TakeIsSerial(After(steps[..|steps| - 1]), steps[|steps| - 1]);
    }
  }

  /** Ingestions and merges end with detection on one event. */
  predicate EndsInDetection(step: Step) {
    step.Ingestion? || step.MergeStep?
  }

  function DetectedEvent(db: Db, step: Step): nat
    requires EndsInDetection(step) && Succeeds(db, step)
  {
    match step
    case Ingestion(ing, explicitEvent) => TargetEvent(db, ing, explicitEvent).value
    case MergeStep(_, target) => target
  }

  lemma IngestStepSettles(db: Db, ing: W.Ingestion, explicitEvent: bool)
    requires Serial(db) && W.Accepted(ing) && TargetEvent(db, ing, explicitEvent).Some?
    ensures var e := TargetEvent(db, ing, explicitEvent).value;
            var after := IngestInto(db, ing, e);
            Serial(after) && Settled(after, e) && !G.Absorbed(after.events, e)
            && (OpenRowsDisagree(db) ==> OpenRowsDisagree(after))
  {
    hide Serial, Ingest, OpenRowsDisagree, Settled, G.Walk;
    var e := TargetEvent(db, ing, explicitEvent).value;
    ContinuityScopesTheWrite(db, ing, explicitEvent);
    if OpenRowsDisagree(db) {
      RegisteringKeepsGenuine(db, e);
    }
    IngestSettles(Registered(db, e), ing.(event := e));
  }

  lemma TakeSettles(db: Db, step: Step)
    requires Serial(db) && EndsInDetection(step) && Succeeds(db, step)
    ensures var e := DetectedEvent(db, step);
            Serial(Take(db, step)) && Settled(Take(db, step), e) && !G.Absorbed(Take(db, step).events, e)
            && (OpenRowsDisagree(db) ==> OpenRowsDisagree(Take(db, step)))
  {
    hide Serial, IngestInto, TargetEvent, OpenRowsDisagree, Settled, M.Merge;
    match step {
      case Ingestion(ing, explicitEvent) => IngestStepSettles(db, ing, explicitEvent);
      case MergeStep(source, target) =>
        M.MergeCommitsIff(db, source, target);
        M.MergeSettles(db, source, target);
    }
  }

  lemma RegisteringKeepsGenuine(db: Db, e: nat)
    requires OpenRowsDisagree(db)
    ensures OpenRowsDisagree(Registered(db, e))
  {
    forall i | 0 <= i < |db.conflicts| && db.conflicts[i].status == Open
           && !G.Absorbed(Registered(db, e).events, db.conflicts[i].event)
      ensures Disagree(db.claims, db.conflicts[i].event, db.conflicts[i].field)
    {
      assert !G.Absorbed(db.events, db.conflicts[i].event);
    }
  }

  /** After any run that ends in an ingestion or a merge, every detected field of the event it ended on has
      exactly one conflict row, and that row is open and links all the field's active claims. */
  lemma EveryDetectionSettles(steps: seq<Step>, f: FieldName)
    requires |steps| > 0
    requires var last, db := steps[|steps| - 1], After(steps[..|steps| - 1]);
             EndsInDetection(last) && Succeeds(db, last)
             && f in DetectedFields(After(steps).claims, DetectedEvent(db, last))
    ensures var e, now := DetectedEvent(After(steps[..|steps| - 1]), steps[|steps| - 1]), After(steps);
            exists i | 0 <= i < |now.conflicts| ::
              now.conflicts[i].IsOpenOn(e, f) && ActiveSet(now.claims, e, f) <= now.conflicts[i].links
              && forall j | 0 <= j < |now.conflicts| && now.conflicts[j].IsOn(e, f) :: j == i
  {
    var last, db := steps[|steps| - 1], After(steps[..|steps| - 1]);
    EveryRunIsSerial(steps[..|steps| - 1]);
    TakeSettles(db, last);
    SettledFieldHasOneRow(Take(db, last), DetectedEvent(db, last), f);
  }

  lemma SettledFieldHasOneRow(now: Db, e: nat, f: FieldName)
    requires Serial(now) && Settled(now, e) && f in DetectedFields(now.claims, e)
    ensures exists i | 0 <= i < |now.conflicts| ::
              now.conflicts[i].IsOpenOn(e, f) && ActiveSet(now.claims, e, f) <= now.conflicts[i].links
              && forall j | 0 <= j < |now.conflicts| && now.conflicts[j].IsOn(e, f) :: j == i
  {
    assert Covered(now.claims, now.conflicts, e, f);
    var i :| 0 <= i < |now.conflicts| && now.conflicts[i].IsOpenOn(e, f)
    && ActiveSet(now.claims, e, f) <= now.conflicts[i].links;
    assert forall j | 0 <= j < |now.conflicts| && now.conflicts[j].IsOn(e, f) :: j == i;
  }

  // ---------- Open conflicts are genuine ----------

  /** A resolve leaves the claims of every other field alone. */
  lemma RetiringElsewhereKeepsDisagreement(claims: seq<Claim>, losers: set<nat>, winner: nat, e: nat, f: FieldName,
                                           e': nat, f': FieldName)
    requires LinksFit(claims, e, f, losers) && (e, f) != (e', f') && Disagree(claims, e', f')
    ensures Disagree(RetireAll(claims, losers, winner), e', f')
  {
    var i: nat, j: nat :| ActiveOn(claims, i, e', f') && ActiveOn(claims, j, e', f')
    && claims[i].value != claims[j].value;
    var after := RetireAll(claims, losers, winner);
    assert i !in losers && j !in losers;
    assert ActiveOn(after, i, e', f') && ActiveOn(after, j, e', f');
  }

  /** A decision that superseded linked claims only, and opened nothing. */
  lemma DecisionKeepsDisagreement(before: Db, after: Db, row: Conflict, losers: set<nat>, winner: nat, id: nat)
    requires OpenRowsDisagree(before) && OneRowPerField(before.conflicts)
             && LinksFit(before.claims, row.event, row.field, losers)
    requires id < |before.conflicts| == |after.conflicts| && before.conflicts[id].IsOn(row.event, row.field)
    requires after.claims == RetireAll(before.claims, losers, winner) && after.events == before.events
    requires after.conflicts[id].status == Resolved && after.conflicts == before.conflicts[id := after.conflicts[id]]
    ensures OpenRowsDisagree(after)
  {
    hide RetireAll, Disagree, LinksFit;
    forall i | 0 <= i < |after.conflicts| && after.conflicts[i].status == Open
           && !G.Absorbed(after.events, after.conflicts[i].event)
      ensures Disagree(after.claims, after.conflicts[i].event, after.conflicts[i].field)
    {
      RetiringElsewhereKeepsDisagreement(before.claims, losers, winner, row.event, row.field,
                                         after.conflicts[i].event, after.conflicts[i].field);
    }
  }

  lemma LinksFitInRun(db: Db, id: nat)
    requires Serial(db) && id < |db.conflicts|
    ensures LinksFit(db.claims, db.conflicts[id].event, db.conflicts[id].field, db.conflicts[id].links)
            && OneRowPerField(db.conflicts)
  {
    assert SerialRow(db.events, db.claims, db.conflicts[id]);
  }

  lemma ResolveKeepsDisagreement(db: Db, id: nat, expected: nat, winner: nat)
    requires Serial(db) && OpenRowsDisagree(db) && C.Resolve(db, id, expected, winner).Committed?
    ensures OpenRowsDisagree(C.Resolve(db, id, expected, winner).db)
  {
    hide Serial, OpenRowsDisagree, OneRowPerField, RetireAll;
    LinksFitInRun(db, id);
    DecisionKeepsDisagreement(db, C.Resolve(db, id, expected, winner).db, db.conflicts[id],
                              db.conflicts[id].links - {winner}, winner, id);
  }

  lemma AddingKeepsDisagreements(db: Db, c: Claim)
    requires OpenRowsDisagree(db)
    ensures OpenRowsDisagree(AddClaim(db, c))
  {
    var added := AddClaim(db, c);
    forall i | 0 <= i < |db.conflicts| && db.conflicts[i].status == Open
           && !G.Absorbed(db.events, db.conflicts[i].event)
      ensures Disagree(added.claims, db.conflicts[i].event, db.conflicts[i].field)
    {
      var e, f := db.conflicts[i].event, db.conflicts[i].field;
      var j: nat, k: nat :| ActiveOn(db.claims, j, e, f) && ActiveOn(db.claims, k, e, f)
      && db.claims[j].value != db.claims[k].value;
      assert ActiveOn(added.claims, j, e, f) && ActiveOn(added.claims, k, e, f);
    }
  }

  lemma OverrideKeepsDisagreement(db: Db, id: nat, expected: nat, source: nat, value: int)
    requires Serial(db) && OpenRowsDisagree(db) && C.Override(db, id, expected, source, value).Committed?
    ensures OpenRowsDisagree(C.Override(db, id, expected, source, value).db)
  {
    hide Serial, OpenRowsDisagree, OneRowPerField, RetireAll;
    var row := db.conflicts[id];
    var entered := C.OverrideClaim(row, source, value);
    LinksFitInRun(db, id);
    AddingKeepsDisagreements(db, entered);
    assert LinksFit(AddClaim(db, entered).claims, row.event, row.field, row.links);
    DecisionKeepsDisagreement(AddClaim(db, entered), C.Override(db, id, expected, source, value).db, row, row.links,
                              |db.claims|, id);
  }

  // ---------- What a manual reopen can break ----------

  /** Two claims alive after the reopen carry different values. */
  ghost predicate AliveDisagree(claims: seq<Claim>, row: Conflict) {
    exists i: nat, j: nat :: AliveOn(claims, row, i) && AliveOn(claims, row, j) && claims[i].value != claims[j].value
  }

  predicate AliveOn(claims: seq<Claim>, row: Conflict, c: nat) {
    C.ComesAlive(claims, row, c) && claims[c].IsOn(row.event, row.field)
  }

  /** Two claims alive after the reopen come from one source record and field. */
  predicate AliveTwins(claims: seq<Claim>, row: Conflict, i: nat, j: nat) {
    C.ComesAlive(claims, row, i) && C.ComesAlive(claims, row, j)
    && claims[i].source == claims[j].source && claims[i].record.Some? && claims[i].record == claims[j].record
    && claims[i].field == claims[j].field
  }

  /** A reopen keeps at most one active claim per source record and field if and only if no two claims
      that are active or about to be revived share them. */
  lemma ReopenKeepsOneActiveIff(db: Db, back: Db, id: nat, expected: nat)
    requires C.Reopen(db, id, expected) == C.Committed(back)
    ensures id < |db.conflicts|
    ensures W.OneActivePerRecord(back.claims)
            <==> forall i, j | 0 <= i < j < |db.claims| :: !AliveTwins(db.claims, db.conflicts[id], i, j)
  {
    C.ReopenWrites(db, back, id, expected);
    forall i: nat, j: nat | i < j < |db.claims|
      ensures |back.claims| == |db.claims|
              && (W.Twins(back.claims[i], back.claims[j]) <==> AliveTwins(db.claims, db.conflicts[id], i, j))
    {
      C.AliveAfterReopen(db, back, id, expected, i);
      C.AliveAfterReopen(db, back, id, expected, j);
    }
  }

  lemma ReopenedRowDisagreesIff(db: Db, back: Db, id: nat, expected: nat)
    requires C.Reopen(db, id, expected) == C.Committed(back)
    ensures id < |db.conflicts|
    ensures Disagree(back.claims, db.conflicts[id].event, db.conflicts[id].field) <==>
              AliveDisagree(db.claims, db.conflicts[id])
  {
    C.ReopenWrites(db, back, id, expected);
    var row := db.conflicts[id];
    forall c: nat
      ensures (ActiveOn(back.claims, c, row.event, row.field) <==> AliveOn(db.claims, row, c))
              && (c < |db.claims| ==> back.claims[c].value == db.claims[c].value)
    {
      C.AliveAfterReopen(db, back, id, expected, c);
    }
  }

  lemma ReopenKeepsOtherDisagreements(db: Db, back: Db, id: nat, expected: nat, e: nat, f: FieldName)
    requires C.Reopen(db, id, expected) == C.Committed(back) && Disagree(db.claims, e, f)
    ensures Disagree(back.claims, e, f)
  {
    var i: nat, j: nat :| ActiveOn(db.claims, i, e, f) && ActiveOn(db.claims, j, e, f)
    && db.claims[i].value != db.claims[j].value;
    C.AliveAfterReopen(db, back, id, expected, i);
    C.AliveAfterReopen(db, back, id, expected, j);
    assert ActiveOn(back.claims, i, e, f) && ActiveOn(back.claims, j, e, f);
  }

  /** Where all open conflicts are genuine, a reopen keeps them so if and only if its event was absorbed or
      the claims that are active or about to be revived disagree. */
  lemma ReopenKeepsGenuineIff(db: Db, back: Db, id: nat, expected: nat)
    requires OpenRowsDisagree(db) && C.Reopen(db, id, expected) == C.Committed(back)
    ensures id < |db.conflicts|
    ensures OpenRowsDisagree(back) <==>
              G.Absorbed(db.events, db.conflicts[id].event) || AliveDisagree(db.claims, db.conflicts[id])
  {
    C.ReopenWrites(db, back, id, expected);
    ReopenedRowDisagreesIff(db, back, id, expected);
    forall i | 0 <= i < |db.conflicts| && i != id && db.conflicts[i].status == Open
           && !G.Absorbed(db.events, db.conflicts[i].event)
      ensures Disagree(back.claims, db.conflicts[i].event, db.conflicts[i].field)
    {
      ReopenKeepsOtherDisagreements(db, back, id, expected, db.conflicts[i].event, db.conflicts[i].field);
    }
    assert back.conflicts[id].status == Open;
  }

  /** Every manual reopen of the run revives a disagreement, or is on an absorbed event. */
  ghost predicate ReopensRevive(steps: seq<Step>) {
    forall k | 0 <= k < |steps| && steps[k].ReopenStep? :: RevivesDisagreement(After(steps[..k]), steps[k])
  }

  ghost predicate RevivesDisagreement(db: Db, step: Step)
    requires step.ReopenStep?
  {
    Succeeds(db, step) ==>
      G.Absorbed(db.events, db.conflicts[step.id].event) || AliveDisagree(db.claims, db.conflicts[step.id])
  }

  lemma FewerReopensRevive(steps: seq<Step>)
    requires steps != [] && ReopensRevive(steps)
    ensures ReopensRevive(steps[..|steps| - 1])
    ensures steps[|steps| - 1].ReopenStep? ==> RevivesDisagreement(After(steps[..|steps| - 1]), steps[|steps| - 1])
  {
    var fewer := steps[..|steps| - 1];
    forall k | 0 <= k < |fewer| && fewer[k].ReopenStep? ensures RevivesDisagreement(After(fewer[..k]), fewer[k]) {
      assert fewer[..k] == steps[..k];
    }
  }

  /** One step keeps open conflicts genuine, if it is a reopen only under its condition. */
  lemma TakeKeepsGenuine(db: Db, step: Step)
    requires Serial(db) && OpenRowsDisagree(db)
    requires step.ReopenStep? ==> RevivesDisagreement(db, step)
    ensures OpenRowsDisagree(Take(db, step))
  {
    if Succeeds(db, step) {
      match step {
        case ResolveStep(id, expected, winner) => ResolveKeepsDisagreement(db, id, expected, winner);
        case OverrideStep(id, expected, source, value) => OverrideKeepsDisagreement(db, id, expected, source, value);
        case ReopenStep(id, expected) => ReopenKeepsGenuineIff(db, C.Reopen(db, id, expected).db, id, expected);
        case _ => TakeSettles(db, step);
      }
    }
  }

  /** In every run whose manual reopens revive a disagreement, every open conflict of an event that was not
      absorbed still has two active claims that differ; a stale one is always closed by the ingestion that
      made it stale. */
  lemma {:induction false} OpenConflictsAreGenuine(steps: seq<Step>)
    requires ReopensRevive(steps)
    ensures OpenRowsDisagree(After(steps))
  {
    if steps == [] {
    } else {
      FewerReopensRevive(steps);
      OpenConflictsAreGenuine(steps[..|steps| - 1]);
      EveryRunIsSerial(steps[..|steps| - 1]);
      TakeKeepsGenuine(After(steps[..|steps| - 1]), steps[|steps| - 1]);
    }
  }

  lemma AfterPrefix(steps: seq<Step>, k: nat)
    requires k < |steps|
    ensures After(steps[..k + 1]) == Take(After(steps[..k]), steps[k])
  {
    assert steps[..k + 1][..k] == steps[..k];
  }

  ghost predicate GenuineThroughout(steps: seq<Step>) {
    forall n | 0 <= n <= |steps| :: OpenRowsDisagree(After(steps[..n]))
  }

  /** All open conflicts are genuine at every moment of a run if and only if its manual reopens revive
      disagreements. */
  lemma GenuineThroughoutIff(steps: seq<Step>)
    ensures GenuineThroughout(steps) <==> ReopensRevive(steps)
  {
    if ReopensRevive(steps) {
      forall n | 0 <= n <= |steps| ensures OpenRowsDisagree(After(steps[..n])) {
        forall k | 0 <= k < n ensures steps[..n][..k] == steps[..k] {
        }
        OpenConflictsAreGenuine(steps[..n]);
      }
    }
    if GenuineThroughout(steps) {
      forall k | 0 <= k < |steps| && steps[k].ReopenStep? ensures RevivesDisagreement(After(steps[..k]), steps[k]) {
        GenuineReopenRevives(steps, k);
      }
    }
  }

  lemma GenuineReopenRevives(steps: seq<Step>, k: nat)
    requires GenuineThroughout(steps) && k < |steps| && steps[k].ReopenStep?
    ensures RevivesDisagreement(After(steps[..k]), steps[k])
  {
    hide After;
    var db, step := After(steps[..k]), steps[k];
    AfterPrefix(steps, k);
    if Succeeds(db, step) {
      assert OpenRowsDisagree(After(steps[..k + 1]));
      ReopenKeepsGenuineIff(db, C.Reopen(db, step.id, step.expected).db, step.id, step.expected);
    }
  }

  /** After any such run that ends in an ingestion or a merge: if each source has at most one active claim
      per field of the event it ended on, the event's open fields are exactly its disputed fields. */
  lemma OpenFieldsAfterDetection(steps: seq<Step>, f: FieldName)
    requires ReopensRevive(steps) && |steps| > 0
    requires var last, db := steps[|steps| - 1], After(steps[..|steps| - 1]);
             EndsInDetection(last) && Succeeds(db, last)
             && OneClaimPerSource(After(steps).claims, DetectedEvent(db, last))
    ensures var e := DetectedEvent(After(steps[..|steps| - 1]), steps[|steps| - 1]);
            HasOpen(After(steps).conflicts, e, f) <==> Disputed(After(steps).claims, e, f)
  {
    var last, db := steps[|steps| - 1], After(steps[..|steps| - 1]);
    EveryRunIsSerial(steps[..|steps| - 1]);
    TakeSettles(db, last);
    OpenConflictsAreGenuine(steps);
    OpenFieldsAreDisputedFields(After(steps), DetectedEvent(db, last), f);
  }

  // ---------- One active claim per source record ----------

  ghost predicate RevivesNoTwin(db: Db, step: Step)
    requires step.ReopenStep?
  {
    Succeeds(db, step) ==> forall i, j | 0 <= i < j < |db.claims| :: !AliveTwins(db.claims, db.conflicts[step.id], i, j)
  }

  ghost predicate ReopensReviveNoTwin(steps: seq<Step>) {
    forall k | 0 <= k < |steps| && steps[k].ReopenStep? :: RevivesNoTwin(After(steps[..k]), steps[k])
  }

  lemma FewerReopensReviveNoTwin(steps: seq<Step>)
    requires steps != [] && ReopensReviveNoTwin(steps)
    ensures ReopensReviveNoTwin(steps[..|steps| - 1])
    ensures steps[|steps| - 1].ReopenStep? ==> RevivesNoTwin(After(steps[..|steps| - 1]), steps[|steps| - 1])
  {
    var fewer := steps[..|steps| - 1];
    forall k | 0 <= k < |fewer| && fewer[k].ReopenStep? ensures RevivesNoTwin(After(fewer[..k]), fewer[k]) {
      assert fewer[..k] == steps[..k];
    }
  }

  lemma RetiringKeepsOneActive(claims: seq<Claim>, ids: set<nat>, winner: nat)
    requires W.OneActivePerRecord(claims)
    ensures W.OneActivePerRecord(RetireAll(claims, ids, winner))
  {
    var after := RetireAll(claims, ids, winner);
    forall i, j | 0 <= i < j < |after| ensures !W.Twins(after[i], after[j]) {
      assert !W.Twins(claims[i], claims[j]);
    }
  }

  lemma OverrideKeepsOneActive(db: Db, id: nat, expected: nat, source: nat, value: int)
    requires W.OneActivePerRecord(db.claims) && C.Override(db, id, expected, source, value).Committed?
    ensures W.OneActivePerRecord(C.Override(db, id, expected, source, value).db.claims)
  {
    var row := db.conflicts[id];
    var added := AddClaim(db, C.OverrideClaim(row, source, value));
    assert W.OneActivePerRecord(added.claims);
    RetiringKeepsOneActive(added.claims, row.links, |db.claims|);
  }

  lemma IngestKeepsOneActive(db: Db, ing: W.Ingestion, e: nat)
    requires W.OneActivePerRecord(db.claims) && W.Accepted(ing)
    ensures W.OneActivePerRecord(IngestInto(db, ing, e).claims)
  {
    var known, routed := Registered(db, e), ing.(event := e);
    W.WriteItemsClaimByClaim(known, routed, routed.items);
    W.WrittenKeepsOneActive(db.claims, W.Write(known, routed).claims, routed);
  }

  lemma TakeKeepsOneActive(db: Db, step: Step)
    requires Serial(db) && W.OneActivePerRecord(db.claims)
    requires step.ReopenStep? ==> RevivesNoTwin(db, step)
    ensures W.OneActivePerRecord(Take(db, step).claims)
  {
    hide Serial, M.Merge, IngestInto, TargetEvent;
    if Succeeds(db, step) {
      match step {
        case Ingestion(ing, explicitEvent) => IngestKeepsOneActive(db, ing, TargetEvent(db, ing, explicitEvent).value);
        case MergeStep(source, target) =>
          M.MergeSettles(db, source, target);
          M.TransferKeepsOneActive(db.claims, Take(db, step).claims, source, target);
        case ResolveStep(id, expected, winner) =>
          RetiringKeepsOneActive(db.claims, db.conflicts[id].links - {winner}, winner);
        case OverrideStep(id, expected, source, value) => OverrideKeepsOneActive(db, id, expected, source, value);
        case ReopenStep(id, expected) => ReopenKeepsOneActiveIff(db, C.Reopen(db, id, expected).db, id, expected);
      }
    }
  }

  /** In every run whose manual reopens revive no twin, each source record has at most one active claim
      per field. */
  lemma {:induction false} OneActivePerRecordInRuns(steps: seq<Step>)
    requires ReopensReviveNoTwin(steps)
    ensures W.OneActivePerRecord(After(steps).claims)
  {
    if steps == [] {
    } else {
      FewerReopensReviveNoTwin(steps);
      OneActivePerRecordInRuns(steps[..|steps| - 1]);
      EveryRunIsSerial(steps[..|steps| - 1]);
      TakeKeepsOneActive(After(steps[..|steps| - 1]), steps[|steps| - 1]);
    }
  }

  ghost predicate OneActiveThroughout(steps: seq<Step>) {
    forall n | 0 <= n <= |steps| :: W.OneActivePerRecord(After(steps[..n]).claims)
  }

  /** Each source record has at most one active claim per field at every moment of a run if and only if its
      manual reopens revive no twin. */
  lemma OneActiveThroughoutIff(steps: seq<Step>)
    ensures OneActiveThroughout(steps) <==> ReopensReviveNoTwin(steps)
  {
    if ReopensReviveNoTwin(steps) {
      forall n | 0 <= n <= |steps| ensures W.OneActivePerRecord(After(steps[..n]).claims) {
        forall k | 0 <= k < n ensures steps[..n][..k] == steps[..k] {
        }
        OneActivePerRecordInRuns(steps[..n]);
      }
    }
    if OneActiveThroughout(steps) {
      forall k | 0 <= k < |steps| && steps[k].ReopenStep? ensures RevivesNoTwin(After(steps[..k]), steps[k]) {
        OneActiveReopenRevivesNoTwin(steps, k);
      }
    }
  }

  lemma OneActiveReopenRevivesNoTwin(steps: seq<Step>, k: nat)
    requires OneActiveThroughout(steps) && k < |steps| && steps[k].ReopenStep?
    ensures RevivesNoTwin(After(steps[..k]), steps[k])
  {
    hide After;
    var db, step := After(steps[..k]), steps[k];
    AfterPrefix(steps, k);
    if Succeeds(db, step) {
      assert W.OneActivePerRecord(After(steps[..k + 1]).claims);
      ReopenKeepsOneActiveIff(db, C.Reopen(db, step.id, step.expected).db, step.id, step.expected);
    }
  }
}
