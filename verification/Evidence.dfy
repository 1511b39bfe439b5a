/**
 The evidence tables (claims, claim history, conflicts with their links and activity
 log, and the events' merge pointers) and the queries the repositories answer about them.

 A claim's id is its position in `claims`, a conflict's id its position in `conflicts`:
 rows are only ever appended, so a fresh id is the next position.
 */
module Evidence {
  import opened Optional
  import G = MergeGraph

  datatype FieldName = FieldName(text: string)

  datatype RecordId = RecordId(text: string)

  datatype ClaimType = Raw | Confirmed | ManualOverride | Superseded

  /** `value` is the comparison key of the field value: two claims agree exactly when their
      keys are equal. `record` is the source_record_id of the claim's snapshot. */
  datatype Claim = Claim(
    event: nat, source: nat, record: Option<RecordId>, field: FieldName, value: int,
    kind: ClaimType, supersededBy: Option<nat>)
  {
    predicate IsActive() {
      kind != Superseded
    }

    predicate IsOn(e: nat, f: FieldName) {
      event == e && field == f
    }

    /** The part of a claim that no later write changes. */
    predicate SameAssertion(other: Claim) {
      event == other.event && source == other.source && record == other.record
      && field == other.field && value == other.value
    }
  }

  datatype HistoryRow = HistoryRow(claim: nat, fromType: Option<ClaimType>, toType: ClaimType)

  datatype Status = Open | Resolved

  datatype Reason = Initial | NewEvidence | EvidenceUpdated | UserResolved | UserReopened | SystemAutoClosed

  datatype LogEntry = LogEntry(sequence: nat, fromStatus: Option<Status>, toStatus: Status, version: nat)

  datatype Conflict = Conflict(
    event: nat, field: FieldName, status: Status, version: nat, winner: Option<nat>,
    reason: Reason, links: set<nat>, log: seq<LogEntry>)
  {
    predicate IsOn(e: nat, f: FieldName) {
      event == e && field == f
    }

    predicate IsOpenOn(e: nat, f: FieldName) {
      status == Open && IsOn(e, f)
    }
  }

  datatype Db = Db(claims: seq<Claim>, history: seq<HistoryRow>, conflicts: seq<Conflict>, events: G.Graph)

  const EMPTY_DB := Db([], [], [], map[])

  predicate ActiveOn(claims: seq<Claim>, id: nat, e: nat, f: FieldName) {
    id < |claims| && claims[id].IsActive() && claims[id].IsOn(e, f)
  }

  /** find_active_by_event_field, in insertion order. */
  function ActiveIds(claims: seq<Claim>, e: nat, f: FieldName): (ids: seq<nat>)
    ensures forall id: nat :: id in ids <==> ActiveOn(claims, id, e, f)
    ensures forall i, j :: 0 <= i < j < |ids| ==> ids[i] < ids[j]
  {
    if claims == [] then []
    else
      var n := |claims| - 1;
      var rest := ActiveIds(claims[..n], e, f);
      assert forall id: nat :: id in rest ==> id < n && claims[..n][id] == claims[id];
      assert forall id: nat | id < n :: ActiveOn(claims, id, e, f) <==> ActiveOn(claims[..n], id, e, f);
      assert forall i | 0 <= i < |rest| :: rest[i] in rest;
      if claims[n].IsActive() && claims[n].IsOn(e, f) then rest + [n] else rest
  }

  function ActiveSet(claims: seq<Claim>, e: nat, f: FieldName): (ids: set<nat>)
    ensures forall id: nat :: id in ids <==> ActiveOn(claims, id, e, f)
  {
    set id | id in ActiveIds(claims, e, f)
  }

  /** unique_normalised_values over the active claims of a field. */
  function UniqueValues(claims: seq<Claim>, ids: seq<nat>): set<int>
    requires forall id | id in ids :: id < |claims|
  {
    set id | id in ids :: claims[id].value
  }

  ghost predicate HasActive(claims: seq<Claim>, e: nat, f: FieldName) {
    exists i: nat :: ActiveOn(claims, i, e, f)
  }

  /** Two active claims of the field carry different values. */
  ghost predicate Disagree(claims: seq<Claim>, e: nat, f: FieldName) {
    exists i: nat, j: nat :: ActiveOn(claims, i, e, f) && ActiveOn(claims, j, e, f) && claims[i].value != claims[j].value
  }

  ghost predicate SourcesDiffer(claims: seq<Claim>, e: nat, f: FieldName) {
    exists i: nat, j: nat :: ActiveOn(claims, i, e, f) && ActiveOn(claims, j, e, f) && claims[i].source != claims[j].source
  }

  /** The detector's verdict: different values, and more than one source. */
  ghost predicate Disputed(claims: seq<Claim>, e: nat, f: FieldName) {
    Disagree(claims, e, f) && SourcesDiffer(claims, e, f)
  }

  /** Each source has at most one active claim per field of the event. */
  ghost predicate OneClaimPerSource(claims: seq<Claim>, e: nat) {
    forall i: nat, j: nat, f: FieldName ::
      ActiveOn(claims, i, e, f) && ActiveOn(claims, j, e, f) && claims[i].source == claims[j].source ==> i == j
  }

  /** At most one conflict row, open or not, per event and field. */
  ghost predicate OneRowPerField(conflicts: seq<Conflict>) {
    forall i: nat, j: nat | i < |conflicts| && j < |conflicts| ::
      conflicts[j].IsOn(conflicts[i].event, conflicts[i].field) ==> i == j
  }

  /** The partial unique index uq_open_conflict_event_field. */
  ghost predicate OneOpenPerField(conflicts: seq<Conflict>) {
    forall i: nat, j: nat | i < |conflicts| && j < |conflicts| ::
      conflicts[i].status == Open && conflicts[j].IsOpenOn(conflicts[i].event, conflicts[i].field) ==> i == j
  }

  lemma {:induction false} SubsetCount<T>(a: set<T>, b: set<T>)
    requires a <= b
    ensures |a| <= |b|
  {
    if a == {} {
    } else {
      var x :| x in a;
      SubsetCount(a - {x}, b - {x});
    }
  }

  lemma AgreementIsOneValue(claims: seq<Claim>, e: nat, f: FieldName)
    requires !Disagree(claims, e, f)
    ensures |UniqueValues(claims, ActiveIds(claims, e, f))| <= 1
  {
    var values := UniqueValues(claims, ActiveIds(claims, e, f));
    if values != {} {
      var v :| v in values;
      assert values == {v};
    }
  }

  lemma DisagreementIsTwoValues(claims: seq<Claim>, e: nat, f: FieldName)
    requires Disagree(claims, e, f)
    ensures |UniqueValues(claims, ActiveIds(claims, e, f))| > 1
  {
    var ids := ActiveIds(claims, e, f);
    var i: nat, j: nat :| ActiveOn(claims, i, e, f) && ActiveOn(claims, j, e, f) && claims[i].value != claims[j].value;
    assert i in ids && j in ids;
    SubsetCount({claims[i].value, claims[j].value}, UniqueValues(claims, ids));
  }

  /** Counting distinct keys is how the code tests agreement; this is what the count means. */
  lemma CountingValuesTestsAgreement(claims: seq<Claim>, e: nat, f: FieldName)
    ensures |UniqueValues(claims, ActiveIds(claims, e, f))| == 0 <==> !HasActive(claims, e, f)
    ensures |UniqueValues(claims, ActiveIds(claims, e, f))| > 1 <==> Disagree(claims, e, f)
  {
    var ids := ActiveIds(claims, e, f);
    var values := UniqueValues(claims, ids);
    if HasActive(claims, e, f) {
      var i: nat :| ActiveOn(claims, i, e, f);
      assert i in ids && claims[i].value in values;
    } else {
      assert values == {};
    }
    if Disagree(claims, e, f) {
      DisagreementIsTwoValues(claims, e, f);
    } else {
      AgreementIsOneValue(claims, e, f);
    }
  }

  /** With at most one active claim per source, disagreement already means two sources. */
  lemma DisagreementNeedsTwoSources(claims: seq<Claim>, e: nat, f: FieldName)
    requires OneClaimPerSource(claims, e)
    ensures Disagree(claims, e, f) <==> Disputed(claims, e, f)
  {
    if Disagree(claims, e, f) {
      var i: nat, j: nat :| ActiveOn(claims, i, e, f) && ActiveOn(claims, j, e, f)
      && claims[i].value != claims[j].value;
      assert claims[i].source != claims[j].source;
    }
  }
}
