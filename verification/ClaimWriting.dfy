/**
 ClaimWriter.write_normalised: create one claim per item, supersede the source's earlier
 claims for the same field, and collect the resolved conflicts that lost their winner. The
 whole write runs under the event row lock and, with a record id, the advisory lock of the
 source record, so no other writer touches its claims while it runs.
 */
module ClaimWriting {
  import opened Optional
  import opened Evidence
  import opened ClaimLedger
  import opened Reconciler

  /** A normalised payload item; None when the key field_value is missing. */
  datatype Item = Item(field: FieldName, value: Option<int>)

  datatype Ingestion = Ingestion(event: nat, source: nat, record: Option<RecordId>, items: seq<Item>)

  datatype WriteError = DuplicateClaimField(fields: set<FieldName>) | MissingFieldValue(field: FieldName)

  /** ClaimWriteResult. New claim i has id `firstNew + i`. */
  datatype WriteResult = WriteResult(firstNew: nat, superseded: set<nat>, affectedFields: set<FieldName>,
                                     pending: seq<Pending>)

  datatype Outcome<T> = Ok(value: T) | Failed(error: WriteError)

  ghost predicate DistinctFields(items: seq<Item>) {
    forall i, j | 0 <= i < j < |items| :: items[i].field != items[j].field
  }

  predicate AllHaveValues(items: seq<Item>) {
    forall i | 0 <= i < |items| :: items[i].value.Some?
  }

  /** The claims a write may supersede: those of the same source record, or, without a record id,
      those of the same source on the same event. */
  predicate InScope(c: Claim, ing: Ingestion) {
    c.source == ing.source
    && match ing.record
       case Some(_) => c.record == ing.record
       case None => c.event == ing.event
  }

  /** prior_claims_by_field. */
  function Priors(claims: seq<Claim>, ing: Ingestion, f: FieldName): (ids: set<nat>)
    ensures forall id: nat :: id in ids <==>
              id < |claims| && claims[id].IsActive() && claims[id].field == f && InScope(claims[id], ing)
  {
    set id | 0 <= id < |claims| && claims[id].IsActive() && claims[id].field == f && InScope(claims[id], ing) :: id
  }

  function NewClaim(ing: Ingestion, item: Item): Claim
    requires item.value.Some?
  {
    Claim(ing.event, ing.source, ing.record, item.field, item.value.value, Raw, None)
  }

  /** One item, given the claims as they were before the write. */
  function WriteItem(claims: seq<Claim>, db: Db, ing: Ingestion, item: Item): Db
    requires item.value.Some?
  {
    Supersede(AddClaim(db, NewClaim(ing, item)), Priors(claims, ing, item.field), |db.claims|)
  }

  function WriteItems(claims: seq<Claim>, db: Db, ing: Ingestion, items: seq<Item>): Db
    requires AllHaveValues(items)
  {
    if items == [] then db
    else
      var n := |items| - 1;
      WriteItem(claims, WriteItems(claims, db, ing, items[..n]), ing, items[n])
  }

  lemma WriteItemsPush(claims: seq<Claim>, db: Db, ing: Ingestion, items: seq<Item>, item: Item)
    requires AllHaveValues(items) && item.value.Some?
    ensures AllHaveValues(items + [item])
    ensures WriteItems(claims, db, ing, items + [item]) == WriteItem(claims, WriteItems(claims, db, ing, items), ing, item)
  {
    assert (items + [item])[..|items|] == items;
  }

  function Write(db: Db, ing: Ingestion): Db
    requires AllHaveValues(ing.items)
  {
    WriteItems(db.claims, db, ing, ing.items)
  }

  /** The position of the first item for the field. */
  function ItemFor(items: seq<Item>, f: FieldName): (r: Option<nat>)
    ensures r.Some? ==>
              r.value < |items| && items[r.value].field == f && forall i | 0 <= i < r.value :: items[i].field != f
    ensures r.None? ==> forall i | 0 <= i < |items| :: items[i].field != f
  {
    if items == [] then None
    else if items[0].field == f then Some(0)
    else
      match ItemFor(items[1..], f)
      case None => None
      case Some(i) => Some(i + 1)
  }

  /** The item that supersedes an existing claim, if any does. */
  function SupersedingItem(c: Claim, ing: Ingestion): Option<nat> {
    if c.IsActive() && InScope(c, ing) then ItemFor(ing.items, c.field) else None
  }

  function SupersededIds(claims: seq<Claim>, ing: Ingestion): (ids: set<nat>)
    ensures forall id: nat :: id in ids <==> id < |claims| && SupersedingItem(claims[id], ing).Some?
  {
    set id | 0 <= id < |claims| && SupersedingItem(claims[id], ing).Some? :: id
  }

  function AffectedFields(claims: seq<Claim>, ing: Ingestion): set<FieldName> {
    set id | id in SupersededIds(claims, ing) :: claims[id].field
  }

  // ---------- What a write does to each claim ----------

  /** A claim as a write of `items` leaves it, when its first new claim gets id `firstNew`. */
  function Rewritten(c: Claim, ing: Ingestion, items: seq<Item>, firstNew: nat): Claim {
    if !c.IsActive() || !InScope(c, ing) then c
    else
      match ItemFor(items, c.field)
      case Some(i) => Retire(c, firstNew + i)
      case None => c
  }

  /** The claim table after a write, claim by claim: the new ones at the end, each earlier claim
      either untouched or superseded by the one new claim of its field. */
  ghost predicate WrittenClaimByClaim(before: seq<Claim>, after: seq<Claim>, ing: Ingestion, items: seq<Item>)
    requires AllHaveValues(items)
  {
    |after| == |before| + |items|
    && (forall i | 0 <= i < |items| :: after[|before| + i] == NewClaim(ing, items[i]))
    && (forall id | 0 <= id < |before| :: after[id] == Rewritten(before[id], ing, items, |before|))
  }

  ghost predicate ItemWritten(claims: seq<Claim>, was: seq<Claim>, after: seq<Claim>, ing: Ingestion, item: Item)
    requires item.value.Some?
  {
    |after| == |was| + 1
    && after[|was|] == NewClaim(ing, item)
    && forall id | 0 <= id < |was| ::
         after[id] == if id in Priors(claims, ing, item.field) && was[id].IsActive() then Retire(was[id], |was|) else was[id]
  }

  lemma WriteItemWritesOne(claims: seq<Claim>, db: Db, ing: Ingestion, item: Item)
    requires item.value.Some? && |claims| <= |db.claims|
    ensures ItemWritten(claims, db.claims, WriteItem(claims, db, ing, item).claims, ing, item)
  {
  }

  lemma OneMoreItem(claims: seq<Claim>, was: seq<Claim>, after: seq<Claim>, ing: Ingestion, items: seq<Item>)
    requires |items| > 0 && AllHaveValues(items) && DistinctFields(items)
    requires WrittenClaimByClaim(claims, was, ing, items[..|items| - 1])
    requires ItemWritten(claims, was, after, ing, items[|items| - 1])
    ensures WrittenClaimByClaim(claims, after, ing, items)
  {
    var n := |items| - 1;
    forall id | 0 <= id < |claims| ensures after[id] == Rewritten(claims[id], ing, items, |claims|) {
      SameItem(items[..n], items, claims[id].field);
      assert was[id] == Rewritten(claims[id], ing, items[..n], |claims|);
    }
    forall i | 0 <= i < |items| ensures after[|claims| + i] == NewClaim(ing, items[i]) {
      if i < n {
        assert was[|claims| + i] == NewClaim(ing, items[..n][i]);
      }
    }
  }

  lemma {:induction false} WriteItemsClaimByClaim(db: Db, ing: Ingestion, items: seq<Item>)
    requires AllHaveValues(items) && DistinctFields(items)
    ensures WrittenClaimByClaim(db.claims, WriteItems(db.claims, db, ing, items).claims, ing, items)
    ensures WriteItems(db.claims, db, ing, items).conflicts == db.conflicts
    ensures WriteItems(db.claims, db, ing, items).events == db.events
  {
    if items == [] {
    } else {
      var n := |items| - 1;
      WriteItemsClaimByClaim(db, ing, items[..n]);
      var was := WriteItems(db.claims, db, ing, items[..n]);
      WriteItemWritesOne(db.claims, was, ing, items[n]);
      OneMoreItem(db.claims, was.claims, WriteItems(db.claims, db, ing, items).claims, ing, items);
    }
  }

  lemma SameItem(rest: seq<Item>, items: seq<Item>, f: FieldName)
    requires |items| > 0 && rest == items[..|items| - 1] && DistinctFields(items)
    ensures ItemFor(items, f) == if f == items[|items| - 1].field then Some(|items| - 1) else ItemFor(rest, f)
    ensures f == items[|items| - 1].field ==> ItemFor(rest, f) == None
  {
    var a, b := ItemFor(items, f), ItemFor(rest, f);
    if a.Some? && a.value < |rest| {
      assert rest[a.value].field == f;
    }
    if b.Some? {
      assert items[b.value].field == f;
    }
  }

  /** An item corrects the active claims its source made of its field: for the same record, or, without a record,
      on the same event. */
  predicate Corrects(ing: Ingestion, item: Item, c: Claim) {
    c.kind != Superseded && c.source == ing.source && c.field == item.field
    && if ing.record.Some? then c.record == ing.record else c.event == ing.event
  }

  /** What an item's claim says. */
  ghost predicate Says(c: Claim, ing: Ingestion, item: Item) {
    c.event == ing.event && c.source == ing.source && c.record == ing.record && c.field == item.field
    && Some(c.value) == item.value && c.kind == Raw && c.supersededBy == None
  }

  /** A claim before and after: superseded by the claim of the item that corrects it, if one does. */
  ghost predicate OldInColumns(was: Claim, now: Claim, ing: Ingestion, firstNew: nat) {
    (forall k | 0 <= k < |ing.items| && Corrects(ing, ing.items[k], was) ::
       now == was.(kind := Superseded, supersededBy := Some(firstNew + k)))
    && ((forall k | 0 <= k < |ing.items| :: !Corrects(ing, ing.items[k], was)) ==> now == was)
  }

  /** The claim table after a write, in columns: the items' claims at the end, the earlier ones before them. */
  ghost predicate WrittenInColumns(was: seq<Claim>, now: seq<Claim>, ing: Ingestion) {
    |now| == |was| + |ing.items|
    && (forall k | 0 <= k < |ing.items| :: Says(now[|was| + k], ing, ing.items[k]))
    && forall c | 0 <= c < |was| :: OldInColumns(was[c], now[c], ing, |was|)
  }

  lemma RewrittenInColumns(c: Claim, ing: Ingestion, firstNew: nat)
    requires DistinctFields(ing.items)
    ensures OldInColumns(c, Rewritten(c, ing, ing.items, firstNew), ing, firstNew)
  {
    var item := ItemFor(ing.items, c.field);
    hide ItemFor;
  }

  lemma ClaimByClaimInColumns(was: seq<Claim>, now: seq<Claim>, ing: Ingestion)
    requires AllHaveValues(ing.items) && DistinctFields(ing.items)
    requires WrittenClaimByClaim(was, now, ing, ing.items)
    ensures WrittenInColumns(was, now, ing)
  {
    forall k | 0 <= k < |ing.items| ensures Says(now[|was| + k], ing, ing.items[k]) {
      assert now[|was| + k] == NewClaim(ing, ing.items[k]);
    }
    hide Says, OldInColumns, Rewritten, NewClaim;
    forall c | 0 <= c < |was| ensures OldInColumns(was[c], now[c], ing, |was|) {
      RewrittenInColumns(was[c], ing, |was|);
      assert now[c] == Rewritten(was[c], ing, ing.items, |was|);
    }
  }

  lemma WriteMeans(db: Db, ing: Ingestion)
    requires AllHaveValues(ing.items) && DistinctFields(ing.items)
    ensures WrittenInColumns(db.claims, Write(db, ing).claims, ing)
  {
    WriteItemsClaimByClaim(db, ing, ing.items);
    ClaimByClaimInColumns(db.claims, Write(db, ing).claims, ing);
  }

  // ---------- Runs of claim writes ----------

  predicate Accepted(ing: Ingestion) {
    AllHaveValues(ing.items) && forall i, j | 0 <= i < j < |ing.items| :: ing.items[i].field != ing.items[j].field
  }

  /** A rejected payload is rolled back. */
  function WriteOrReject(db: Db, ing: Ingestion): Db {
    if Accepted(ing) then Write(db, ing) else db
  }

  function WriteRun(ings: seq<Ingestion>): Db {
    if ings == [] then EMPTY_DB
    else WriteOrReject(WriteRun(ings[..|ings| - 1]), ings[|ings| - 1])
  }

  /** A superseded claim points at a strictly later claim of its source and field. */
  ghost predicate Lineage(claims: seq<Claim>) {
    forall i | 0 <= i < |claims| ::
      match claims[i].supersededBy
      case None => claims[i].kind == Raw
      case Some(b) => claims[i].kind == Superseded && i < b < |claims|
                      && claims[b].source == claims[i].source && claims[b].field == claims[i].field
  }

  /** Two active claims of one source record and field. */
  predicate Twins(a: Claim, b: Claim) {
    a.IsActive() && b.IsActive() && a.source == b.source && a.record.Some? && a.record == b.record && a.field == b.field
  }

  /** At most one active claim per source, record id and field. */
  ghost predicate OneActivePerRecord(claims: seq<Claim>) {
    forall i, j | 0 <= i < j < |claims| :: !Twins(claims[i], claims[j])
  }

  /** One claim's share of the lineage. */
  ghost predicate Descends(claims: seq<Claim>, i: nat)
    requires i < |claims|
  {
    match claims[i].supersededBy
    case None => claims[i].kind == Raw
    case Some(b) => claims[i].kind == Superseded && i < b < |claims|
                    && claims[b].source == claims[i].source && claims[b].field == claims[i].field
  }

  lemma WrittenDescends(before: seq<Claim>, after: seq<Claim>, ing: Ingestion, i: nat)
    requires Accepted(ing) && WrittenClaimByClaim(before, after, ing, ing.items) && i < |after|
    requires i < |before| ==> Descends(before, i)
    requires forall c | 0 <= c < |before| :: after[c].SameAssertion(before[c])
    ensures Descends(after, i)
  {
    if i < |before| {
      assert after[i] == Rewritten(before[i], ing, ing.items, |before|);
      match ItemFor(ing.items, before[i].field)
      case Some(k) => assert after[|before| + k] == NewClaim(ing, ing.items[k]);
      case None =>
    } else {
      assert after[|before| + (i - |before|)] == NewClaim(ing, ing.items[i - |before|]);
    }
  }

  lemma WrittenKeepsAssertions(before: seq<Claim>, after: seq<Claim>, ing: Ingestion)
    requires AllHaveValues(ing.items) && WrittenClaimByClaim(before, after, ing, ing.items)
    ensures forall c | 0 <= c < |before| :: after[c].SameAssertion(before[c])
  {
    hide ItemFor, InScope;
  }

  lemma WrittenKeepsLineage(before: seq<Claim>, after: seq<Claim>, ing: Ingestion)
    requires Accepted(ing) && WrittenClaimByClaim(before, after, ing, ing.items) && Lineage(before)
    ensures Lineage(after)
  {
    WrittenKeepsAssertions(before, after, ing);
    hide WrittenClaimByClaim;
    forall i | 0 <= i < |after|
      ensures match after[i].supersededBy
              case None => after[i].kind == Raw
              case Some(b) => after[i].kind == Superseded && i < b < |after|
                              && after[b].source == after[i].source && after[b].field == after[i].field
    {
      WrittenDescends(before, after, ing, i);
    }
  }

  lemma WrittenKeepsOneActive(before: seq<Claim>, after: seq<Claim>, ing: Ingestion)
    requires Accepted(ing) && WrittenClaimByClaim(before, after, ing, ing.items) && OneActivePerRecord(before)
    ensures OneActivePerRecord(after)
  {
    forall i, j | 0 <= i < j < |after| ensures !Twins(after[i], after[j]) {
      if i < |before| {
        assert after[i] == Rewritten(before[i], ing, ing.items, |before|);
      } else {
        assert after[|before| + (i - |before|)] == NewClaim(ing, ing.items[i - |before|]);
      }
      if j < |before| {
        assert after[j] == Rewritten(before[j], ing, ing.items, |before|);
        assert !Twins(before[i], before[j]);
      } else {
        assert after[|before| + (j - |before|)] == NewClaim(ing, ing.items[j - |before|]);
        assert i < |before| && before[i].field == after[j].field ==> ItemFor(ing.items, before[i].field).Some?;
      }
    }
  }

  lemma WriteKeepsLineage(db: Db, ing: Ingestion)
    requires Accepted(ing) && Lineage(db.claims) && OneActivePerRecord(db.claims)
    ensures Lineage(Write(db, ing).claims) && OneActivePerRecord(Write(db, ing).claims)
  {
    WriteItemsClaimByClaim(db, ing, ing.items);
    WrittenKeepsLineage(db.claims, Write(db, ing).claims, ing);
    WrittenKeepsOneActive(db.claims, Write(db, ing).claims, ing);
  }

  lemma {:induction false} WriteRunLineage(ings: seq<Ingestion>)
    ensures Lineage(WriteRun(ings).claims) && OneActivePerRecord(WriteRun(ings).claims)
  {
    if ings == [] {
    } else {
      var n := |ings| - 1;
      WriteRunLineage(ings[..n]);
      if Accepted(ings[n]) {
        WriteKeepsLineage(WriteRun(ings[..n]), ings[n]);
      }
    }
  }

  /** The claim a supersession chain ends in. */
  function ChainEnd(claims: seq<Claim>, id: nat): nat
    requires id < |claims| && Lineage(claims)
    decreases |claims| - id
  {
    match claims[id].supersededBy
    case None => id
    case Some(b) => ChainEnd(claims, b)
  }

  /** Every chain of every run ends in an active claim of the same source and field. */
  lemma {:induction false} ChainEndsActive(claims: seq<Claim>, id: nat)
    requires id < |claims| && Lineage(claims)
    ensures var end := ChainEnd(claims, id);
            id <= end < |claims| && claims[end].IsActive()
            && claims[end].source == claims[id].source && claims[end].field == claims[id].field
    decreases |claims| - id
  {
    match claims[id].supersededBy
    case None =>
    case Some(b) => ChainEndsActive(claims, b);
  }

  /** A write without a record id leaves its own claim the only active one of its event, source
      and field, for every field it carried. */
  lemma UnrecordedWriteLeavesOneActive(db: Db, ing: Ingestion, i: nat, id: nat)
    requires Accepted(ing) && ing.record == None && i < |ing.items|
    ensures |Write(db, ing).claims| == |db.claims| + |ing.items|
    ensures id < |Write(db, ing).claims| ==>
              var c := Write(db, ing).claims[id];
              (c.IsActive() && c.event == ing.event && c.source == ing.source && c.field == ing.items[i].field
               <==> id == |db.claims| + i)
  {
    WriteItemsClaimByClaim(db, ing, ing.items);
    if id < |Write(db, ing).claims| {
      UnrecordedClaim(db.claims, Write(db, ing).claims, ing, i, id);
    }
  }

  lemma UnrecordedClaim(before: seq<Claim>, after: seq<Claim>, ing: Ingestion, i: nat, id: nat)
    requires Accepted(ing) && ing.record == None && i < |ing.items| && id < |after|
    requires WrittenClaimByClaim(before, after, ing, ing.items)
    ensures after[id].IsActive() && after[id].event == ing.event && after[id].source == ing.source
            && after[id].field == ing.items[i].field
            <==> id == |before| + i
  {
    if id < |before| {
      assert after[id] == Rewritten(before[id], ing, ing.items, |before|);
      if before[id].field == ing.items[i].field {
        assert ItemFor(ing.items, before[id].field).Some?;
      }
    } else {
      assert after[|before| + (id - |before|)] == NewClaim(ing, ing.items[id - |before|]);
    }
  }

  // ---------- History over runs of claim writes ----------

  function ExpectedRows(id: nat, active: bool): seq<HistoryRow> {
    if active then [HistoryRow(id, None, Raw)] else [HistoryRow(id, None, Raw), HistoryRow(id, Some(Raw), Superseded)]
  }

  /** Each claim has exactly its "created" row and, when superseded, exactly one more. */
  ghost predicate HistoryOfWrites(db: Db) {
    forall id: nat :: RowsOf(db.history, id) ==
      if id >= |db.claims| then []
      else ExpectedRows(id, db.claims[id].IsActive())
  }

  ghost predicate RawOrSuperseded(claims: seq<Claim>) {
    forall i | 0 <= i < |claims| :: claims[i].kind == Raw || claims[i].kind == Superseded
  }

  lemma AddingKeepsHistory(db: Db, c: Claim)
    requires HistoryOfWrites(db) && RawOrSuperseded(db.claims) && c.kind == Raw
    ensures HistoryOfWrites(AddClaim(db, c)) && RawOrSuperseded(AddClaim(db, c).claims)
  {
    forall id: nat
      ensures RowsOf(AddClaim(db, c).history, id)
              == if id > |db.claims| then [] else ExpectedRows(id, AddClaim(db, c).claims[id].IsActive())
    {
      assert RowsOf(db.history, id) == if id >= |db.claims| then [] else ExpectedRows(id, db.claims[id].IsActive());
      RowsOfPush(db.history, HistoryRow(|db.claims|, None, Raw), id);
    }
  }

  lemma SupersedingKeepsHistory(db: Db, ids: set<nat>, byId: nat)
    requires HistoryOfWrites(db) && RawOrSuperseded(db.claims)
    ensures HistoryOfWrites(Supersede(db, ids, byId)) && RawOrSuperseded(Supersede(db, ids, byId).claims)
  {
    var after := Supersede(db, ids, byId);
    forall id: nat
      ensures RowsOf(after.history, id) == if id >= |after.claims| then [] else ExpectedRows(id, after.claims[id].IsActive())
    {
      assert RowsOf(db.history, id) == if id >= |db.claims| then [] else ExpectedRows(id, db.claims[id].IsActive());
      RowsOfRetireRows(db.history, db.claims, ids, id);
    }
  }

  lemma WriteItemKeepsHistory(claims: seq<Claim>, db: Db, ing: Ingestion, item: Item)
    requires item.value.Some? && HistoryOfWrites(db) && RawOrSuperseded(db.claims)
    ensures HistoryOfWrites(WriteItem(claims, db, ing, item)) && RawOrSuperseded(WriteItem(claims, db, ing, item).claims)
  {
    hide HistoryOfWrites, RawOrSuperseded, Supersede, AddClaim;
    AddingKeepsHistory(db, NewClaim(ing, item));
    SupersedingKeepsHistory(AddClaim(db, NewClaim(ing, item)), Priors(claims, ing, item.field), |db.claims|);
  }

  lemma {:induction false} WriteItemsKeepHistory(claims: seq<Claim>, db: Db, ing: Ingestion, items: seq<Item>)
    requires AllHaveValues(items) && HistoryOfWrites(db) && RawOrSuperseded(db.claims)
    ensures HistoryOfWrites(WriteItems(claims, db, ing, items))
            && RawOrSuperseded(WriteItems(claims, db, ing, items).claims)
  {
    if items == [] {
    } else {
      var n := |items| - 1;
      WriteItemsKeepHistory(claims, db, ing, items[..n]);
      WriteItemKeepsHistory(claims, WriteItems(claims, db, ing, items[..n]), ing, items[n]);
    }
  }

  /** Over any run of claim writes: one created row per claim, at most one superseded row, and a
      claim is active exactly when its last row does not say Superseded. */
  lemma {:induction false} WriteRunHistory(ings: seq<Ingestion>)
    ensures HistoryOfWrites(WriteRun(ings)) && RawOrSuperseded(WriteRun(ings).claims)
  {
    if ings == [] {
    } else {
      var n := |ings| - 1;
      WriteRunHistory(ings[..n]);
      if Accepted(ings[n]) {
        WriteItemsKeepHistory(WriteRun(ings[..n]).claims, WriteRun(ings[..n]), ings[n], ings[n].items);
      }
    }
  }
}
