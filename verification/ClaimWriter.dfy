/** The ClaimWriter class over the store, proved against the write of module ClaimWriting. */
module ClaimWriter {
  import opened Optional
  import opened Evidence
  import opened Interleaving
  import opened EvidenceStore
  import opened Reconciler
  import W = ClaimWriting

  /** _assert_no_duplicate_fields: the fields that appear more than once. */
  method DuplicateFields(items: seq<W.Item>) returns (duplicates: set<FieldName>)
    ensures forall f :: f in duplicates <==>
              exists i, j :: 0 <= i < j < |items| && items[i].field == f && items[j].field == f
    ensures duplicates == {} <==> W.DistinctFields(items)
  {
    var seen: set<FieldName> := {};
    duplicates := {};
    for k := 0 to |items|
      invariant forall f :: f in seen <==> exists i :: 0 <= i < k && items[i].field == f
      invariant forall f :: f in duplicates <==>
                exists i, j :: 0 <= i < j < k && items[i].field == f && items[j].field == f
    {
      var f := items[k].field;
      if f in seen {
        duplicates := duplicates + {f};
      }
      seen := seen + {f};
    }
    if duplicates == {} {
      forall i, j | 0 <= i < j < |items| ensures items[i].field != items[j].field {
        assert items[i].field !in duplicates;
      }
    }
  }

  /** find_resolved_by_winning_claims for one claim: the last resolved conflict it won. */
  function ResolvedWonBy(conflicts: seq<Conflict>, w: nat): (r: Option<nat>)
    ensures r.Some? ==>
              r.value < |conflicts| && conflicts[r.value].status == Resolved && conflicts[r.value].winner == Some(w)
    ensures r.None? ==>
              forall i | 0 <= i < |conflicts| :: !(conflicts[i].status == Resolved && conflicts[i].winner == Some(w))
  {
    if conflicts == [] then None
    else
      var n := |conflicts| - 1;
      if conflicts[n].status == Resolved && conflicts[n].winner == Some(w) then Some(n)
      else
        assert forall i | 0 <= i < n :: conflicts[..n][i] == conflicts[i];
        ResolvedWonBy(conflicts[..n], w)
  }

  /** One entry of resolved_conflicts_to_reconcile: a resolved conflict, as it is now, whose winner
      the write superseded, with the new claim of the winner's field. */
  ghost predicate PendingFits(db: Db, run: Run, claims: seq<Claim>, ing: W.Ingestion, p: Pending) {
    WasRead(run, p.loaded) && Current(db, p.loaded) && p.loaded.row.status == Resolved
    && p.loaded.row.winner.Some?
    && var w := p.loaded.row.winner.value;
       w in W.SupersededIds(claims, ing)
       && W.ItemFor(ing.items, claims[w].field).Some?
       && p.replacement == |claims| + W.ItemFor(ing.items, claims[w].field).value
  }

  /** The field of the first item without a value. */
  ghost predicate FirstMissing(items: seq<W.Item>, f: FieldName) {
    exists i :: 0 <= i < |items| && items[i].value.None? && items[i].field == f && W.AllHaveValues(items[..i])
  }

  class Writer {
    const store: Store

    constructor (store: Store)
      ensures this.store == store
    {
      this.store := store;
    }

    method WriteNormalised(ing: W.Ingestion) returns (r: W.Outcome<W.WriteResult>)
      requires store.Valid()
      modifies store
      ensures store.Valid()
      ensures !W.DistinctFields(ing.items) ==>
                r.Failed? && r.error.DuplicateClaimField? && store.db == old(store.db)
                && forall f :: f in r.error.fields <==>
                     exists i, j :: 0 <= i < j < |ing.items| && ing.items[i].field == f && ing.items[j].field == f
      ensures W.DistinctFields(ing.items) && !W.AllHaveValues(ing.items) ==>
                r.Failed? && r.error.MissingFieldValue? && FirstMissing(ing.items, r.error.field)
      ensures W.Accepted(ing) ==> r.Ok?
      ensures r.Ok? ==> W.Accepted(ing) && store.db == W.Write(old(store.db), ing)
      ensures r.Ok? ==> r.value.firstNew == |old(store.db.claims)|
                        && r.value.superseded == W.SupersededIds(old(store.db.claims), ing)
                        && r.value.affectedFields == W.AffectedFields(old(store.db.claims), ing)
      ensures r.Ok? ==> PendingComplete(store.db, store.run, old(store.db.claims), ing, r.value.pending)
    {
      var duplicates := DuplicateFields(ing.items);
      if duplicates != {} {
        return W.Failed(W.DuplicateClaimField(duplicates));
      }
      var claims := store.db.claims;
      var missing, superseded, affected := WriteEach(ing);
      if missing.Some? {
        return W.Failed(W.MissingFieldValue(missing.value));
      }
      var pending := CollectPending(ing, claims, superseded);
      r := W.Ok(W.WriteResult(|claims|, superseded, affected, pending));
    }

    /** The loop over the items; stops at the first one without a value. */
    method WriteEach(ing: W.Ingestion)
      returns (missing: Option<FieldName>, superseded: set<nat>, affected: set<FieldName>)
      requires store.Valid()
      modifies store
      ensures store.Valid()
      ensures missing.None? <==> W.AllHaveValues(ing.items)
      ensures missing.Some? ==> FirstMissing(ing.items, missing.value)
      ensures missing.None? ==> store.db == W.Write(old(store.db), ing)
                                && superseded == W.SupersededIds(old(store.db.claims), ing)
                                && affected == W.AffectedFields(old(store.db.claims), ing)
    {
      var claims := store.db.claims;
      missing, superseded, affected := None, {}, {};
      for i := 0 to |ing.items|
        invariant store.Valid()
        invariant WrittenSoFar(claims, old(store.db), store.db, ing, i)
        invariant SupersededSoFar(claims, ing, superseded, i)
        invariant AffectedSoFar(claims, superseded, affected)
      {
        if ing.items[i].value.None? {
          missing := Some(ing.items[i].field);
          return;
        }
        superseded, affected := WriteNext(ing, i, claims, superseded, affected, old(store.db));
      }
      assert ing.items[..|ing.items|] == ing.items;
      AffectedAreTheFields(claims, ing, superseded, affected);
    }

    /** One pass of that loop. */
    method WriteNext(ing: W.Ingestion, i: nat, claims: seq<Claim>, superseded: set<nat>, affected: set<FieldName>,
                     ghost db0: Db)
      returns (superseded': set<nat>, affected': set<FieldName>)
      requires store.Valid() && i < |ing.items| && ing.items[i].value.Some?
      requires WrittenSoFar(claims, db0, store.db, ing, i)
      requires SupersededSoFar(claims, ing, superseded, i) && AffectedSoFar(claims, superseded, affected)
      modifies store
      ensures store.Valid() && WrittenSoFar(claims, db0, store.db, ing, i + 1)
      ensures SupersededSoFar(claims, ing, superseded', i + 1) && AffectedSoFar(claims, superseded', affected')
    {
      var item := ing.items[i];
      ghost var was := store.db;
      WriteOne(ing, item, claims);
      WrittenOneMore(claims, db0, was, store.db, ing, i);
      OneMorePriors(claims, ing, superseded, affected, i);
      var priors := W.Priors(claims, ing, item.field);
      affected' := if priors != {} then affected + {item.field} else affected;
      superseded' := superseded + priors;
    }

    /** A new claim and the supersession of the prior ones of its field. */
    method WriteOne(ing: W.Ingestion, item: W.Item, claims: seq<Claim>)
      requires store.Valid() && item.value.Some?
      modifies store
      ensures store.Valid() && store.db == W.WriteItem(claims, old(store.db), ing, item)
    {
      var newId := |store.db.claims|;
      store.Act(|store.run.states| - 1, WriteClaim(W.NewClaim(ing, item)));
      store.Act(|store.run.states| - 1, RetireClaims(W.Priors(claims, ing, item.field), newId));
    }

    /** The lookup of resolved conflicts won by superseded claims, in claim order. */
    method CollectPending(ing: W.Ingestion, claims: seq<Claim>, superseded: set<nat>) returns (pending: seq<Pending>)
      requires store.Valid() && superseded == W.SupersededIds(claims, ing)
      ensures PendingComplete(store.db, store.run, claims, ing, pending)
    {
      pending := [];
      for id := 0 to |claims|
        invariant PendingUpTo(store.db, store.run, claims, ing, pending, id)
      {
        if id in superseded {
          var won := ResolvedWonBy(store.db.conflicts, id);
          if won.Some? {
            var l := store.Load(won.value);
            var replacement := W.ItemFor(ing.items, claims[id].field);
            var p := Pending(l, |claims| + replacement.value);
            OneMoreListed(store.db.conflicts, superseded, pending, id, p);
            pending := pending + [p];
          }
        }
      }
    }
  }

  ghost predicate WrittenSoFar(claims: seq<Claim>, db0: Db, now: Db, ing: W.Ingestion, i: nat)
    requires i <= |ing.items|
  {
    W.AllHaveValues(ing.items[..i]) && now == W.WriteItems(claims, db0, ing, ing.items[..i])
  }

  lemma WrittenOneMore(claims: seq<Claim>, db0: Db, was: Db, now: Db, ing: W.Ingestion, i: nat)
    requires i < |ing.items| && ing.items[i].value.Some? && WrittenSoFar(claims, db0, was, ing, i)
    requires now == W.WriteItem(claims, was, ing, ing.items[i])
    ensures WrittenSoFar(claims, db0, now, ing, i + 1)
  {
    assert ing.items[..i + 1] == ing.items[..i] + [ing.items[i]];
    W.WriteItemsPush(claims, db0, ing, ing.items[..i], ing.items[i]);
  }

  ghost predicate SupersededSoFar(claims: seq<Claim>, ing: W.Ingestion, superseded: set<nat>, i: nat)
    requires i <= |ing.items|
  {
    forall id: nat :: id in superseded <==> exists k :: 0 <= k < i && id in W.Priors(claims, ing, ing.items[k].field)
  }

  ghost predicate AffectedSoFar(claims: seq<Claim>, superseded: set<nat>, affected: set<FieldName>) {
    (forall id | id in superseded :: id < |claims| && claims[id].field in affected)
    && forall f | f in affected :: exists id :: id in superseded && id < |claims| && claims[id].field == f
  }

  lemma OneMorePriors(claims: seq<Claim>, ing: W.Ingestion, superseded: set<nat>, affected: set<FieldName>, i: nat)
    requires i < |ing.items| && SupersededSoFar(claims, ing, superseded, i)
             && AffectedSoFar(claims, superseded, affected)
    ensures var f := ing.items[i].field;
            var priors := W.Priors(claims, ing, f);
            SupersededSoFar(claims, ing, superseded + priors, i + 1)
            && AffectedSoFar(claims, superseded + priors, if priors != {} then affected + {f} else affected)
  {
    var f := ing.items[i].field;
    var priors := W.Priors(claims, ing, f);
    if priors != {} {
      var id: nat :| id in priors;
      assert id in superseded + priors;
    }
    forall g | g in affected ensures exists id :: id in superseded + priors && id < |claims| && claims[id].field == g {
      var id :| id in superseded && id < |claims| && claims[id].field == g;
      assert id in superseded + priors;
    }
  }

  ghost predicate Listed(pending: seq<Pending>, conflict: nat) {
    exists k :: 0 <= k < |pending| && pending[k].loaded.id == conflict
  }

  ghost predicate AllFit(db: Db, run: Run, claims: seq<Claim>, ing: W.Ingestion, pending: seq<Pending>) {
    forall k | 0 <= k < |pending| :: PendingFits(db, run, claims, ing, pending[k])
  }

  /** In increasing order of the winner, hence no conflict twice. */
  ghost predicate WinnersAscend(pending: seq<Pending>) {
    (forall k | 0 <= k < |pending| :: pending[k].loaded.row.winner.Some?)
    && forall j, k | 0 <= j < k < |pending| :: pending[j].loaded.row.winner.value < pending[k].loaded.row.winner.value
  }

  ghost predicate AllListed(conflicts: seq<Conflict>, superseded: set<nat>, pending: seq<Pending>, bound: nat) {
    forall w: nat | w < bound && w in superseded && ResolvedWonBy(conflicts, w).Some? ::
      Listed(pending, ResolvedWonBy(conflicts, w).value)
  }

  /** The entries for the superseded claims below `bound`. */
  ghost predicate PendingUpTo(db: Db, run: Run, claims: seq<Claim>, ing: W.Ingestion, pending: seq<Pending>,
                              bound: nat) {
    AllFit(db, run, claims, ing, pending) && WinnersAscend(pending)
    && (forall k | 0 <= k < |pending| :: pending[k].loaded.row.winner.value < bound)
    && AllListed(db.conflicts, W.SupersededIds(claims, ing), pending, bound)
  }

  lemma OneMoreListed(conflicts: seq<Conflict>, superseded: set<nat>, pending: seq<Pending>, bound: nat, p: Pending)
    requires AllListed(conflicts, superseded, pending, bound)
    requires ResolvedWonBy(conflicts, bound) == Some(p.loaded.id)
    ensures AllListed(conflicts, superseded, pending + [p], bound + 1)
  {
    forall w: nat | w < bound + 1 && w in superseded && ResolvedWonBy(conflicts, w).Some?
      ensures Listed(pending + [p], ResolvedWonBy(conflicts, w).value)
    {
      ListedPush(pending, p, ResolvedWonBy(conflicts, w).value);
    }
  }

  lemma ListedPush(pending: seq<Pending>, p: Pending, conflict: nat)
    ensures Listed(pending, conflict) || p.loaded.id == conflict ==> Listed(pending + [p], conflict)
  {
    var after := pending + [p];
    assert after[|pending|] == p;
    if Listed(pending, conflict) {
      var k :| 0 <= k < |pending| && pending[k].loaded.id == conflict;
      assert after[k] == pending[k];
    }
  }

  /** Every entry fits, no winner appears twice, and every resolved conflict found for a superseded
      winner is there: each superseded winner has a replacement among the new claims. */
  ghost predicate PendingComplete(db: Db, run: Run, claims: seq<Claim>, ing: W.Ingestion, pending: seq<Pending>) {
    PendingUpTo(db, run, claims, ing, pending, |claims|)
  }

  lemma AffectedAreTheFields(claims: seq<Claim>, ing: W.Ingestion, superseded: set<nat>, affected: set<FieldName>)
    requires SupersededSoFar(claims, ing, superseded, |ing.items|) && AffectedSoFar(claims, superseded, affected)
    ensures superseded == W.SupersededIds(claims, ing) && affected == W.AffectedFields(claims, ing)
  {
    SupersededAreThePriors(claims, ing, superseded);
  }

  lemma SupersededAreThePriors(claims: seq<Claim>, ing: W.Ingestion, superseded: set<nat>)
    requires SupersededSoFar(claims, ing, superseded, |ing.items|)
    ensures superseded == W.SupersededIds(claims, ing)
  {
    forall id: nat ensures id in superseded <==> id in W.SupersededIds(claims, ing) {
      if id in superseded {
        var k :| 0 <= k < |ing.items| && id in W.Priors(claims, ing, ing.items[k].field);
        assert W.ItemFor(ing.items, claims[id].field).Some?;
      }
      if id in W.SupersededIds(claims, ing) {
        var k := W.ItemFor(ing.items, claims[id].field).value;
        assert id in W.Priors(claims, ing, ing.items[k].field);
      }
    }
  }
}
