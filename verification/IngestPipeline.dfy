/**
 The claim and conflict phases of IngestSourceData, as one exclusive unit of work over the
 store: continuity, write, and the three reconciliation stages, all or nothing.
 */
module IngestPipeline {
  import opened Optional
  import opened Evidence
  import opened Interleaving
  import opened EvidenceStore
  import opened Reconciler
  import opened SerialRuns
  import G = MergeGraph
  import W = ClaimWriting
  import CW = ClaimWriter
  import R = EvidenceRuns

  lemma PendingIsCurrent(db: Db, run: Run, claims: seq<Claim>, ing: W.Ingestion, pending: seq<Pending>)
    requires CW.PendingComplete(db, run, claims, ing, pending)
    ensures AllCurrent(db, pending)
    ensures forall k | 0 <= k < |pending| :: WasRead(run, pending[k].loaded) && pending[k].loaded.row.status == Resolved
  {
    forall k | 0 <= k < |pending| ensures CW.PendingFits(db, run, claims, ing, pending[k]) {
    }
    forall j, k | 0 <= j < k < |pending| ensures pending[j].loaded.id != pending[k].loaded.id {
      assert pending[j].loaded.row.winner.value < pending[k].loaded.row.winner.value;
    }
  }

  /** A conflict's winner wins no other conflict of a serial table. */
  lemma OneConflictPerWinner(g: G.Graph, claims: seq<Claim>, conflicts: seq<Conflict>, i: nat, w: nat)
    requires SerialRows(g, claims, conflicts) && OneRowPerField(conflicts) && i < |conflicts|
    requires conflicts[i].status == Resolved && conflicts[i].winner == Some(w)
    ensures CW.ResolvedWonBy(conflicts, w) == Some(i)
  {
    var won := CW.ResolvedWonBy(conflicts, w).value;
    assert SerialRow(g, claims, conflicts[i]) && SerialRow(g, claims, conflicts[won]);
    assert claims[w].IsOn(conflicts[i].event, conflicts[i].field);
    assert claims[w].IsOn(conflicts[won].event, conflicts[won].field);
  }

  lemma LostRowIsListed(g: G.Graph, claims: seq<Claim>, conflicts: seq<Conflict>, ing: W.Ingestion,
                        pending: seq<Pending>, i: nat)
    requires CW.AllListed(conflicts, W.SupersededIds(claims, ing), pending, |claims|)
    requires SerialRows(g, claims, conflicts) && OneRowPerField(conflicts) && i < |conflicts|
    requires LostWinner(claims, ing, conflicts[i])
    ensures ReplacementFor(pending, i).Some?
  {
    OneConflictPerWinner(g, claims, conflicts, i, conflicts[i].winner.value);
    assert CW.Listed(pending, i);
    var k :| 0 <= k < |pending| && pending[k].loaded.id == i;
  }

  lemma ListedRowIsLost(db: Db, run: Run, claims: seq<Claim>, ing: W.Ingestion, pending: seq<Pending>, i: nat)
    requires CW.AllFit(db, run, claims, ing, pending) && i < |db.conflicts| && ReplacementFor(pending, i).Some?
    ensures LostWinner(claims, ing, db.conflicts[i])
    ensures ReplacementFor(pending, i).value == |claims| + W.ItemFor(ing.items, claims[db.conflicts[i].winner.value].field).value
  {
    var j :| 0 <= j < |pending| && pending[j].loaded.id == i
    && pending[j].replacement == ReplacementFor(pending, i).value;
    assert CW.PendingFits(db, run, claims, ing, pending[j]);
  }

  lemma SameFix(claims: seq<Claim>, after: seq<Claim>, ing: W.Ingestion, row: Conflict, replacement: Option<nat>)
    requires replacement.Some? <==> LostWinner(claims, ing, row)
    requires replacement.Some? ==>
              replacement.value == |claims| + W.ItemFor(ing.items, claims[row.winner.value].field).value
    ensures FixLostRow(claims, after, ing, row) ==
            match replacement
            case Some(r) => FixedWinner(after, row, r)
            case None => row
  {
  }

  /** The list the claim writer collects holds exactly the rows that lost their winner. */
  lemma FixWinnersIsFixLost(db: Db, run: Run, claims: seq<Claim>, ing: W.Ingestion, pending: seq<Pending>)
    requires CW.AllFit(db, run, claims, ing, pending)
    requires CW.AllListed(db.conflicts, W.SupersededIds(claims, ing), pending, |claims|)
    requires SerialRows(db.events, claims, db.conflicts) && OneRowPerField(db.conflicts)
    ensures FixWinners(db, pending) == FixLost(db, claims, ing)
  {
    forall i: nat | i < |db.conflicts|
      ensures FixWinners(db, pending).conflicts[i] == FixLost(db, claims, ing).conflicts[i]
    {
      if ReplacementFor(pending, i).Some? {
        ListedRowIsLost(db, run, claims, ing, pending, i);
      } else if LostWinner(claims, ing, db.conflicts[i]) {
        LostRowIsListed(db.events, claims, db.conflicts, ing, pending, i);
      }
      SameFix(claims, db.claims, ing, db.conflicts[i], ReplacementFor(pending, i));
    }
  }

  class IngestSourceData {
    const store: Store

    constructor (store: Store)
      ensures this.store == store
    {
      this.store := store;
    }

    /** The tables after the call are exactly those of the serial step; a rejected submission leaves
        no trace. */
    method Execute(ing: W.Ingestion, explicitEvent: bool) returns (committed: bool)
      requires store.Valid() && store.exclusive && Serial(store.db)
      modifies store
      ensures store.Valid() && Serial(store.db)
      ensures committed == R.Succeeds(old(store.db), R.Ingestion(ing, explicitEvent))
      ensures store.db == R.Take(old(store.db), R.Ingestion(ing, explicitEvent))
      ensures committed ==>
                exists e: nat :: R.TargetEvent(old(store.db), ing, explicitEvent) == Some(e)
                                 && (explicitEvent ==> e == ing.event)
                                 && W.WrittenInColumns(old(store.db).claims, store.db.claims, ing.(event := e))
    {
      if R.Succeeds(store.db, R.Ingestion(ing, explicitEvent)) {
        R.IngestionWrites(store.db, ing, explicitEvent);
      }
      R.TakeIsSerial(store.db, R.Ingestion(ing, explicitEvent));
      var target := R.TargetEvent(store.db, ing, explicitEvent);
      if target.None? {
        return false;
      }
      R.ContinuityScopesTheWrite(store.db, ing, explicitEvent);
      var saved := store.run;
      store.Act(|store.run.states| - 1, ChangeEvents(G.Created(target.value)));
      committed := WriteAndReconcile(ing.(event := target.value));
      if !committed {
        store.Rollback(saved);
      }
    }

    method WriteAndReconcile(ing: W.Ingestion) returns (committed: bool)
      requires store.Valid() && store.exclusive
      requires SerialRows(store.db.events, store.db.claims, store.db.conflicts) && OneRowPerField(store.db.conflicts)
      modifies store
      ensures store.Valid()
      ensures committed == W.Accepted(ing)
      ensures store.db == if committed then Ingest(old(store.db), ing) else old(store.db)
    {
      ghost var db0 := store.db;
      var saved := store.run;
      var writer := new CW.Writer(store);
      var written := writer.WriteNormalised(ing);
      if written.Failed? {
        store.Rollback(saved);
        return false;
      }
      ghost var db1 := store.db;
      var result := written.value;
      W.WriteItemsClaimByClaim(db0, ing, ing.items);
      PendingIsCurrent(db1, store.run, db0.claims, ing, result.pending);
      FixWinnersIsFixLost(db1, store.run, db0.claims, ing, result.pending);
      var reconciler := new ConflictReconciler(store);
      var outcome := reconciler.ReconcileSupersededWinners(result.pending);
      outcome := reconciler.AutoResolveStaleOpenConflicts(ing.event, result.affectedFields);
      outcome := reconciler.DetectAndApplyNewConflicts(ing.event);
      committed := true;
    }
  }
}
