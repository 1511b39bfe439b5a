/**
 MergeDuplicateEvents as one exclusive unit of work over the store: pointer, transfer, closing and
 detection, all or nothing.
 */
module MergePipeline {
  import opened Optional
  import opened Evidence
  import opened ClaimLedger
  import opened Interleaving
  import opened EvidenceStore
  import opened Reconciler
  import G = MergeGraph
  import M = EventMerges
  import R = EvidenceRuns
  import S = SerialRuns

  class MergeDuplicateEvents {
    const store: Store

    constructor (store: Store)
      ensures this.store == store
    {
      this.store := store;
    }

    /** The tables after the call are exactly those of the merge as a function; a failed merge leaves no
        trace. */
    method Execute(source: nat, target: nat) returns (error: Option<M.MergeError>)
      requires store.Valid() && store.exclusive
      modifies store
      ensures store.Valid()
      ensures error.None? <==> M.Merge(old(store.db), source, target).Committed?
      ensures error.Some? ==> M.Merge(old(store.db), source, target) == M.Rejected(error.value)
      ensures store.db == R.Take(old(store.db), R.MergeStep(source, target))
      ensures S.Serial(old(store.db)) ==> S.Serial(store.db)
    {
      ghost var db0 := store.db;
      if S.Serial(db0) {
        R.TakeIsSerial(db0, R.MergeStep(source, target));
      }
      var refused := G.StartError(store.db.events, source, target);
      if refused.Some? {
        return Some(M.NotMergeable(refused.value));
      }
      var saved := store.run;
      store.Act(|store.run.states| - 1, ChangeEvents(G.Merged(source, target)));
      TransferClaims(source, target);
      var unloadable := M.FirstUnloadable(store.db.conflicts, source);
      if unloadable.Some? {
        store.Rollback(saved);
        return Some(M.UnloadableConflict(unloadable.value));
      }
      M.MergeCommitsIff(db0, source, target);
      var reconciler := new ConflictReconciler(store);
      var outcome := reconciler.DetectAndApplyNewConflicts(target);
      error := None;
    }

    /** The two loops: a copy of each active claim, and then each original superseded by its copy. */
    method TransferClaims(source: nat, target: nat)
      requires store.Valid()
      modifies store
      ensures store.Valid() && store.db == M.Transfer(old(store.db), source, target)
    {
      var claims := store.db.claims;
      var ids := M.ActiveOf(claims, source);
      CopyClaims(claims, ids, target);
      RetireOriginals(ids, |claims|);
    }

    method CopyClaims(claims: seq<Claim>, ids: seq<nat>, target: nat)
      requires store.Valid() && claims == store.db.claims && M.Known(claims, ids)
      requires forall k | 0 <= k < |ids| :: claims[ids[k]].IsActive()
      modifies store
      ensures store.Valid() && store.db == M.AddCopies(claims, old(store.db), ids, target)
      ensures |store.db.claims| == |claims| + |ids|
    {
      for i := 0 to |ids|
        invariant store.Valid() && store.db == M.AddCopies(claims, old(store.db), ids[..i], target)
        invariant |store.db.claims| == |claims| + i
      {
        assert ids[..i + 1][..i] == ids[..i];
        store.Act(|store.run.states| - 1, WriteClaim(M.Copy(claims[ids[i]], target)));
      }
      assert ids[..|ids|] == ids;
    }

    method RetireOriginals(ids: seq<nat>, first: nat)
      requires store.Valid() && first + |ids| <= |store.db.claims|
      modifies store
      ensures store.Valid() && store.db == M.RetireEach(old(store.db), ids, first)
    {
      hide Legal, M.RetireEach, Supersede;
      ghost var was := store.db;
      RetireNone(was, ids, first);
      for i := 0 to |ids|
        invariant store.Valid() && store.db == M.RetireEach(was, ids[..i], first)
        invariant |store.db.claims| == |was.claims|
      {
        RetireNext(was, ids, i, first);
        store.Act(LastState(), RetireClaims({ids[i]}, first + i));
      }
      assert ids[..|ids|] == ids;
    }

    function LastState(): nat
      requires store.Valid()
      reads store
    {
      |store.run.states| - 1
    }
  }

  lemma RetireNone(db: Db, ids: seq<nat>, first: nat)
    ensures M.RetireEach(db, ids[..0], first) == db
  {
  }

  lemma RetireNext(db: Db, ids: seq<nat>, i: nat, first: nat)
    requires i < |ids|
    ensures M.RetireEach(db, ids[..i + 1], first) == Supersede(M.RetireEach(db, ids[..i], first), {ids[i]}, first + i)
    ensures |Supersede(M.RetireEach(db, ids[..i], first), {ids[i]}, first + i).claims|
            == |M.RetireEach(db, ids[..i], first).claims|
  {
    assert ids[..i + 1][..i] == ids[..i];
  }
}
