/**
 The three ways the claims table changes (insert, bulk supersede, bulk un-supersede), each
 with the claim_history rows written beside it, and the law that replaying a claim's
 history rows gives its current type.
 */
module ClaimLedger {
  import opened Optional
  import opened Evidence

  /** A new claim and its "created" history row. */
  function AddClaim(db: Db, c: Claim): Db {
    db.(claims := db.claims + [c], history := db.history + [HistoryRow(|db.claims|, None, c.kind)])
  }

  function Retire(c: Claim, byId: nat): Claim {
    c.(kind := Superseded, supersededBy := Some(byId))
  }

  /** bulk_supersede: only claims that are still active change. */
  function RetireAll(claims: seq<Claim>, ids: set<nat>, byId: nat): (r: seq<Claim>)
    ensures |r| == |claims|
  {
    seq(|claims|, i requires 0 <= i < |claims| => if i in ids && claims[i].IsActive() then Retire(claims[i], byId) else claims[i])
  }

  /** One row per claim superseded, from the type it had. */
  function RetireRows(claims: seq<Claim>, ids: set<nat>): seq<HistoryRow> {
    if claims == [] then []
    else
      var n := |claims| - 1;
      RetireRows(claims[..n], ids) +
      (if n in ids && claims[n].IsActive() then [HistoryRow(n, Some(claims[n].kind), Superseded)] else [])
  }

  function Supersede(db: Db, ids: set<nat>, byId: nat): Db {
    db.(claims := RetireAll(db.claims, ids, byId), history := db.history + RetireRows(db.claims, ids))
  }

  /** The type to restore: the from-type of the latest row that superseded the claim, Raw
      when there is none or it says nothing usable. */
  function RestoredType(history: seq<HistoryRow>, id: nat): (t: ClaimType)
    ensures t != Superseded
  {
    if history == [] then Raw
    else
      var last := history[|history| - 1];
      if last.claim == id && last.toType == Superseded then
        match last.fromType
        case Some(t) => if t == Superseded then Raw else t
        case None => Raw
      else RestoredType(history[..|history| - 1], id)
  }

  function ReviveAll(claims: seq<Claim>, history: seq<HistoryRow>, ids: set<nat>): (r: seq<Claim>)
    ensures |r| == |claims|
  {
    seq(|claims|, i requires 0 <= i < |claims| =>
      if i in ids then claims[i].(kind := RestoredType(history, i), supersededBy := None) else claims[i])
  }

  function ReviveRows(n: nat, history: seq<HistoryRow>, ids: set<nat>): seq<HistoryRow> {
    if n == 0 then []
    else
      ReviveRows(n - 1, history, ids) +
      (if n - 1 in ids then [HistoryRow(n - 1, Some(Superseded), RestoredType(history, n - 1))] else [])
  }

  /** bulk_unsupersede, with the "reactivated" rows its caller writes. */
  function Reactivate(db: Db, ids: set<nat>): Db {
    db.(claims := ReviveAll(db.claims, db.history, ids),
        history := db.history + ReviveRows(|db.claims|, db.history, ids))
  }

  /** A claim points at a superseding claim exactly when it is superseded. */
  ghost predicate PointersMatchTypes(claims: seq<Claim>) {
    forall i | 0 <= i < |claims| ::
      (claims[i].kind == Superseded <==> claims[i].supersededBy.Some?)
      && (claims[i].supersededBy.Some? ==> claims[i].supersededBy.value < |claims|)
  }

  // ---------- History replay ----------

  datatype Replayed = NeverCreated | At(kind: ClaimType) | Broken

  function ReplayRow(r: Replayed, row: HistoryRow): Replayed {
    match r
    case NeverCreated => if row.fromType == None then At(row.toType) else Broken
    case At(t) => if row.fromType == Some(t) then At(row.toType) else Broken
    case Broken => Broken
  }

  /** Replays the rows of one claim in order; Broken if a row does not start where the claim stood. */
  function Replay(history: seq<HistoryRow>, id: nat): Replayed {
    if history == [] then NeverCreated
    else
      var before := Replay(history[..|history| - 1], id);
      var last := history[|history| - 1];
      if last.claim == id then ReplayRow(before, last) else before
  }

  /** Replaying the history gives every claim its current type, and mentions no other claim. */
  ghost predicate HistoryFaithful(db: Db) {
    forall id: nat :: Replay(db.history, id) == if id < |db.claims| then At(db.claims[id].kind) else NeverCreated
  }

  lemma ReplayPush(history: seq<HistoryRow>, row: HistoryRow, id: nat)
    ensures Replay(history + [row], id) == if row.claim == id then ReplayRow(Replay(history, id), row) else Replay(history, id)
  {
    assert (history + [row])[..|history|] == history;
  }

  lemma AddClaimKeepsHistory(db: Db, c: Claim)
    requires HistoryFaithful(db)
    ensures HistoryFaithful(AddClaim(db, c))
  {
    forall id: nat {
      ReplayPush(db.history, HistoryRow(|db.claims|, None, c.kind), id);
    }
  }

  lemma {:induction false} ReplayRetireRows(history: seq<HistoryRow>, claims: seq<Claim>, ids: set<nat>, id: nat)
    requires id < |claims| ==> Replay(history, id) == At(claims[id].kind)
    ensures Replay(history + RetireRows(claims, ids), id) ==
            if id < |claims| && id in ids && claims[id].IsActive() then At(Superseded) else Replay(history, id)
    decreases |claims|
  {
    if claims == [] {
      assert history + RetireRows(claims, ids) == history;
    } else {
      var n := |claims| - 1;
      var rest := RetireRows(claims[..n], ids);
      ReplayRetireRows(history, claims[..n], ids, id);
      if n in ids && claims[n].IsActive() {
        var row := HistoryRow(n, Some(claims[n].kind), Superseded);
        assert history + RetireRows(claims, ids) == (history + rest) + [row];
        ReplayPush(history + rest, row, id);
      } else {
        assert history + RetireRows(claims, ids) == history + rest;
      }
    }
  }

  lemma SupersedeKeepsHistory(db: Db, ids: set<nat>, byId: nat)
    requires HistoryFaithful(db)
    ensures HistoryFaithful(Supersede(db, ids, byId))
  {
    forall id: nat
      ensures Replay(Supersede(db, ids, byId).history, id) ==
              if id < |db.claims| then At(Supersede(db, ids, byId).claims[id].kind) else NeverCreated
    {
      assert Replay(db.history, id) == if id < |db.claims| then At(db.claims[id].kind) else NeverCreated;
      ReplayRetireRows(db.history, db.claims, ids, id);
    }
  }

  lemma {:induction false} ReplayReviveRows(base: seq<HistoryRow>, n: nat, history: seq<HistoryRow>, ids: set<nat>,
                                            id: nat)
    requires id < n && id in ids ==> Replay(base, id) == At(Superseded)
    ensures Replay(base + ReviveRows(n, history, ids), id) ==
            if id < n && id in ids then At(RestoredType(history, id)) else Replay(base, id)
  {
    if n == 0 {
      assert base + ReviveRows(n, history, ids) == base;
    } else {
      var rest := ReviveRows(n - 1, history, ids);
      ReplayReviveRows(base, n - 1, history, ids, id);
      if n - 1 in ids {
        var row := HistoryRow(n - 1, Some(Superseded), RestoredType(history, n - 1));
        assert base + ReviveRows(n, history, ids) == (base + rest) + [row];
        ReplayPush(base + rest, row, id);
      } else {
        assert base + ReviveRows(n, history, ids) == base + rest;
      }
    }
  }

  lemma ReactivateKeepsHistory(db: Db, ids: set<nat>)
    requires HistoryFaithful(db)
    requires forall i | i in ids :: i < |db.claims| && db.claims[i].kind == Superseded
    ensures HistoryFaithful(Reactivate(db, ids))
  {
    forall id: nat
      ensures Replay(Reactivate(db, ids).history, id) ==
              if id < |db.claims| then At(Reactivate(db, ids).claims[id].kind) else NeverCreated
    {
      assert Replay(db.history, id) == if id < |db.claims| then At(db.claims[id].kind) else NeverCreated;
      ReplayReviveRows(db.history, |db.claims|, db.history, ids, id);
    }
  }

  // ---------- Undoing a supersede ----------

  lemma {:induction false} RestoredAfterRetireRows(history: seq<HistoryRow>, claims: seq<Claim>, ids: set<nat>, id: nat)
    ensures RestoredType(history + RetireRows(claims, ids), id) ==
            if id < |claims| && id in ids && claims[id].IsActive() then claims[id].kind else RestoredType(history, id)
    decreases |claims|
  {
    if claims == [] {
      assert history + RetireRows(claims, ids) == history;
    } else {
      var n := |claims| - 1;
      var rest := RetireRows(claims[..n], ids);
      RestoredAfterRetireRows(history, claims[..n], ids, id);
      if n in ids && claims[n].IsActive() {
        var row := HistoryRow(n, Some(claims[n].kind), Superseded);
        assert history + RetireRows(claims, ids) == (history + rest) + [row];
        assert ((history + rest) + [row])[..|history + rest|] == history + rest;
      } else {
        assert history + RetireRows(claims, ids) == history + rest;
      }
    }
  }

  // ---------- The rows of one claim ----------

  function RowsOf(history: seq<HistoryRow>, id: nat): seq<HistoryRow> {
    if history == [] then []
    else
      var n := |history| - 1;
      if history[n].claim == id then RowsOf(history[..n], id) + [history[n]] else RowsOf(history[..n], id)
  }

  lemma RowsOfPush(history: seq<HistoryRow>, row: HistoryRow, id: nat)
    ensures RowsOf(history + [row], id) == if row.claim == id then RowsOf(history, id) + [row] else RowsOf(history, id)
  {
    assert (history + [row])[..|history|] == history;
  }

  lemma {:induction false} RowsOfRetireRows(history: seq<HistoryRow>, claims: seq<Claim>, ids: set<nat>, id: nat)
    ensures RowsOf(history + RetireRows(claims, ids), id) ==
            if id < |claims| && id in ids && claims[id].IsActive()
            then RowsOf(history, id) + [HistoryRow(id, Some(claims[id].kind), Superseded)] else RowsOf(history, id)
    decreases |claims|
  {
    if claims == [] {
      assert history + RetireRows(claims, ids) == history;
    } else {
      var n := |claims| - 1;
      var rest := RetireRows(claims[..n], ids);
      RowsOfRetireRows(history, claims[..n], ids, id);
      if n in ids && claims[n].IsActive() {
        var row := HistoryRow(n, Some(claims[n].kind), Superseded);
        assert history + RetireRows(claims, ids) == (history + rest) + [row];
        RowsOfPush(history + rest, row, id);
      } else {
        assert history + RetireRows(claims, ids) == history + rest;
      }
    }
  }
}
