/**
 Chains of supersession over whole runs. A curator may let a newer claim lose to an older one and a reopen
 cuts chains, so no order of the claims orders their pointers; still no chain ever loops.
 */
module SupersessionChains {
  import opened Optional
  import opened Evidence
  import opened ClaimLedger
  import opened SerialRuns
  import opened EvidenceRuns
  import G = MergeGraph
  import M = EventMerges
  import W = ClaimWriting
  import C = Curation

  /** Claims and their superseding claims, as a graph of pointers. */
  function Pointers(claims: seq<Claim>): G.Graph {
    map i: nat | i < |claims| :: claims[i].supersededBy
  }

  /** A superseded claim points at another of its field, and following the pointers ends, in a claim without
      one. */
  ghost predicate Chained(claims: seq<Claim>) {
    PointersMatchTypes(claims) && G.Forest(Pointers(claims))
    && forall c | 0 <= c < |claims| && claims[c].supersededBy.Some? && claims[c].supersededBy.value < |claims| ::
         claims[claims[c].supersededBy.value].field == claims[c].field
  }

  // ---------- Graphs ----------

  /** Some roots come to point at roots, and new roots are added. */
  ghost predicate RootsMoved(g: G.Graph, h: G.Graph) {
    g.Keys <= h.Keys
    && (forall x | x in g :: h[x] == g[x] || (g[x] == None && h[x].Some? && G.Unmerged(h, h[x].value)))
    && (forall x | x in h && x !in g :: h[x] == None)
  }

  lemma {:induction false} HopsSurviveMoves(g: G.Graph, h: G.Graph, id: nat, n: nat)
    requires RootsMoved(g, h) && G.Hop(g, id, n).Some?
    ensures G.Hop(h, id, n) == G.Hop(g, id, n)
  {
    if n == 0 {
    } else {
      HopsSurviveMoves(g, h, id, n - 1);
    }
  }

  lemma MovingRootsKeepsForest(g: G.Graph, h: G.Graph)
    requires G.Forest(g) && RootsMoved(g, h)
    ensures G.Forest(h)
  {
    forall id: nat | id in h ensures G.Rooted(h, id) {
      if id in g {
        assert G.Rooted(g, id);
        var root: nat :| G.Unmerged(g, root) && G.Reaches(g, id, root);
        var n: nat :| G.Hop(g, id, n) == Some(root);
        HopsSurviveMoves(g, h, id, n);
        if h[root].Some? {
          assert G.Hop(h, id, n + 1) == h[root];
          assert G.Unmerged(h, h[root].value) && G.Reaches(h, id, h[root].value);
        } else {
          assert G.Unmerged(h, root) && G.Reaches(h, id, root);
        }
      } else {
        assert G.Hop(h, id, 0) == Some(id);
        assert G.Unmerged(h, id) && G.Reaches(h, id, id);
      }
    }
  }

  ghost predicate Cut(g: G.Graph, h: G.Graph) {
    g.Keys == h.Keys && forall x | x in g :: h[x] == g[x] || h[x] == None
  }

  lemma {:induction false} RootedAfterCut(g: G.Graph, h: G.Graph, id: nat, n: nat, root: nat)
    requires Cut(g, h) && G.Hop(g, id, n) == Some(root) && G.Unmerged(g, root) && id in g
    ensures G.Rooted(h, id)
    decreases n
  {
    if n == 0 || h[id] == None {
      assert h[id] == None && G.Hop(h, id, 0) == Some(id);
      assert G.Unmerged(h, id) && G.Reaches(h, id, id);
    } else {
      assert G.Hop(g, id, 0) == Some(id) && G.Hop(h, id, 0) == Some(id);
      assert G.Hop(g, id, 1) == g[id] && G.Hop(h, id, 1) == h[id];
      var next := h[id].value;
      G.HopThrough(g, id, 1, n - 1);
      HopStaysInside(g, next, n - 1, root);
      RootedAfterCut(g, h, next, n - 1, root);
      var end: nat :| G.Unmerged(h, end) && G.Reaches(h, next, end);
      var m: nat :| G.Hop(h, next, m) == Some(end);
      G.HopThrough(h, id, 1, m);
      assert G.Hop(h, id, 1 + m) == Some(end);
      assert G.Reaches(h, id, end);
    }
  }

  /** What leads to a stored id is stored. */
  lemma HopStaysInside(g: G.Graph, id: nat, n: nat, root: nat)
    requires G.Hop(g, id, n) == Some(root) && root in g
    ensures id in g
  {
    if n > 0 {
      G.HopBefore(g, id, 1, n);
      assert G.Hop(g, id, 0) == Some(id);
    }
  }

  lemma CuttingKeepsForest(g: G.Graph, h: G.Graph)
    requires G.Forest(g) && Cut(g, h)
    ensures G.Forest(h)
  {
    forall id: nat | id in h ensures G.Rooted(h, id) {
      assert G.Rooted(g, id);
      var root: nat :| G.Unmerged(g, root) && G.Reaches(g, id, root);
      var n: nat :| G.Hop(g, id, n) == Some(root);
      RootedAfterCut(g, h, id, n, root);
    }
  }

  // ---------- Claims ----------

  /** A claim is unchanged, or was active and has lost to an active claim of its field. */
  predicate KeptOrLost(was: Claim, now: Claim, after: seq<Claim>) {
    now == was
    || (was.IsActive() && now.field == was.field && now.supersededBy.Some? && now.supersededBy.value < |after|
        && after[now.supersededBy.value].IsActive() && after[now.supersededBy.value].field == was.field)
  }

  lemma LosingKeepsChains(before: seq<Claim>, after: seq<Claim>)
    requires Chained(before) && PointersMatchTypes(after) && |before| <= |after|
    requires forall c | 0 <= c < |before| :: after[c].field == before[c].field && KeptOrLost(before[c], after[c], after)
    requires forall c | |before| <= c < |after| :: after[c].IsActive()
    ensures Chained(after)
  {
    hide G.Forest;
    var g, h := Pointers(before), Pointers(after);
    forall x | x in g ensures h[x] == g[x] || (g[x] == None && h[x].Some? && G.Unmerged(h, h[x].value)) {
      assert KeptOrLost(before[x], after[x], after);
    }
    MovingRootsKeepsForest(g, h);
  }

  lemma RevivingKeepsChains(claims: seq<Claim>, history: seq<HistoryRow>, ids: set<nat>)
    requires Chained(claims) && PointersMatchTypes(ReviveAll(claims, history, ids))
    ensures Chained(ReviveAll(claims, history, ids))
  {
    hide G.Forest;
    CuttingKeepsForest(Pointers(claims), Pointers(ReviveAll(claims, history, ids)));
  }

  // ---------- Steps ----------

  lemma WritingKeepsChains(before: seq<Claim>, after: seq<Claim>, ing: W.Ingestion)
    requires Wrote(before, after, ing) && Chained(before) && PointersMatchTypes(after)
    ensures Chained(after)
  {
    hide Chained, PointersMatchTypes;
    forall c: nat | c < |after|
      ensures c < |before| ==> after[c].field == before[c].field && KeptOrLost(before[c], after[c], after)
      ensures c >= |before| ==> after[c].IsActive()
    {
      if c < |before| {
        assert after[c] == W.Rewritten(before[c], ing, ing.items, |before|);
        match W.ItemFor(ing.items, before[c].field)
        case None =>
        case Some(i) => NewClaimWritten(before, after, ing, i);
      } else {
        NewClaimWritten(before, after, ing, c - |before|);
      }
    }
    LosingKeepsChains(before, after);
  }

  lemma RetiringKeepsChains(claims: seq<Claim>, ids: set<nat>, winner: nat)
    requires Chained(claims) && winner < |claims| && claims[winner].IsActive() && winner !in ids
    requires forall c | c in ids && c < |claims| :: claims[c].field == claims[winner].field
    ensures Chained(RetireAll(claims, ids, winner))
  {
    LosingKeepsChains(claims, RetireAll(claims, ids, winner));
  }

  lemma AddingKeepsChains(claims: seq<Claim>, c: Claim)
    requires Chained(claims) && c.IsActive() && c.supersededBy == None
    ensures Chained(claims + [c])
  {
    LosingKeepsChains(claims, claims + [c]);
  }

  lemma TransferKeepsChains(before: seq<Claim>, after: seq<Claim>, source: nat, target: nat)
    requires M.TransferredClaimByClaim(before, after, source, target) && Chained(before)
    ensures Chained(after)
  {
    hide Chained, PointersMatchTypes, M.TransferredClaimByClaim;
    M.TransferGrows(before, after, source, target);
    forall c: nat | c < |after|
      ensures c < |before| ==> after[c].field == before[c].field && KeptOrLost(before[c], after[c], after)
      ensures c >= |before| ==> after[c].IsActive()
    {
      M.TransferredClaim(before, after, source, target, c);
      if c < |before| && M.Moves(before[c], source) {
        var k :| 0 <= k < |M.ActiveOf(before, source)| && M.ActiveOf(before, source)[k] == c
        && after[c] == Retire(before[c], |before| + k);
        M.TransferredClaim(before, after, source, target, |before| + k);
      }
    }
    ChainedPointers(before);
    M.TransferKeepsPointers(before, after, source, target);
    LosingKeepsChains(before, after);
  }

  lemma ChainedPointers(claims: seq<Claim>)
    requires Chained(claims)
    ensures PointersMatchTypes(claims)
  {
  }

  lemma IngestKeepsChains(db: Db, ing: W.Ingestion, explicitEvent: bool)
    requires Serial(db) && Chained(db.claims) && W.Accepted(ing) && TargetEvent(db, ing, explicitEvent).Some?
    ensures Chained(IngestInto(db, ing, TargetEvent(db, ing, explicitEvent).value).claims)
  {
    hide Serial, Chained, TargetEvent, ScopeOnEvent;
    var e := TargetEvent(db, ing, explicitEvent).value;
    var known, routed := Registered(db, e), ing.(event := e);
    ContinuityScopesTheWrite(db, ing, explicitEvent);
    IngestSettles(known, routed);
    W.WriteItemsClaimByClaim(known, routed, routed.items);
    SerialByParts(Ingest(known, routed));
    WritingKeepsChains(db.claims, Ingest(known, routed).claims, routed);
  }

  lemma ResolveKeepsChains(db: Db, id: nat, expected: nat, winner: nat)
    requires Serial(db) && Chained(db.claims) && C.Resolve(db, id, expected, winner).Committed?
    ensures Chained(C.Resolve(db, id, expected, winner).db.claims)
  {
    hide Serial, Chained;
    LinksFitInRun(db, id);
    RetiringKeepsChains(db.claims, db.conflicts[id].links - {winner}, winner);
  }

  lemma OverrideKeepsChains(db: Db, id: nat, expected: nat, source: nat, value: int)
    requires Serial(db) && Chained(db.claims) && C.Override(db, id, expected, source, value).Committed?
    ensures Chained(C.Override(db, id, expected, source, value).db.claims)
  {
    hide Serial, Chained;
    LinksFitInRun(db, id);
    var entered := C.OverrideClaim(db.conflicts[id], source, value);
    AddingKeepsChains(db.claims, entered);
    RetiringKeepsChains(db.claims + [entered], db.conflicts[id].links, |db.claims|);
  }

  lemma ReopenKeepsChains(db: Db, id: nat, expected: nat)
    requires Serial(db) && Chained(db.claims) && C.Reopen(db, id, expected).Committed?
    ensures Chained(C.Reopen(db, id, expected).db.claims)
  {
    hide Serial, Chained;
    ReopenIsSerial(db, id, expected);
    SerialByParts(C.Reopen(db, id, expected).db);
    RevivingKeepsChains(db.claims, db.history, C.LosersOf(db.claims, db.conflicts[id]));
  }

  lemma TakeKeepsChains(db: Db, step: Step)
    requires Serial(db) && Chained(db.claims)
    ensures Chained(Take(db, step).claims)
  {
    hide Serial, Chained, IngestInto, TargetEvent, M.Merge, C.Resolve, C.Override, C.Reopen;
    if Succeeds(db, step) {
      match step {
        case Ingestion(ing, explicitEvent) => IngestKeepsChains(db, ing, explicitEvent);
        case ResolveStep(id, expected, winner) => ResolveKeepsChains(db, id, expected, winner);
        case OverrideStep(id, expected, source, value) => OverrideKeepsChains(db, id, expected, source, value);
        case ReopenStep(id, expected) => ReopenKeepsChains(db, id, expected);
        case MergeStep(source, target) =>
          M.MergeSettles(db, source, target);
          TransferKeepsChains(db.claims, Take(db, step).claims, source, target);
      }
    }
  }

  lemma {:induction false} EveryRunIsChained(steps: seq<Step>)
    ensures Chained(After(steps).claims)
  {
    hide Chained, Take;
    if steps == [] {
      NoClaimsChained();
    } else {
      EveryRunIsSerial(steps[..|steps| - 1]);
      EveryRunIsChained(steps[..|steps| - 1]);
      TakeKeepsChains(After(steps[..|steps| - 1]), steps[|steps| - 1]);
    }
  }

  lemma NoClaimsChained()
    ensures Chained([])
  {
  }

  // ---------- Where the chains end ----------

  lemma {:induction false} HopKeepsField(claims: seq<Claim>, c: nat, n: nat)
    requires Chained(claims) && c < |claims| && G.Hop(Pointers(claims), c, n).Some?
    ensures var end := G.Hop(Pointers(claims), c, n).value; end < |claims| && claims[end].field == claims[c].field
  {
    hide Chained;
    if n == 0 {
    } else {
      HopKeepsField(claims, c, n - 1);
      PointerKeepsField(claims, G.Hop(Pointers(claims), c, n - 1).value);
    }
  }

  lemma PointerKeepsField(claims: seq<Claim>, c: nat)
    requires Chained(claims) && c < |claims| && claims[c].supersededBy.Some?
    ensures claims[c].supersededBy.value < |claims| && claims[claims[c].supersededBy.value].field == claims[c].field
  {
  }

  /** After any run of ingestions, decisions, reopens and merges, following the superseding claims from any
      claim ends, in exactly one claim, which is active and of the same field. */
  lemma EveryChainEnds(steps: seq<Step>, c: nat) returns (end: nat)
    requires c < |After(steps).claims|
    ensures var claims := After(steps).claims;
            end < |claims| && claims[end].IsActive() && claims[end].field == claims[c].field
            && G.Reaches(Pointers(claims), c, end) && G.Walk(Pointers(claims), c, {}) == G.Root(end)
  {
    hide After, G.Walk;
    var claims := After(steps).claims;
    EveryRunIsChained(steps);
    assert G.Rooted(Pointers(claims), c);
    end :| G.Unmerged(Pointers(claims), end) && G.Reaches(Pointers(claims), c, end);
    G.WalkIsReachability(Pointers(claims), c);
    var n: nat :| G.Hop(Pointers(claims), c, n) == Some(end);
    HopKeepsField(claims, c, n);
  }
}
