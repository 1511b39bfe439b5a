/**
 MergeDuplicateEvents as one committed transaction: the merge pointer, the transfer of the absorbed
 event's active claims, the closing of its conflicts, and detection on the surviving event.
 */
module EventMerges {
  import opened Optional
  import opened Evidence
  import opened ClaimLedger
  import opened ConflictRows
  import opened Reconciler
  import opened SerialRuns
  import G = MergeGraph
  import E = ConflictEntity
  import W = ClaimWriting

  datatype MergeError = NotMergeable(error: G.Error) | UnloadableConflict(id: nat)

  datatype Outcome = Committed(db: Db) | Rejected(error: MergeError)

  // ---------- The use case as a function of the tables ----------

  predicate Known(claims: seq<Claim>, ids: seq<nat>) {
    forall k | 0 <= k < |ids| :: ids[k] < |claims|
  }

  ghost predicate Increasing(ids: seq<nat>) {
    forall i, j | 0 <= i < j < |ids| :: ids[i] < ids[j]
  }

  /** find_active_by_event, in insertion order. */
  function ActiveOf(claims: seq<Claim>, e: nat): (ids: seq<nat>)
    ensures forall id: nat :: id in ids <==> id < |claims| && claims[id].IsActive() && claims[id].event == e
    ensures Known(claims, ids) && Increasing(ids)
  {
    if claims == [] then []
    else
      var n := |claims| - 1;
      var rest := ActiveOf(claims[..n], e);
      assert forall i | 0 <= i < |rest| :: rest[i] in rest;
      if claims[n].IsActive() && claims[n].event == e then rest + [n] else rest
  }

  /** The claim as it is transferred: same source, snapshot, value and type, on the surviving event. */
  function Copy(c: Claim, target: nat): Claim {
    c.(event := target, supersededBy := None)
  }

  /** The copies, each with its "merged" history row; `claims` are the claims before the merge. */
  function AddCopies(claims: seq<Claim>, db: Db, ids: seq<nat>, target: nat): Db
    requires Known(claims, ids)
  {
    if ids == [] then db
    else
      var n := |ids| - 1;
      AddClaim(AddCopies(claims, db, ids[..n], target), Copy(claims[ids[n]], target))
  }

  /** Each original superseded by its copy; the first copy has id `first`. */
  function RetireEach(db: Db, ids: seq<nat>, first: nat): Db {
    if ids == [] then db
    else
      var n := |ids| - 1;
      Supersede(RetireEach(db, ids[..n], first), {ids[n]}, first + n)
  }

  function Transfer(db: Db, source: nat, target: nat): Db {
    var ids := ActiveOf(db.claims, source);
    RetireEach(AddCopies(db.claims, db, ids, target), ids, |db.claims|)
  }

  /** The UPDATE of close_event_conflicts_as_merged. */
  function Tombstoned(conflicts: seq<Conflict>, e: nat): (r: seq<Conflict>)
    ensures |r| == |conflicts|
  {
    seq(|conflicts|, i requires 0 <= i < |conflicts| =>
      if conflicts[i].event == e && conflicts[i].status == Open then Perform(conflicts[i], Tombstone) else conflicts[i])
  }

  /** The first of the rows it returns that cannot be mapped back to an entity. */
  function FirstUnloadable(conflicts: seq<Conflict>, e: nat): (r: Option<nat>)
    ensures r.Some? ==> r.value < |conflicts| && conflicts[r.value].event == e && conflicts[r.value].status == Open
                        && !E.Loads(Perform(conflicts[r.value], Tombstone))
    ensures r.None? ==> forall i | 0 <= i < |conflicts| && conflicts[i].event == e && conflicts[i].status == Open ::
                          E.Loads(Perform(conflicts[i], Tombstone))
  {
    if conflicts == [] then None
    else
      var n := |conflicts| - 1;
      var before := FirstUnloadable(conflicts[..n], e);
      assert forall i | 0 <= i < n :: conflicts[..n][i] == conflicts[i];
      if before.Some? then before
      else if conflicts[n].event == e && conflicts[n].status == Open && !E.Loads(Perform(conflicts[n], Tombstone)) then Some(n)
      else None
  }

  /** MergeDuplicateEvents.execute. */
  function Merge(db: Db, source: nat, target: nat): Outcome {
    var error := G.StartError(db.events, source, target);
    if error.Some? then Rejected(NotMergeable(error.value))
    else
      var moved := Transfer(Pointed(db, source, target), source, target);
      var unloadable := FirstUnloadable(moved.conflicts, source);
      if unloadable.Some? then Rejected(UnloadableConflict(unloadable.value))
      else Committed(DetectConflicts(moved.(conflicts := Tombstoned(moved.conflicts, source)), target))
  }

  /** try_atomic_merge. */
  function Pointed(db: Db, source: nat, target: nat): Db {
    db.(events := G.Grow(db.events, G.Merged(source, target)))
  }

  // ---------- When it commits ----------

  ghost predicate HasOpenOn(conflicts: seq<Conflict>, e: nat) {
    exists i | 0 <= i < |conflicts| :: conflicts[i].event == e && conflicts[i].status == Open
  }

  /** A tombstone never loads, so a merge commits if and only if both events are there, unmerged and
      different, and the source event has no open conflict. */
  lemma MergeCommitsIff(db: Db, source: nat, target: nat)
    ensures Merge(db, source, target).Committed? <==>
            source != target && G.Unmerged(db.events, source) && G.Unmerged(db.events, target)
            && !HasOpenOn(db.conflicts, source)
    ensures Merge(db, source, target).Committed? ==>
              Merge(db, source, target).db == DetectConflicts(Transfer(Pointed(db, source, target), source, target), target)
  {
    var pointed := Pointed(db, source, target);
    TransferLeavesRest(pointed, source, target);
    var conflicts := db.conflicts;
    if !HasOpenOn(conflicts, source) {
      assert Tombstoned(conflicts, source) == conflicts;
    }
  }

  lemma {:induction false} CopiesLeaveRest(claims: seq<Claim>, db: Db, ids: seq<nat>, target: nat)
    requires Known(claims, ids)
    ensures AddCopies(claims, db, ids, target).conflicts == db.conflicts
            && AddCopies(claims, db, ids, target).events == db.events
  {
    if ids == [] {
    } else {
      CopiesLeaveRest(claims, db, ids[..|ids| - 1], target);
    }
  }

  lemma {:induction false} RetiringLeavesRest(db: Db, ids: seq<nat>, first: nat)
    ensures RetireEach(db, ids, first).conflicts == db.conflicts && RetireEach(db, ids, first).events == db.events
  {
    if ids == [] {
    } else {
      RetiringLeavesRest(db, ids[..|ids| - 1], first);
    }
  }

  lemma TransferLeavesRest(db: Db, source: nat, target: nat)
    ensures Transfer(db, source, target).conflicts == db.conflicts && Transfer(db, source, target).events == db.events
  {
    var ids := ActiveOf(db.claims, source);
    CopiesLeaveRest(db.claims, db, ids, target);
    RetiringLeavesRest(AddCopies(db.claims, db, ids, target), ids, |db.claims|);
  }

  // ---------- The claims after a transfer ----------

  predicate Moves(c: Claim, source: nat) {
    c.IsActive() && c.event == source
  }

  /** The claim table after a transfer, claim by claim: a copy of each active claim of the source event at
      the end, each of those superseded by its copy, every other claim untouched. */
  ghost predicate TransferredClaimByClaim(before: seq<Claim>, after: seq<Claim>, source: nat, target: nat) {
    var ids := ActiveOf(before, source);
    |after| == |before| + |ids|
    && (forall k | 0 <= k < |ids| :: after[|before| + k] == Copy(before[ids[k]], target))
    && (forall k | 0 <= k < |ids| :: after[ids[k]] == Retire(before[ids[k]], |before| + k))
    && (forall c | 0 <= c < |before| && !Moves(before[c], source) :: after[c] == before[c])
  }

  ghost predicate CopiedSoFar(before: seq<Claim>, after: seq<Claim>, ids: seq<nat>, target: nat)
    requires Known(before, ids)
  {
    |after| == |before| + |ids| && after[..|before|] == before
    && forall k | 0 <= k < |ids| :: after[|before| + k] == Copy(before[ids[k]], target)
  }

  lemma {:induction false} CopiesOneByOne(db: Db, ids: seq<nat>, target: nat)
    requires Known(db.claims, ids)
    ensures CopiedSoFar(db.claims, AddCopies(db.claims, db, ids, target).claims, ids, target)
  {
    if ids == [] {
    } else {
      var n := |ids| - 1;
      CopiesOneByOne(db, ids[..n], target);
      var was, after := AddCopies(db.claims, db, ids[..n], target).claims, AddCopies(db.claims, db, ids, target).claims;
      assert after == was + [Copy(db.claims[ids[n]], target)];
      forall k | 0 <= k < |ids| ensures after[|db.claims| + k] == Copy(db.claims[ids[k]], target) {
        if k < n {
          assert was[|db.claims| + k] == Copy(db.claims[ids[..n][k]], target);
        }
      }
    }
  }

  ghost predicate RetiredSoFar(before: seq<Claim>, after: seq<Claim>, ids: seq<nat>, first: nat)
    requires Known(before, ids)
  {
    |after| == |before|
    && (forall k | 0 <= k < |ids| :: after[ids[k]] == Retire(before[ids[k]], first + k))
    && (forall c | 0 <= c < |before| && c !in ids :: after[c] == before[c])
  }

  lemma {:induction false} RetiredOneByOne(db: Db, ids: seq<nat>, first: nat)
    requires Known(db.claims, ids) && Increasing(ids) && forall k | 0 <= k < |ids| :: db.claims[ids[k]].IsActive()
    ensures RetiredSoFar(db.claims, RetireEach(db, ids, first).claims, ids, first)
  {
    if ids == [] {
    } else {
      var n := |ids| - 1;
      RetiredOneByOne(db, ids[..n], first);
      OneMoreRetired(db.claims, RetireEach(db, ids[..n], first).claims, ids, first);
    }
  }

  lemma OneMoreRetired(before: seq<Claim>, was: seq<Claim>, ids: seq<nat>, first: nat)
    requires Known(before, ids) && Increasing(ids) && ids != [] && before[ids[|ids| - 1]].IsActive()
    requires RetiredSoFar(before, was, ids[..|ids| - 1], first)
    ensures RetiredSoFar(before, RetireAll(was, {ids[|ids| - 1]}, first + |ids| - 1), ids, first)
  {
    var n := |ids| - 1;
    var after := RetireAll(was, {ids[n]}, first + n);
    assert ids[n] !in ids[..n];
    forall k | 0 <= k < |ids| ensures after[ids[k]] == Retire(before[ids[k]], first + k) {
      if k < n {
        assert was[ids[..n][k]] == Retire(before[ids[..n][k]], first + k);
      }
    }
    forall c | 0 <= c < |before| && c !in ids ensures after[c] == before[c] {
      assert c !in ids[..n];
    }
  }

  lemma TransferClaimByClaim(db: Db, source: nat, target: nat)
    ensures TransferredClaimByClaim(db.claims, Transfer(db, source, target).claims, source, target)
  {
    var before := db.claims;
    var ids := ActiveOf(before, source);
    CopiesOneByOne(db, ids, target);
    var copied := AddCopies(before, db, ids, target);
    forall k | 0 <= k < |ids| ensures ids[k] < |before| && copied.claims[ids[k]] == before[ids[k]]
           && before[ids[k]].IsActive() {
      assert ids[k] in ids && copied.claims[..|before|][ids[k]] == before[ids[k]];
    }
    RetiredOneByOne(copied, ids, |before|);
    TransferredInTwoLoops(before, copied.claims, Transfer(db, source, target).claims, source, target);
  }

  lemma TransferredInTwoLoops(before: seq<Claim>, copied: seq<Claim>, after: seq<Claim>, source: nat, target: nat)
    requires Known(before, ActiveOf(before, source)) && CopiedSoFar(before, copied, ActiveOf(before, source), target)
    requires Known(copied, ActiveOf(before, source)) && RetiredSoFar(copied, after, ActiveOf(before, source), |before|)
    ensures TransferredClaimByClaim(before, after, source, target)
  {
    var ids := ActiveOf(before, source);
    forall c | 0 <= c < |before| ensures copied[c] == before[c] {
      assert copied[..|before|][c] == before[c];
    }
    forall k | 0 <= k < |ids| ensures after[|before| + k] == Copy(before[ids[k]], target) {
      assert |before| + k !in ids;
    }
  }

  /** `b` says on `target` what `a` said: of the same source and record, the same value of the same field,
      with the same standing. */
  predicate Carries(a: Claim, b: Claim, target: nat) {
    b.event == target && b.source == a.source && b.record == a.record && b.field == a.field && b.value == a.value
    && b.kind == a.kind && b.supersededBy == None
  }

  /** The i-th active claim of the source event is carried over by the i-th new claim and superseded by it, no other
      claim changes, and there are no other new claims. */
  ghost predicate CarriedOver(was: seq<Claim>, now: seq<Claim>, source: nat, target: nat) {
    var ids := ActiveOf(was, source);
    |now| == |was| + |ids|
    && (forall i | 0 <= i < |ids| ::
          Carries(was[ids[i]], now[|was| + i], target)
          && now[ids[i]] == was[ids[i]].(kind := Superseded, supersededBy := Some(|was| + i)))
    && forall c | 0 <= c < |was| && !(was[c].IsActive() && was[c].event == source) :: now[c] == was[c]
  }

  lemma TransferCarries(was: seq<Claim>, now: seq<Claim>, source: nat, target: nat)
    requires TransferredClaimByClaim(was, now, source, target)
    ensures CarriedOver(was, now, source, target)
  {
    hide ActiveOf;
    var ids := ActiveOf(was, source);
    forall i | 0 <= i < |ids|
      ensures Carries(was[ids[i]], now[|was| + i], target)
              && now[ids[i]] == was[ids[i]].(kind := Superseded, supersededBy := Some(|was| + i))
    {
      assert ids[i] in ids;
      assert now[|was| + i] == Copy(was[ids[i]], target) && now[ids[i]] == Retire(was[ids[i]], |was| + i);
    }
  }

  /** The claims after a committed merge. */
  lemma MergeCarriesClaims(db: Db, source: nat, target: nat)
    requires Merge(db, source, target).Committed?
    ensures source != target && CarriedOver(db.claims, Merge(db, source, target).db.claims, source, target)
  {
    MergeCommitsIff(db, source, target);
    TransferClaimByClaim(Pointed(db, source, target), source, target);
    hide Transfer, Merge, TransferredClaimByClaim, CarriedOver;
    TransferCarries(db.claims, Transfer(Pointed(db, source, target), source, target).claims, source, target);
  }

  /** Some active claim of the event has this source, field and value. */
  ghost predicate Asserts(claims: seq<Claim>, e: nat, source: nat, f: FieldName, value: int) {
    exists c: nat :: ActiveOn(claims, c, e, f) && claims[c].source == source && claims[c].value == value
  }

  lemma StillActive(was: seq<Claim>, now: seq<Claim>, source: nat, target: nat, c: nat)
    requires CarriedOver(was, now, source, target) && c < |was|
    ensures |was| <= |now| && (now[c].IsActive() <==> was[c].IsActive() && was[c].event != source)
    ensures now[c].IsActive() ==> now[c] == was[c]
  {
    if was[c].IsActive() && was[c].event == source {
      assert c in ActiveOf(was, source);
    }
  }

  /** The claim that carries over an active claim of the source event, and the claim a new one carries over. */
  lemma Carrier(was: seq<Claim>, now: seq<Claim>, source: nat, target: nat, c: nat) returns (i: nat)
    requires CarriedOver(was, now, source, target) && c < |was| && was[c].IsActive() && was[c].event == source
    ensures |was| + i < |now| && Carries(was[c], now[|was| + i], target)
  {
    var ids := ActiveOf(was, source);
    assert c in ids;
    i :| 0 <= i < |ids| && ids[i] == c;
  }

  lemma CarriedFrom(was: seq<Claim>, now: seq<Claim>, source: nat, target: nat, c: nat) returns (from: nat)
    requires CarriedOver(was, now, source, target) && |was| <= c < |now|
    ensures from < |was| && was[from].IsActive() && was[from].event == source && Carries(was[from], now[c], target)
  {
    var ids := ActiveOf(was, source);
    from := ids[c - |was|];
    assert from in ids && now[c] == now[|was| + (c - |was|)];
  }

  lemma JoinsEvidence(was: seq<Claim>, now: seq<Claim>, source: nat, target: nat, s: nat, f: FieldName, v: int)
    requires CarriedOver(was, now, source, target) && source != target
    ensures Asserts(now, target, s, f, v) <==> Asserts(was, source, s, f, v) || Asserts(was, target, s, f, v)
    ensures !Asserts(now, source, s, f, v)
  {
    hide CarriedOver;
    forall c: nat | c < |now| ensures !ActiveOn(now, c, source, f) {
      if c < |was| {
        StillActive(was, now, source, target, c);
      } else {
        var from := CarriedFrom(was, now, source, target, c);
      }
    }
    if Asserts(now, target, s, f, v) {
      var c: nat :| ActiveOn(now, c, target, f) && now[c].source == s && now[c].value == v;
      if c < |was| {
        StillActive(was, now, source, target, c);
        assert ActiveOn(was, c, target, f);
      } else {
        var from := CarriedFrom(was, now, source, target, c);
        assert ActiveOn(was, from, source, f);
      }
    }
    if Asserts(was, target, s, f, v) {
      var c: nat :| ActiveOn(was, c, target, f) && was[c].source == s && was[c].value == v;
      StillActive(was, now, source, target, c);
      assert ActiveOn(now, c, target, f);
    }
    if Asserts(was, source, s, f, v) {
      var c: nat :| ActiveOn(was, c, source, f) && was[c].source == s && was[c].value == v;
      var i := Carrier(was, now, source, target, c);
      assert ActiveOn(now, |was| + i, target, f);
    }
  }

  /** What the surviving event reports after a committed merge is what the two events reported before it:
      no value is lost and none is made up. The absorbed event reports nothing. */
  lemma MergeJoinsEvidence(db: Db, source: nat, target: nat, s: nat, f: FieldName, v: int)
    requires Merge(db, source, target).Committed?
    ensures Asserts(Merge(db, source, target).db.claims, target, s, f, v)
            <==> Asserts(db.claims, source, s, f, v) || Asserts(db.claims, target, s, f, v)
    ensures !Asserts(Merge(db, source, target).db.claims, source, s, f, v)
  {
    MergeCarriesClaims(db, source, target);
    hide Merge, CarriedOver, Asserts;
    JoinsEvidence(db.claims, Merge(db, source, target).db.claims, source, target, s, f, v);
  }

  // ---------- What a merge keeps ----------

  /** A transferred table, claim by claim and by position. */
  lemma TransferredClaim(before: seq<Claim>, after: seq<Claim>, source: nat, target: nat, c: nat)
    requires TransferredClaimByClaim(before, after, source, target) && c < |after|
    ensures c < |before| ==> after[c].SameAssertion(before[c]) && (Moves(before[c], source) ==> !after[c].IsActive())
                             && (!Moves(before[c], source) ==> after[c] == before[c])
    ensures c < |before| && Moves(before[c], source) ==>
              exists k :: 0 <= k < |ActiveOf(before, source)|
                          && ActiveOf(before, source)[k] == c && after[c] == Retire(before[c], |before| + k)
    ensures c >= |before| ==>
              c - |before| < |ActiveOf(before, source)|
              && var from := ActiveOf(before, source)[c - |before|];
                 after[c] == Copy(before[from], target) && Moves(before[from], source)
  {
    var ids := ActiveOf(before, source);
    if c < |before| {
      if Moves(before[c], source) {
        assert c in ids;
        var k :| 0 <= k < |ids| && ids[k] == c;
        assert after[ids[k]] == Retire(before[ids[k]], |before| + k);
      }
    } else {
      assert after[|before| + (c - |before|)] == Copy(before[ids[c - |before|]], target);
      assert ids[c - |before|] in ids;
    }
  }

  lemma TransferGrows(before: seq<Claim>, after: seq<Claim>, source: nat, target: nat)
    requires TransferredClaimByClaim(before, after, source, target)
    ensures |after| == |before| + |ActiveOf(before, source)|
  {
  }

  lemma TransferKeepsPointers(before: seq<Claim>, after: seq<Claim>, source: nat, target: nat)
    requires TransferredClaimByClaim(before, after, source, target) && PointersMatchTypes(before)
    ensures PointersMatchTypes(after)
  {
    forall c: nat | c < |after|
      ensures (after[c].kind == Superseded <==> after[c].supersededBy.Some?)
              && (after[c].supersededBy.Some? ==> after[c].supersededBy.value < |after|)
    {
      TransferredClaim(before, after, source, target, c);
    }
  }

  /** The event a claim of the transferred table stands for. */
  lemma TransferredStandsFor(g: G.Graph, before: seq<Claim>, after: seq<Claim>, source: nat, target: nat,
                             c: nat) returns (from: nat)
    requires TransferredClaimByClaim(before, after, source, target) && EventsKnown(g, before) && G.Forest(g)
             && c < |after|
    requires G.Unmerged(g, source) && G.Unmerged(g, target) && source != target
    ensures from < |before| && after[c].source == before[from].source && after[c].record == before[from].record
    ensures var linked := G.Grow(g, G.Merged(source, target));
            after[c].event in linked
            && G.Walk(linked, after[c].event, {}) == if G.Walk(g, before[from].event, {}) == G.Root(source) then G.Root(target)
                                                     else G.Walk(g, before[from].event, {})
  {
    hide G.Forest, TransferredClaimByClaim;
    TransferredClaim(before, after, source, target, c);
    from := if c < |before| then c else ActiveOf(before, source)[c - |before|];
    G.RootIsItself(g, source);
    G.RootIsItself(G.Grow(g, G.Merged(source, target)), target);
    G.LinkRedirects(g, source, target, before[from].event, {});
  }

  lemma TransferKeepsRecords(g: G.Graph, before: seq<Claim>, after: seq<Claim>, source: nat, target: nat)
    requires TransferredClaimByClaim(before, after, source, target) && EventsKnown(g, before)
             && RecordsTogether(g, before)
    requires G.Forest(g) && G.Unmerged(g, source) && G.Unmerged(g, target) && source != target
    ensures var linked := G.Grow(g, G.Merged(source, target));
            EventsKnown(linked, after)
            && RecordsTogether(linked, after)
  {
    hide G.Walk, TransferredClaimByClaim;
    var linked := G.Grow(g, G.Merged(source, target));
    forall i: nat | i < |after| ensures after[i].event in linked {
      var from := TransferredStandsFor(g, before, after, source, target, i);
    }
    forall i: nat, j: nat | i < |after| && j < |after| && after[i].source == after[j].source
                            && after[i].record.Some? && after[i].record == after[j].record
      ensures G.Walk(linked, after[i].event, {}) == G.Walk(linked, after[j].event, {})
    {
      var a := TransferredStandsFor(g, before, after, source, target, i);
      var b := TransferredStandsFor(g, before, after, source, target, j);
      assert G.Walk(g, before[a].event, {}) == G.Walk(g, before[b].event, {});
    }
  }

  lemma TransferKeepsRow(g: G.Graph, before: seq<Claim>, after: seq<Claim>, source: nat, target: nat, row: Conflict)
    requires TransferredClaimByClaim(before, after, source, target) && SerialRow(g, before, row)
    requires G.Unmerged(g, source) && G.Unmerged(g, target) && source != target
    ensures SerialRow(G.Grow(g, G.Merged(source, target)), after, row)
  {
    forall c | c in row.links ensures c < |after| && after[c].IsOn(row.event, row.field) {
      TransferredClaim(before, after, source, target, c);
    }
    if row.status == Resolved {
      TransferredClaim(before, after, source, target, row.winner.value);
    }
  }

  lemma TransferKeepsRows(g: G.Graph, before: seq<Claim>, after: seq<Claim>, source: nat, target: nat,
                          conflicts: seq<Conflict>)
    requires TransferredClaimByClaim(before, after, source, target) && SerialRows(g, before, conflicts)
    requires G.Unmerged(g, source) && G.Unmerged(g, target) && source != target
    ensures SerialRows(G.Grow(g, G.Merged(source, target)), after, conflicts)
  {
    forall i | 0 <= i < |conflicts| ensures SerialRow(G.Grow(g, G.Merged(source, target)), after, conflicts[i]) {
      TransferKeepsRow(g, before, after, source, target, conflicts[i]);
    }
  }

  lemma TransferKeepsDisagreement(before: seq<Claim>, after: seq<Claim>, source: nat, target: nat, e: nat, f: FieldName)
    requires TransferredClaimByClaim(before, after, source, target) && Disagree(before, e, f) && e != source
    ensures Disagree(after, e, f)
  {
    var i: nat, j: nat :| ActiveOn(before, i, e, f) && ActiveOn(before, j, e, f) && before[i].value != before[j].value;
    TransferredClaim(before, after, source, target, i);
    TransferredClaim(before, after, source, target, j);
    assert ActiveOn(after, i, e, f) && ActiveOn(after, j, e, f);
  }

  lemma TransferKeepsClaims(g: G.Graph, before: seq<Claim>, after: seq<Claim>, source: nat, target: nat)
    requires TransferredClaimByClaim(before, after, source, target) && ClaimsFit(g, before)
    requires G.Forest(g) && G.Unmerged(g, source) && G.Unmerged(g, target) && source != target
    ensures ClaimsFit(G.Grow(g, G.Merged(source, target)), after)
  {
    TransferKeepsPointers(before, after, source, target);
    TransferKeepsRecords(g, before, after, source, target);
  }

  lemma TransferKeepsGenuine(db: Db, moved: Db, source: nat, target: nat)
    requires TransferredClaimByClaim(db.claims, moved.claims, source, target) && OpenRowsDisagree(db)
    requires G.Unmerged(db.events, source) && G.Unmerged(db.events, target) && source != target
    requires moved.events == G.Grow(db.events, G.Merged(source, target)) && moved.conflicts == db.conflicts
    ensures OpenRowsDisagree(moved)
  {
    forall i | 0 <= i < |moved.conflicts| && moved.conflicts[i].status == Open
               && !G.Absorbed(moved.events, moved.conflicts[i].event)
      ensures Disagree(moved.claims, moved.conflicts[i].event, moved.conflicts[i].field)
    {
      TransferKeepsDisagreement(db.claims, moved.claims, source, target, moved.conflicts[i].event,
                                moved.conflicts[i].field);
    }
  }

  /** A merge keeps the invariants, settles the surviving event and leaves no open conflict over agreeing
      evidence. */
  lemma MergeSettles(db: Db, source: nat, target: nat)
    requires Serial(db) && Merge(db, source, target).Committed?
    ensures var after := Merge(db, source, target).db;
            Serial(after) && Settled(after, target) && after.events == G.Grow(db.events, G.Merged(source, target))
            && TransferredClaimByClaim(db.claims, after.claims, source, target)
            && OnlyFieldsChanged(db.conflicts, after.conflicts, target, DetectedFields(after.claims, target))
            && (OpenRowsDisagree(db) ==> OpenRowsDisagree(after))
  {
    hide Serial, ClaimsFit, Transfer, Merge, TransferredClaimByClaim, OpenRowsDisagree, G.Forest, Settled;
    MergeCommitsIff(db, source, target);
    var pointed := Pointed(db, source, target);
    var moved := Transfer(pointed, source, target);
    SerialByParts(db);
    SerialByParts(Merge(db, source, target).db);
    TransferLeavesRest(pointed, source, target);
    TransferClaimByClaim(pointed, source, target);
    G.GrowKeepsForest(db.events, G.Merged(source, target));
    TransferKeepsClaims(db.events, db.claims, moved.claims, source, target);
    TransferKeepsRows(db.events, db.claims, moved.claims, source, target, db.conflicts);
    DetectConflictsIsSerial(moved, target);
    if OpenRowsDisagree(db) {
      TransferKeepsGenuine(db, moved, source, target);
      DetectionOpensOnlyDisputes(moved, target);
    }
  }

  /** The copies take the places of the originals. */
  lemma TransferKeepsOneActive(before: seq<Claim>, after: seq<Claim>, source: nat, target: nat)
    requires TransferredClaimByClaim(before, after, source, target) && W.OneActivePerRecord(before)
    ensures W.OneActivePerRecord(after)
  {
    forall i: nat, j: nat | i < j < |after| ensures !W.Twins(after[i], after[j]) {
      TransferredClaim(before, after, source, target, i);
      TransferredClaim(before, after, source, target, j);
      var ids := ActiveOf(before, source);
      var a, b := if i < |before| then i else ids[i - |before|], if j < |before| then j else ids[j - |before|];
      assert a < b ==> !W.Twins(before[a], before[b]);
      assert b < a ==> !W.Twins(before[b], before[a]);
    }
  }
}
