/**
 The curator's use cases, ResolveConflict and ReopenConflict, as one committed transaction
 each, and what reopening undoes of a resolve.
 */
module Curation {
  import opened Optional
  import opened Evidence
  import opened ClaimLedger
  import opened ConflictRows

  datatype CurationError =
    | ConflictNotFound | ConflictAlreadyResolved | NotResolved | ConflictModified
    | ClaimNotInConflict | ClaimNotEligible | SecondOpenConflict

  datatype Outcome = Committed(db: Db) | Rejected(error: CurationError)

  /** ResolveConflict.execute with an existing claim as winner. */
  function Resolve(db: Db, id: nat, expected: nat, winner: nat): Outcome {
    if id >= |db.conflicts| then Rejected(ConflictNotFound)
    else
      var row := db.conflicts[id];
      if row.status != Open then Rejected(ConflictAlreadyResolved)
      else if row.version != expected then Rejected(ConflictModified)
      else if winner !in row.links || winner >= |db.claims| then Rejected(ClaimNotInConflict)
      else if !db.claims[winner].IsActive() then Rejected(ClaimNotEligible)
      else
        var updated := db.(conflicts := db.conflicts[id := Perform(row, CuratorResolve(winner))]);
        Committed(Supersede(updated, row.links - {winner}, winner))
  }

  /** The claim a curator enters. */
  function OverrideClaim(row: Conflict, source: nat, value: int): Claim {
    Claim(row.event, source, None, row.field, value, ManualOverride, None)
  }

  /** ResolveConflict.execute with a curator-entered value: a new claim that wins. */
  function Override(db: Db, id: nat, expected: nat, source: nat, value: int): Outcome {
    if id >= |db.conflicts| then Rejected(ConflictNotFound)
    else
      var row := db.conflicts[id];
      if row.status != Open then Rejected(ConflictAlreadyResolved)
      else if row.version != expected then Rejected(ConflictModified)
      else
        var winner := |db.claims|;
        var added := AddClaim(db, OverrideClaim(row, source, value));
        var updated := added.(conflicts := db.conflicts[id := Perform(row, CuratorOverride(winner))]);
        Committed(Supersede(updated, row.links, winner))
  }

  /** The claims a reopen revives: those of this conflict that point at the previous winner. */
  function LosersOf(claims: seq<Claim>, row: Conflict): (ids: set<nat>)
    ensures forall c | c in ids :: c in row.links && c < |claims|
                                   && claims[c].supersededBy.Some? && claims[c].supersededBy == row.winner
  {
    set c | c in row.links && c < |claims| && row.winner.Some?
            && claims[c].supersededBy == row.winner && claims[c].IsOn(row.event, row.field)
  }

  /** ReopenConflict.execute. */
  function Reopen(db: Db, id: nat, expected: nat): Outcome {
    if id >= |db.conflicts| then Rejected(ConflictNotFound)
    else
      var row := db.conflicts[id];
      if row.status != Resolved then Rejected(NotResolved)
      else if row.version != expected then Rejected(ConflictModified)
      else if OtherOpen(db.conflicts, id) then Rejected(SecondOpenConflict)
      else
        var revived := Reactivate(db, LosersOf(db.claims, row));
        Committed(revived.(conflicts := db.conflicts[id := Perform(row, CuratorReopen)]))
  }

  // ---------- What the three use cases write ----------

  /** `base` is the table a decision was taken on, with the override claim already in it if there is one;
      the conflict's other linked claims lost to the winner. */
  ghost predicate Decided(base: Db, decided: Db, id: nat, winner: nat) {
    id < |decided.conflicts| && winner < |base.claims| && base.claims[winner].IsActive()
    && var row := decided.conflicts[id];
       row.status == Resolved && row.winner == Some(winner) && winner in row.links
       && decided.claims == RetireAll(base.claims, row.links - {winner}, winner)
       && decided.history == base.history + RetireRows(base.claims, row.links - {winner})
  }

  lemma ResolveDecides(db: Db, resolved: Db, id: nat, expected: nat, winner: nat)
    requires Resolve(db, id, expected, winner) == Committed(resolved)
    ensures Decided(db, resolved, id, winner)
    ensures id < |db.conflicts| && db.conflicts[id].status == Open && db.conflicts[id].version == expected
    ensures resolved.conflicts == db.conflicts[id := Perform(db.conflicts[id], CuratorResolve(winner))]
  {
    assert Perform(db.conflicts[id], CuratorResolve(winner)).links == db.conflicts[id].links;
  }

  lemma OverrideDecides(db: Db, resolved: Db, id: nat, expected: nat, source: nat, value: int)
    requires Override(db, id, expected, source, value) == Committed(resolved)
    requires id < |db.conflicts|
             && LinksFit(db.claims, db.conflicts[id].event, db.conflicts[id].field, db.conflicts[id].links)
    ensures Decided(AddClaim(db, OverrideClaim(db.conflicts[id], source, value)), resolved, id, |db.claims|)
    ensures resolved.conflicts == db.conflicts[id := Perform(db.conflicts[id], CuratorOverride(|db.claims|))]
  {
    var links := db.conflicts[id].links;
    assert |db.claims| !in links;
    assert links + {|db.claims|} - {|db.claims|} == links;
  }

  lemma ReopenWrites(db: Db, back: Db, id: nat, expected: nat)
    requires Reopen(db, id, expected) == Committed(back)
    ensures id < |db.conflicts| && db.conflicts[id].version == expected && db.conflicts[id].status == Resolved
    ensures back.claims == ReviveAll(db.claims, db.history, LosersOf(db.claims, db.conflicts[id]))
    ensures back.conflicts == db.conflicts[id := Perform(db.conflicts[id], CuratorReopen)]
  {
  }

  // ---------- When they commit, and what the tables say then ----------

  /** A resolve commits if and only if the conflict is there, open, at the version the curator saw, and links
      the winner, which is active. */
  lemma ResolveCommitsIff(db: Db, id: nat, expected: nat, winner: nat)
    ensures Resolve(db, id, expected, winner).Committed? <==>
            id < |db.conflicts| && db.conflicts[id].status == Open && db.conflicts[id].version == expected
            && winner in db.conflicts[id].links && winner < |db.claims| && db.claims[winner].kind != Superseded
  {
  }

  lemma OverrideCommitsIff(db: Db, id: nat, expected: nat, source: nat, value: int)
    ensures Override(db, id, expected, source, value).Committed? <==>
            id < |db.conflicts| && db.conflicts[id].status == Open && db.conflicts[id].version == expected
  {
  }

  lemma ReopenCommitsIff(db: Db, id: nat, expected: nat)
    ensures Reopen(db, id, expected).Committed? <==>
            id < |db.conflicts| && db.conflicts[id].status == Resolved && db.conflicts[id].version == expected
            && forall i | 0 <= i < |db.conflicts| && i != id ::
                 !(db.conflicts[i].status == Open && db.conflicts[i].event == db.conflicts[id].event
                   && db.conflicts[i].field == db.conflicts[id].field)
  {
  }

  /** Which failure a curator is shown: a missing conflict, one already decided or not yet decided, one that has
      changed since it was read; and only on a conflict that has not, a winner it does not link or that is
      superseded, or a second open conflict on the field. */
  lemma FailuresInOrder(db: Db, id: nat, expected: nat, winner: nat, source: nat, value: int)
    ensures id >= |db.conflicts| ==>
              Resolve(db, id, expected, winner) == Override(db, id, expected, source, value)
                                                == Reopen(db, id, expected) == Rejected(ConflictNotFound)
    ensures id < |db.conflicts| && db.conflicts[id].status == Resolved ==>
              Resolve(db, id, expected, winner) == Override(db, id, expected, source, value)
                                                == Rejected(ConflictAlreadyResolved)
    ensures id < |db.conflicts| && db.conflicts[id].status == Open ==>
              Reopen(db, id, expected) == Rejected(NotResolved)
    ensures id < |db.conflicts| && db.conflicts[id].version != expected ==>
              if db.conflicts[id].status == Resolved then Reopen(db, id, expected) == Rejected(ConflictModified)
              else Resolve(db, id, expected, winner) == Override(db, id, expected, source, value)
                                                     == Rejected(ConflictModified)
    ensures id < |db.conflicts| && db.conflicts[id].status == Open && db.conflicts[id].version == expected ==>
              (Resolve(db, id, expected, winner) == Rejected(ClaimNotInConflict) <==>
                 winner !in db.conflicts[id].links || winner >= |db.claims|)
              && (Resolve(db, id, expected, winner) == Rejected(ClaimNotEligible) <==>
                    winner in db.conflicts[id].links && winner < |db.claims| && db.claims[winner].kind == Superseded)
    ensures id < |db.conflicts| && db.conflicts[id].status == Resolved && db.conflicts[id].version == expected ==>
              (Reopen(db, id, expected) == Rejected(SecondOpenConflict) <==> !Reopen(db, id, expected).Committed?)
  {
  }

  /** The row a decision leaves, beside its log. */
  ghost predicate RowDecided(was: Conflict, now: Conflict, winner: nat) {
    now.(log := was.log) == was.(status := Resolved, version := was.version + 1, winner := Some(winner),
                                 reason := UserResolved, links := was.links + {winner})
  }

  /** The claims a decision leaves: the other linked claims that were active superseded by the winner, and no
      other claim changed. */
  ghost predicate LosersSuperseded(was: seq<Claim>, now: seq<Claim>, links: set<nat>, winner: nat) {
    forall c | 0 <= c < |was| && c < |now| ::
      now[c] == if c in links && c != winner && was[c].kind != Superseded
                then was[c].(kind := Superseded, supersededBy := Some(winner)) else was[c]
  }

  /** The tables after a resolve: one row decided for the winner, and its losers superseded. */
  lemma ResolveMeans(db: Db, resolved: Db, id: nat, expected: nat, winner: nat)
    requires Resolve(db, id, expected, winner) == Committed(resolved)
    ensures id < |db.conflicts| == |resolved.conflicts| && |resolved.claims| == |db.claims|
    ensures RowDecided(db.conflicts[id], resolved.conflicts[id], winner)
    ensures forall i | 0 <= i < |db.conflicts| && i != id :: resolved.conflicts[i] == db.conflicts[i]
    ensures LosersSuperseded(db.claims, resolved.claims, db.conflicts[id].links, winner)
  {
    var links := db.conflicts[id].links;
    assert links + {winner} == links;
  }

  /** The tables after a manual override: one new claim, of the conflict's event and field, with the source and
      value given, active and entered by hand; the conflict decided for it; and every linked claim that was
      active superseded by it. */
  lemma OverrideMeans(db: Db, resolved: Db, id: nat, expected: nat, source: nat, value: int)
    requires Override(db, id, expected, source, value) == Committed(resolved)
    requires id < |db.conflicts| && forall c | c in db.conflicts[id].links :: c < |db.claims|
    ensures |resolved.claims| == |db.claims| + 1 && |resolved.conflicts| == |db.conflicts|
    ensures var entered := resolved.claims[|db.claims|];
            entered.event == db.conflicts[id].event && entered.field == db.conflicts[id].field
            && entered.source == source && entered.value == value && entered.record == None
            && entered.kind == ManualOverride && entered.supersededBy == None
    ensures RowDecided(db.conflicts[id], resolved.conflicts[id], |db.claims|)
    ensures forall i | 0 <= i < |db.conflicts| && i != id :: resolved.conflicts[i] == db.conflicts[i]
    ensures LosersSuperseded(db.claims, resolved.claims, db.conflicts[id].links, |db.claims|)
  {
  }

  /** The tables after a reopen: the conflict open without a winner, the linked claims of its field that had lost
      to that winner active again, with the type they held before by the history, and no other claim changed. */
  lemma ReopenMeans(db: Db, back: Db, id: nat, expected: nat)
    requires Reopen(db, id, expected) == Committed(back)
    ensures id < |db.conflicts| == |back.conflicts| && |back.claims| == |db.claims|
    ensures back.conflicts[id].(log := db.conflicts[id].log)
            == db.conflicts[id].(status := Open, version := expected + 1, winner := None, reason := UserReopened)
    ensures forall i | 0 <= i < |db.conflicts| && i != id :: back.conflicts[i] == db.conflicts[i]
    ensures forall c | 0 <= c < |db.claims| ::
              var was, row := db.claims[c], db.conflicts[id];
              if c in row.links && row.winner.Some? && was.supersededBy == row.winner
                 && was.event == row.event && was.field == row.field
              then back.claims[c] == was.(kind := RestoredType(db.history, c), supersededBy := None)
              else back.claims[c] == was
  {
  }

  // ---------- Who is alive after a reopen ----------

  /** A claim that is active once the conflict is reopened. */
  predicate ComesAlive(claims: seq<Claim>, row: Conflict, c: nat) {
    c < |claims| && (claims[c].IsActive() || c in LosersOf(claims, row))
  }

  lemma AliveAfterReopen(db: Db, back: Db, id: nat, expected: nat, c: nat)
    requires Reopen(db, id, expected) == Committed(back)
    ensures id < |db.conflicts| && |back.claims| == |db.claims|
    ensures c < |db.claims| ==> back.claims[c].SameAssertion(db.claims[c])
                                && (back.claims[c].IsActive() <==> ComesAlive(db.claims, db.conflicts[id], c))
  {
    ReopenWrites(db, back, id, expected);
  }
}
