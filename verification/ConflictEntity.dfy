/**
 The ClaimConflict entity: its validators, which run at every assignment, and its state
 changes; and how far they agree with the rows the repository writes and loads.
 */
module ConflictEntity {
  import opened Optional
  import opened Evidence
  import opened ConflictRows

  /** The columns entity and row have in common. */
  datatype Columns = Columns(status: Status, winner: Option<nat>, version: nat, reason: Reason)

  function ColumnsOf(row: Conflict): Columns {
    Columns(row.status, row.winner, row.version, row.reason)
  }

  /** check_resolved_fields: a resolved conflict has a winner unless it was auto-closed. */
  predicate PassesModelValidator(status: Status, winner: Option<nat>, reason: Reason) {
    status == Resolved && winner == None ==> reason == SystemAutoClosed
  }

  /** winning_claim_id_not_cleared_on_resolved: runs whenever the winner is given explicitly. */
  predicate PassesWinnerValidator(status: Status, winner: Option<nat>) {
    !(winner == None && status == Resolved)
  }

  datatype EntityError = AlreadyResolved | ClaimNotInConflict | OnlyResolvedCanReopen | ValidationError

  class ClaimConflict {
    var status: Status
    var version: nat
    var reason: Reason
    var winner: Option<nat>
    var resolvedBy: Option<nat>
    var claimIds: seq<nat>

    ghost predicate Valid()
      reads this
    {
      PassesModelValidator(status, winner, reason)
    }

    ghost function View(): Columns
      reads this
    {
      Columns(status, winner, version, reason)
    }

    /** A new conflict, as the detector constructs it. */
    constructor (claimIds: seq<nat>)
      ensures Valid() && View() == Columns(Open, None, 1, Initial)
      ensures this.claimIds == claimIds && resolvedBy == None
    {
      status, version, reason, winner, resolvedBy := Open, 1, Initial, None, None;
      this.claimIds := claimIds;
    }

    method SetStatus(value: Status) returns (error: Option<EntityError>)
      requires Valid()
      modifies `status
      ensures Valid()
      ensures if PassesModelValidator(value, winner, reason) then error == None && status == value
              else error == Some(ValidationError) && status == old(status)
    {
      if !PassesModelValidator(value, winner, reason) {
        return Some(ValidationError);
      }
      status := value;
      return None;
    }

    method SetWinner(value: Option<nat>) returns (error: Option<EntityError>)
      requires Valid()
      modifies `winner
      ensures Valid()
      ensures if PassesWinnerValidator(status, value) then error == None && winner == value
              else error == Some(ValidationError) && winner == old(winner)
    {
      if !PassesWinnerValidator(status, value) {
        return Some(ValidationError);
      }
      winner := value;
      return None;
    }

    method SetReason(value: Reason) returns (error: Option<EntityError>)
      requires Valid()
      modifies `reason
      ensures Valid()
      ensures if PassesModelValidator(status, winner, value) then error == None && reason == value
              else error == Some(ValidationError) && reason == old(reason)
    {
      if !PassesModelValidator(status, winner, value) {
        return Some(ValidationError);
      }
      reason := value;
      return None;
    }

    method Resolve(winning: nat, by_: nat) returns (error: Option<EntityError>)
      requires Valid()
      modifies this
      ensures Valid() && claimIds == old(claimIds)
      ensures error == if old(status) != Open then Some(AlreadyResolved)
                       else if claimIds != [] && winning !in claimIds then Some(ClaimNotInConflict) else None
      ensures error.Some? ==> View() == old(View()) && resolvedBy == old(resolvedBy)
      ensures error.None? ==> View() == ResolvedView(old(View()), winning) && resolvedBy == Some(by_)
    {
      if status != Open {
        return Some(AlreadyResolved);
      }
      if claimIds != [] && winning !in claimIds {
        return Some(ClaimNotInConflict);
      }
      error := SetWinner(Some(winning));
      error := SetStatus(Resolved);
      resolvedBy := Some(by_);
      version := version + 1;
      error := SetReason(UserResolved);
    }

    method ReopenForNewEvidence() returns (error: Option<EntityError>)
      requires Valid()
      modifies this
      ensures Valid() && claimIds == old(claimIds)
      ensures error.None? && View() == ReopenedView(old(View()), NewEvidence) && resolvedBy == None
    {
      error := SetStatus(Open);
      error := SetWinner(None);
      resolvedBy := None;
      version := version + 1;
      error := SetReason(NewEvidence);
    }

    method ReopenByUser() returns (error: Option<EntityError>)
      requires Valid()
      modifies this
      ensures Valid() && claimIds == old(claimIds)
      ensures error == if old(status) == Resolved then None else Some(OnlyResolvedCanReopen)
      ensures error.Some? ==> View() == old(View()) && resolvedBy == old(resolvedBy)
      ensures error.None? ==> View() == ReopenedView(old(View()), UserReopened) && resolvedBy == None
    {
      if status != Resolved {
        return Some(OnlyResolvedCanReopen);
      }
      error := SetStatus(Open);
      error := SetWinner(None);
      resolvedBy := None;
      version := version + 1;
      error := SetReason(UserReopened);
    }

    method AddClaimId(claim: nat)
      requires Valid()
      modifies `claimIds
      ensures Valid() && claimIds == if claim in old(claimIds) then old(claimIds) else old(claimIds) + [claim]
    {
      if claim !in claimIds {
        claimIds := claimIds + [claim];
      }
    }

    /** Raises exactly on a merge tombstone, by which time the version is already bumped. */
    method AddEvidence(newReason: Reason) returns (error: Option<EntityError>)
      requires Valid()
      modifies this
      ensures Valid() && claimIds == old(claimIds) && resolvedBy == old(resolvedBy)
      ensures error.Some? <==> old(status) == Resolved && old(winner) == None && newReason != SystemAutoClosed
      ensures version == old(version) + 1
      ensures error.None? ==> View() == EvidencedView(old(View()), newReason)
    {
      version := version + 1;
      error := SetReason(newReason);
    }
  }

  // ---------- Entity and row ----------

  function ResolvedView(v: Columns, winning: nat): Columns {
    Columns(Resolved, Some(winning), v.version + 1, UserResolved)
  }

  function ReopenedView(v: Columns, why: Reason): Columns {
    Columns(Open, None, v.version + 1, why)
  }

  function EvidencedView(v: Columns, why: Reason): Columns {
    v.(version := v.version + 1, reason := why)
  }

  /** Loading a row gives every column explicitly, so both validators run. */
  predicate Loads(row: Conflict) {
    PassesWinnerValidator(row.status, row.winner) && PassesModelValidator(row.status, row.winner, row.reason)
  }

  /** The columns the use cases persist are those the entity's own methods leave; the updates without such a
      method close a conflict as the system's doing, or move its winner and nothing else. */
  lemma EntityAndRowAgree(row: Conflict, op: Op)
    requires row.status == SawStatus(op)
    ensures op.CuratorResolve? || op.CuratorOverride? ==>
              ColumnsOf(Perform(row, op)) == ResolvedView(ColumnsOf(row), op.winning)
    ensures op.CuratorReopen? ==> ColumnsOf(Perform(row, op)) == ReopenedView(ColumnsOf(row), UserReopened)
    ensures op.ReopenForEvidence? ==> ColumnsOf(Perform(row, op)) == ReopenedView(ColumnsOf(row), NewEvidence)
    ensures op.MergeEvidence? ==> ColumnsOf(Perform(row, op)) == EvidencedView(ColumnsOf(row), NewEvidence)
    ensures op.AutoClose? ==>
              ColumnsOf(Perform(row, op)) == Columns(Resolved, Some(op.winning), row.version + 1, SystemAutoClosed)
    ensures op.MoveWinner? ==>
              ColumnsOf(Perform(row, op)) == Columns(Resolved, Some(op.winning), row.version + 1, row.reason)
    ensures op.Tombstone? ==> ColumnsOf(Perform(row, op)) == Columns(Resolved, None, row.version + 1, SystemAutoClosed)
  {
  }

  /** Of all updates only the merge tombstone leaves a row the entity cannot load: the one validator
      allows a winnerless auto-closed conflict, the other rejects it when the row is read back. */
  lemma OnlyTombstonesDoNotLoad(claims: seq<Claim>, row: Conflict, op: Op)
    requires RowOk(claims, row) && OpFits(claims, row, op) && row.status == SawStatus(op)
    ensures PassesModelValidator(Perform(row, op).status, Perform(row, op).winner, Perform(row, op).reason)
    ensures Loads(Perform(row, op)) <==> op != Tombstone
  {
    PerformKeepsRow(claims, row, op);
  }
}
