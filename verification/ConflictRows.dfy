/**
 What each writer does to one conflict row inside its transaction: the version-checked
 update, the evidence links and the activity-log entry, as one atomic effect.
 */
module ConflictRows {
  import opened Optional
  import opened Evidence

  /** The eight updates of a conflict row. The first four are the reconciler's, the next
      three a curator's, the last that of a merge of its event into another, which is always rolled back. */
  datatype Op =
    | MergeEvidence(ids: set<nat>)
    | AutoClose(winning: nat)
    | MoveWinner(winning: nat)
    | ReopenForEvidence(ids: set<nat>)
    | CuratorResolve(winning: nat)
    | CuratorOverride(winning: nat)
    | CuratorReopen
    | Tombstone

  /** The status a writer saw in the row before it chose the update; it is what it logs as from_status. */
  function SawStatus(op: Op): Status {
    if op.MoveWinner? || op.ReopenForEvidence? || op.CuratorReopen? then Resolved else Open
  }

  function LoggedStatus(op: Op): Status {
    if op.MergeEvidence? || op.ReopenForEvidence? || op.CuratorReopen? then Open else Resolved
  }

  predicate Reopens(op: Op) {
    op.ReopenForEvidence? || op.CuratorReopen?
  }

  /** The claims an update links to the conflict. */
  function NewLinks(op: Op): set<nat> {
    match op
    case MergeEvidence(ids) => ids
    case ReopenForEvidence(ids) => ids
    case AutoClose(w) => {w}
    case MoveWinner(w) => {w}
    case CuratorOverride(w) => {w}
    case CuratorResolve(_) => {}
    case CuratorReopen => {}
    case Tombstone => {}
  }

  function MaxSequence(log: seq<LogEntry>): (m: nat)
    ensures forall i | 0 <= i < |log| :: log[i].sequence <= m
    ensures log == [] ==> m == 0
    ensures log != [] ==> exists i :: 0 <= i < |log| && log[i].sequence == m
  {
    if log == [] then 0
    else
      var rest := MaxSequence(log[..|log| - 1]);
      var last := log[|log| - 1].sequence;
      if rest > last then rest else last
  }

  /** next_sequence: one past the largest sequence logged. */
  function NextSequence(log: seq<LogEntry>): nat {
    MaxSequence(log) + 1
  }

  /** The columns the update sets; status, winner and reason keep their value where it sets none. */
  function SetColumns(row: Conflict, op: Op): Conflict {
    match op
    case MergeEvidence(_) => row.(reason := NewEvidence)
    case AutoClose(w) => row.(status := Resolved, winner := Some(w), reason := SystemAutoClosed)
    case MoveWinner(w) => row.(winner := Some(w))
    case ReopenForEvidence(_) => row.(status := Open, winner := None, reason := NewEvidence)
    case CuratorResolve(w) => row.(status := Resolved, winner := Some(w), reason := UserResolved)
    case CuratorOverride(w) => row.(status := Resolved, winner := Some(w), reason := UserResolved)
    case CuratorReopen => row.(status := Open, winner := None, reason := UserReopened)
    case Tombstone => row.(status := Resolved, winner := None, reason := SystemAutoClosed)
  }

  /** The whole effect on the row of an update whose version check succeeded. */
  function Perform(row: Conflict, op: Op): Conflict {
    SetColumns(row, op).(
      version := row.version + 1,
      links := row.links + NewLinks(op),
      log := row.log + [LogEntry(NextSequence(row.log), Some(SawStatus(op)), LoggedStatus(op), row.version + 1)])
  }

  /** A brand-new conflict: inserted by try_add_open, linked, and logged. */
  function FreshConflict(e: nat, f: FieldName, ids: set<nat>): Conflict {
    Conflict(e, f, Open, 1, None, Initial, ids, [LogEntry(NextSequence([]), None, Open, 1)])
  }

  predicate HasOpen(conflicts: seq<Conflict>, e: nat, f: FieldName) {
    exists i | 0 <= i < |conflicts| :: conflicts[i].IsOpenOn(e, f)
  }

  predicate OtherOpen(conflicts: seq<Conflict>, id: nat)
    requires id < |conflicts|
  {
    exists i | 0 <= i < |conflicts| :: i != id && conflicts[i].IsOpenOn(conflicts[id].event, conflicts[id].field)
  }

  /** What update_with_version_check reports: a stale version changes nothing, a second open
      row for the field violates the partial unique index and aborts, otherwise the row is written. */
  datatype Verdict = Stale | Clash | Written

  function Check(conflicts: seq<Conflict>, id: nat, expected: nat, op: Op): Verdict
    requires id < |conflicts|
  {
    if conflicts[id].version != expected then Stale
    else if Reopens(op) && OtherOpen(conflicts, id) then Clash
    else Written
  }

  /** The conflict table after the attempt. */
  function Attempt(conflicts: seq<Conflict>, id: nat, expected: nat, op: Op): seq<Conflict>
    requires id < |conflicts|
  {
    if Check(conflicts, id, expected, op) == Written then conflicts[id := Perform(conflicts[id], op)] else conflicts
  }

  /** try_add_open with the links and log row added when it inserts. */
  function TryAddOpen(conflicts: seq<Conflict>, e: nat, f: FieldName, ids: set<nat>): seq<Conflict> {
    if HasOpen(conflicts, e, f) then conflicts else conflicts + [FreshConflict(e, f, ids)]
  }

  // ---------- The invariant of one row ----------

  /** Entry k is the k-th change: numbered k + 1, at version k + 1, from where entry k - 1 ended. */
  ghost predicate LogLinked(log: seq<LogEntry>) {
    forall k | 0 <= k < |log| ::
      log[k].sequence == k + 1 && log[k].version == k + 1
      && log[k].fromStatus == if k == 0 then None else Some(log[k - 1].toStatus)
  }

  /** The log has one entry for each version, from the opening to the row's status. */
  ghost predicate LogFaithful(row: Conflict) {
    |row.log| == row.version >= 1
    && row.log[0].toStatus == Open
    && row.log[|row.log| - 1].toStatus == row.status
    && LogLinked(row.log)
  }

  /** An open row has no winner; a resolved one has a linked winner unless it is a merge tombstone. */
  ghost predicate WinnerFits(row: Conflict) {
    match row.status
    case Open => row.winner == None
    case Resolved =>
      match row.winner
      case Some(w) => w in row.links
      case None => row.reason == SystemAutoClosed
  }

  predicate LinksFit(claims: seq<Claim>, e: nat, f: FieldName, ids: set<nat>) {
    forall id | id in ids :: id < |claims| && claims[id].IsOn(e, f)
  }

  ghost predicate RowOk(claims: seq<Claim>, row: Conflict) {
    LogFaithful(row) && WinnerFits(row) && LinksFit(claims, row.event, row.field, row.links)
  }

  /** An update may link only claims of the conflict's field; a curator's pick must be linked already. */
  ghost predicate OpFits(claims: seq<Claim>, row: Conflict, op: Op) {
    LinksFit(claims, row.event, row.field, NewLinks(op))
    && (op.CuratorResolve? ==> op.winning in row.links)
  }

  lemma LogPush(log: seq<LogEntry>, entry: LogEntry)
    requires LogLinked(log) && log != []
    requires entry.sequence == |log| + 1 && entry.version == |log| + 1
             && entry.fromStatus == Some(log[|log| - 1].toStatus)
    ensures LogLinked(log + [entry]) && (log + [entry])[0] == log[0]
  {
  }

  lemma PerformKeepsRow(claims: seq<Claim>, row: Conflict, op: Op)
    requires RowOk(claims, row) && OpFits(claims, row, op) && row.status == SawStatus(op)
    ensures RowOk(claims, Perform(row, op))
    ensures Perform(row, op).status == LoggedStatus(op)
  {
    assert MaxSequence(row.log) == |row.log| by {
      assert row.log[|row.log| - 1].sequence == |row.log|;
    }
    LogPush(row.log, LogEntry(|row.log| + 1, Some(row.status), LoggedStatus(op), |row.log| + 1));
  }

  lemma FreshConflictIsOk(claims: seq<Claim>, e: nat, f: FieldName, ids: set<nat>)
    requires LinksFit(claims, e, f, ids)
    ensures RowOk(claims, FreshConflict(e, f, ids))
  {
  }
}
