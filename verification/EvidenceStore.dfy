/**
 The shared tables as one worker's unit of work sees them. The worker's own updates are
 atomic steps; before each of its reads and writes the other writers may take any number of
 permitted steps, unless the unit of work is `exclusive`.
 */
module EvidenceStore {
  import opened Evidence
  import opened ConflictRows
  import opened Interleaving

  /** A conflict row as read at position `readAt` of the run. */
  datatype Loaded = Loaded(id: nat, row: Conflict, readAt: nat)

  predicate Extends(before: Run, after: Run) {
    before.states <= after.states && before.steps <= after.steps
  }

  predicate OnlyOthers(before: Run, after: Run) {
    Extends(before, after)
    && forall k | |before.steps| <= k < |after.steps| :: after.steps[k].actor == Other
  }

  /** The worker's one step since `before` is a successful `op` on conflict `id`, and it is the last step. */
  ghost predicate Took(before: Run, after: Run, id: nat, op: Op) {
    Extends(before, after)
    && Legal(after)
    && |before.steps| < |after.steps|
    && (forall k | |before.steps| <= k < |after.steps| - 1 :: after.steps[k].actor == Other)
    && var last := |after.steps| - 1;
       after.steps[last].actor == Self
       && id < |after.states[last].conflicts|
       && after.steps[last].action == UpdateConflict(id, after.states[last].conflicts[id].version, op)
       && after.states[last + 1].conflicts == after.states[last].conflicts[id := Perform(after.states[last].conflicts[id], op)]
  }

  ghost predicate WasRead(run: Run, l: Loaded) {
    l.readAt < |run.states| && l.id < |run.states[l.readAt].conflicts| && run.states[l.readAt].conflicts[l.id] == l.row
  }

  class Store {
    var db: Db
    var run: Run
    const exclusive: bool

    ghost predicate Valid()
      reads this
    {
      Legal(run) && db == run.states[|run.states| - 1]
    }

    constructor (exclusive: bool)
      ensures Valid() && db == EMPTY_DB && this.exclusive == exclusive
    {
      this.exclusive := exclusive;
      db := EMPTY_DB;
      run := START;
    }

    /** The other writers. */
    method LetOthersAct()
      requires Valid()
      modifies this
      ensures Valid() && OnlyOthers(old(run), run) && Grew(old(db), db)
      ensures exclusive ==> db == old(db) && run == old(run)
    {
      if !exclusive {
        OthersMayRest(run);
        var next: Run :| Legal(next) && OnlyOthers(run, next);
        OthersExtend(run, next);
        LegalExtensionGrew(run, next);
        run := next;
        db := next.states[|next.states| - 1];
      } else {
        OthersMayRest(run);
        LegalExtensionGrew(run, run);
      }
    }

    method Load(id: nat) returns (l: Loaded)
      requires Valid() && id < |db.conflicts|
      ensures l.id == id && l.row == db.conflicts[id] && l.readAt == |run.states| - 1 && WasRead(run, l)
    {
      l := Loaded(id, db.conflicts[id], |run.states| - 1);
    }

    /** The unit of work is abandoned: everything since `saved` is undone. */
    method Rollback(saved: Run)
      requires Valid() && exclusive && Legal(saved)
      modifies this
      ensures Valid() && run == saved && db == saved.states[|saved.states| - 1]
    {
      run := saved;
      db := saved.states[|saved.states| - 1];
    }

    /** One atomic step of this worker. */
    method Act(readAt: nat, action: Action)
      requires Valid() && readAt < |run.states| && Permitted(run.states[readAt], db, action)
      modifies this
      ensures Valid() && run == Extend(old(run), Step(Self, readAt, action)) && db == Apply(old(db), action)
    {
      var step := Step(Self, readAt, action);
      ExtendIsLegal(run, step);
      run := Extend(run, step);
      db := Apply(db, action);
    }

    /** update_with_version_check, with the links and log row its caller adds when it succeeds. */
    method UpdateWithVersionCheck(l: Loaded, op: Op) returns (verdict: Verdict)
      requires Valid() && WasRead(run, l)
      requires Permitted(run.states[l.readAt], db, UpdateConflict(l.id, l.row.version, op))
      modifies this
      ensures Valid() && Grew(old(db), db) && WasRead(run, l)
      ensures l.id < |old(db).conflicts|
      ensures verdict == Check(old(db).conflicts, l.id, l.row.version, op)
      ensures db == old(db).(conflicts := Attempt(old(db).conflicts, l.id, l.row.version, op))
      ensures verdict == Written ==> Took(old(run), run, l.id, op) && db.conflicts[l.id].status == LoggedStatus(op)
      ensures verdict != Written ==> run == old(run)
      ensures verdict == Stale ==> db.conflicts[l.id].version > l.row.version
    {
      ReadRowGrew(run, l);
      verdict := Check(db.conflicts, l.id, l.row.version, op);
      if verdict == Written {
        WriteChecked(l, op);
      } else {
        GrewReflexive(db);
      }
    }

    /** The row is written: one step of this worker. */
    method WriteChecked(l: Loaded, op: Op)
      requires Valid() && WasRead(run, l)
      requires Permitted(run.states[l.readAt], db, UpdateConflict(l.id, l.row.version, op))
      requires l.id < |db.conflicts| && Check(db.conflicts, l.id, l.row.version, op) == Written
      modifies this
      ensures Valid() && Grew(old(db), db) && WasRead(run, l) && Took(old(run), run, l.id, op)
      ensures db == old(db).(conflicts := Attempt(old(db).conflicts, l.id, l.row.version, op))
      ensures l.id < |db.conflicts| && db.conflicts[l.id].status == LoggedStatus(op)
    {
      CheckedUpdateIsSafe(run, l, op);
      ghost var before := run;
      Act(l.readAt, UpdateConflict(l.id, l.row.version, op));
      ExtendedIsTook(before, run, l, op);
    }

    /** One pass of a retry loop up to the version check. */
    method Try(l: Loaded, op: Op) returns (verdict: Verdict)
      requires Valid() && WasRead(run, l) && l.row.status == SawStatus(op) && !op.CuratorResolve?
      requires LinksFit(db.claims, l.row.event, l.row.field, NewLinks(op))
      modifies this
      ensures Valid() && WasRead(run, l) && Grew(old(db), db) && Extends(old(run), run)
      ensures l.id < |db.conflicts| && RowGrew(l.row, db.conflicts[l.id])
      ensures verdict == Written ==>
                Took(old(run), run, l.id, op) && NewLinks(op) <= db.conflicts[l.id].links
                && db.conflicts[l.id].status == LoggedStatus(op)
      ensures verdict != Written ==> OnlyOthers(old(run), run)
      ensures verdict == Stale ==> db.conflicts[l.id].version > l.row.version
      ensures verdict == Clash ==> Reopens(op) && OtherOpen(db.conflicts, l.id)
      ensures exclusive && Current(old(db), l) ==>
        verdict == Check(old(db).conflicts, l.id, l.row.version, op)
        && db == old(db).(conflicts := Attempt(old(db).conflicts, l.id, l.row.version, op))
    {
      ghost var start, tables := run, db;
      LetOthersAct();
      ghost var middle, now := run, db;
      StillRead(start, middle, l);
      LinksFitGrown(tables, now, l.row.event, l.row.field, NewLinks(op));
      verdict := UpdateWithVersionCheck(l, op);
      GrewTransitive(tables, now, db);
      ReadRowGrew(run, l);
      if verdict == Written {
        OthersThenTook(start, middle, run, l.id, op);
      }
    }

    /** One whole pass of a retry loop: the version-checked update and, when the row moved on, the
        reload. `start` is the run when the loop's worker began. */
    method TryOrReload(l: Loaded, op: Op, ghost start: Run) returns (verdict: Verdict, reloaded: Loaded)
      requires Valid() && WasRead(run, l) && l.row.status == SawStatus(op) && !op.CuratorResolve?
      requires LinksFit(db.claims, l.row.event, l.row.field, NewLinks(op))
      requires OnlyOthers(start, run)
      modifies this
      ensures Valid() && l.id < |db.conflicts| && db.conflicts[l.id].IsOn(l.row.event, l.row.field)
      ensures Extends(old(run), run)
      ensures verdict == Written ==>
        Took(start, run, l.id, op) && NewLinks(op) <= db.conflicts[l.id].links
        && db.conflicts[l.id].status == LoggedStatus(op)
      ensures verdict != Written ==> OnlyOthers(start, run)
      ensures verdict == Clash ==> Reopens(op) && OtherOpen(db.conflicts, l.id)
      ensures verdict == Stale ==>
        WasRead(run, reloaded) && reloaded.id == l.id && Current(db, reloaded) && reloaded.readAt == |run.states| - 1
        && reloaded.row.IsOn(l.row.event, l.row.field) && reloaded.row.version > l.row.version
        && LinksFit(db.claims, l.row.event, l.row.field, NewLinks(op))
      ensures exclusive && Current(old(db), l) ==>
        verdict == Check(old(db).conflicts, l.id, l.row.version, op) && verdict != Stale
        && db == old(db).(conflicts := Attempt(old(db).conflicts, l.id, l.row.version, op))
    {
      ghost var before, tables := run, db;
      reloaded := l;
      verdict := Try(l, op);
      if verdict == Written {
        OthersThenTook(start, before, run, l.id, op);
        return;
      }
      OthersThenOthers(start, before, run);
      if verdict == Stale {
        ghost var middle, now := run, db;
        LetOthersAct();
        OthersThenOthers(start, middle, run);
        StillRead(middle, run, l);
        GrewTransitive(tables, now, db);
        LinksFitGrown(tables, db, l.row.event, l.row.field, NewLinks(op));
        ReadRowGrew(run, l);
        assert RowGrew(now.conflicts[l.id], db.conflicts[l.id]);
        reloaded := Load(l.id);
      }
    }
  }

  lemma OthersMayRest(run: Run)
    ensures OnlyOthers(run, run)
  {
  }

  lemma OthersExtend(before: Run, after: Run)
    requires OnlyOthers(before, after)
    ensures Extends(before, after)
  {
  }

  lemma LegalExtensionGrew(before: Run, after: Run)
    requires Legal(before) && Legal(after) && Extends(before, after)
    ensures Grew(before.states[|before.states| - 1], after.states[|after.states| - 1])
  {
    EveryStateIsSafe(after, |after.states| - 1);
    assert after.states[|before.states| - 1] == before.states[|before.states| - 1];
  }

  lemma ExtendedIsTook(before: Run, after: Run, l: Loaded, op: Op)
    requires Legal(before) && Legal(after)
    requires after == Extend(before, Step(Self, l.readAt, UpdateConflict(l.id, l.row.version, op)))
    requires var db := before.states[|before.states| - 1];
             l.id < |db.conflicts| && Check(db.conflicts, l.id, l.row.version, op) == Written
    ensures Took(before, after, l.id, op)
  {
  }

  lemma CheckedUpdateIsSafe(run: Run, l: Loaded, op: Op)
    requires Legal(run) && WasRead(run, l)
    requires var db := run.states[|run.states| - 1];
             Permitted(run.states[l.readAt], db, UpdateConflict(l.id, l.row.version, op))
             && l.id < |db.conflicts| && Check(db.conflicts, l.id, l.row.version, op) == Written
    ensures var db := run.states[|run.states| - 1];
            Grew(db, Apply(db, UpdateConflict(l.id, l.row.version, op)))
            && Perform(db.conflicts[l.id], op).status == LoggedStatus(op)
  {
    var db := run.states[|run.states| - 1];
    EveryStateIsSafe(run, |run.states| - 1);
    EveryStateIsSafe(run, l.readAt);
    UpdateStepIsSafe(run.states[l.readAt], db, l.id, l.row.version, op);
    VersionFencesStatus(l.row, db.conflicts[l.id]);
    PerformKeepsRow(db.claims, db.conflicts[l.id], op);
  }

  lemma GrewReflexive(db: Db)
    ensures Grew(db, db)
  {
  }

  ghost predicate Current(db: Db, l: Loaded) {
    l.id < |db.conflicts| && db.conflicts[l.id] == l.row
  }

  lemma OthersThenOthers(a: Run, b: Run, c: Run)
    requires OnlyOthers(a, b) && OnlyOthers(b, c)
    ensures OnlyOthers(a, c)
  {
  }

  lemma OthersThenTook(a: Run, b: Run, c: Run, id: nat, op: Op)
    requires OnlyOthers(a, b) && Took(b, c, id, op)
    ensures Took(a, c, id, op)
  {
  }

  lemma StillRead(before: Run, after: Run, l: Loaded)
    requires Extends(before, after) && WasRead(before, l)
    ensures WasRead(after, l)
  {
  }

  /** What was read is still there in the current state, grown. */
  lemma ReadRowGrew(run: Run, l: Loaded)
    requires Legal(run) && WasRead(run, l)
    ensures l.id < |run.states[|run.states| - 1].conflicts|
    ensures RowGrew(l.row, run.states[|run.states| - 1].conflicts[l.id])
    ensures RowOk(run.states[|run.states| - 1].claims, run.states[|run.states| - 1].conflicts[l.id])
  {
    EveryStateIsSafe(run, |run.states| - 1);
    assert Grew(run.states[l.readAt], run.states[|run.states| - 1]);
  }

  /** Claims once linked to a field stay claims of that field. */
  lemma LinksFitGrown(before: Db, after: Db, e: nat, f: FieldName, ids: set<nat>)
    requires Grew(before, after) && LinksFit(before.claims, e, f, ids)
    ensures LinksFit(after.claims, e, f, ids)
  {
    forall id | id in ids ensures id < |after.claims| && after.claims[id].IsOn(e, f) {
      assert after.claims[id].SameAssertion(before.claims[id]);
    }
  }
}
