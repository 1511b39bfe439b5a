/**
 Concurrent transactions that append to one protected table. The trigger locks the anchor row
 first, so a transaction holds the lock from its first append until it commits or aborts, and
 the others wait.
 */
module AuditTransactions {
  import opened Optional
  import opened AuditChain
  import opened AuditIntegrity

  type Tx = nat

  /** Committed rows and anchor; the lock's owner with its uncommitted rows and anchor. */
  datatype Sys = Sys(rows: seq<Row>, anchor: Anchor, owner: Option<Tx>, pending: seq<Row>, working: Anchor)

  const INITIAL := Sys([], EMPTY_ANCHOR, None, [], EMPTY_ANCHOR)

  datatype Event = Lock(tx: Tx) | Insert(tx: Tx, payload: Payload) | Commit(tx: Tx) | Abort(tx: Tx)

  predicate IdTaken(rows: seq<Row>, id: nat) {
    exists i | 0 <= i < |rows| :: rows[i].payload.id == id
  }

  function Released(s: Sys): Sys {
    Sys(s.rows, s.anchor, None, [], s.anchor)
  }

  /** An event that must wait, or that its transaction cannot issue, changes nothing. A duplicate id
      aborts its transaction. */
  function Next(mac: Mac, key: Secret, s: Sys, e: Event): Sys {
    match e
    case Lock(tx) => if s.owner == None then Sys(s.rows, s.anchor, Some(tx), [], s.anchor) else s
    case Insert(tx, p) =>
      if s.owner != Some(tx) then s
      else if IdTaken(s.rows + s.pending, p.id) then Released(s)
      else s.(pending := s.pending + [Stamped(mac, key, s.working, p)], working := Advanced(mac, key, s.working, p))
    case Commit(tx) => if s.owner != Some(tx) then s else Sys(s.rows + s.pending, s.working, None, [], s.working)
    case Abort(tx) => if s.owner != Some(tx) then s else Released(s)
  }

  function Execute(mac: Mac, key: Secret, events: seq<Event>): Sys {
    if events == [] then INITIAL else Next(mac, key, Execute(mac, key, events[..|events| - 1]), events[|events| - 1])
  }

  /** The committed rows are one chain ending at the anchor, and so are they with the owner's rows. */
  ghost predicate Chained(mac: Mac, key: Secret, s: Sys) {
    Linked(mac, key, s.rows) && AnchorAgrees(mac, key, s.anchor, Payloads(s.rows))
    && Linked(mac, key, s.rows + s.pending) && AnchorAgrees(mac, key, s.working, Payloads(s.rows + s.pending))
    && DistinctIds(s.rows + s.pending)
    && (s.owner == None ==> s.pending == [])
  }

  /** Without pending rows, whoever holds the lock. */
  lemma ReleaseKeepsChain(mac: Mac, key: Secret, s: Sys)
    requires Chained(mac, key, s)
    ensures forall owner :: Chained(mac, key, Sys(s.rows, s.anchor, owner, [], s.anchor))
  {
    assert s.rows + [] == s.rows;
    forall i, j | 0 <= i < j < |s.rows| ensures s.rows[i].payload.id != s.rows[j].payload.id {
      assert (s.rows + s.pending)[i] == s.rows[i] && (s.rows + s.pending)[j] == s.rows[j];
    }
  }

  lemma FreshIdKeepsDistinct(rows: seq<Row>, row: Row)
    requires DistinctIds(rows) && !IdTaken(rows, row.payload.id)
    ensures DistinctIds(rows + [row])
  {
  }

  lemma InsertKeepsChain(mac: Mac, key: Secret, s: Sys, p: Payload)
    requires Chained(mac, key, s) && s.owner.Some? && !IdTaken(s.rows + s.pending, p.id)
    ensures Chained(mac, key, s.(pending := s.pending + [Stamped(mac, key, s.working, p)],
                                 working := Advanced(mac, key, s.working, p)))
  {
    var all, row := s.rows + s.pending, Stamped(mac, key, s.working, p);
    LinkedPush(mac, key, all, s.working, p);
    FreshIdKeepsDistinct(all, row);
    assert s.rows + (s.pending + [row]) == all + [row];
  }

  lemma NextKeepsChain(mac: Mac, key: Secret, s: Sys, e: Event)
    requires Chained(mac, key, s)
    ensures Chained(mac, key, Next(mac, key, s, e))
  {
    ReleaseKeepsChain(mac, key, s);
    if e.Insert? && s.owner == Some(e.tx) && !IdTaken(s.rows + s.pending, e.payload.id) {
      InsertKeepsChain(mac, key, s, e.payload);
    } else if e.Commit? && s.owner == Some(e.tx) {
      assert (s.rows + s.pending) + [] == s.rows + s.pending;
    }
  }

  lemma {:induction false} EveryScheduleKeepsChain(mac: Mac, key: Secret, events: seq<Event>)
    ensures Chained(mac, key, Execute(mac, key, events))
  {
    if events == [] {
      assert INITIAL.rows + INITIAL.pending == [];
    } else {
      EveryScheduleKeepsChain(mac, key, events[..|events| - 1]);
      NextKeepsChain(mac, key, Execute(mac, key, events[..|events| - 1]), events[|events| - 1]);
    }
  }

  /** Whatever the interleaving of locks, inserts, commits and aborts, the committed rows are one
      unforked chain: consecutive rows are linked, no two rows share a prev_hash, and the anchor
      holds the number of rows and the last row's hash. */
  lemma CommittedRowsAreOneChain(mac: Mac, key: Secret, events: seq<Event>)
    requires Injective(mac)
    ensures var s := Execute(mac, key, events);
            (forall i | 0 < i < |s.rows| :: s.rows[i].prevHash == s.rows[i - 1].rowHash)
            && (forall i, j | 0 <= i < j < |s.rows| :: s.rows[i].prevHash != s.rows[j].prevHash)
            && s.anchor.count == |s.rows|
            && s.anchor.latestHash == if s.rows == [] then None else s.rows[|s.rows| - 1].rowHash
  {
    var s := Execute(mac, key, events);
    EveryScheduleKeepsChain(mac, key, events);
    var ps := Payloads(s.rows);
    assert ps[..|ps|] == ps;
    forall i, j | 0 <= i < j < |s.rows| ensures s.rows[i].prevHash != s.rows[j].prevHash {
      LongerChainsDiffer(mac, key, ps[..i], ps[..j]);
    }
  }

  // ---------- Which rows are committed ----------

  /** The payloads a transaction inserts, in order. */
  function IssuedBy(events: seq<Event>, tx: Tx): seq<Payload> {
    if events == [] then []
    else
      var last := events[|events| - 1];
      IssuedBy(events[..|events| - 1], tx) + (if last.Insert? && last.tx == tx then [last.payload] else [])
  }

  predicate IdAmong(ps: seq<Payload>, id: nat) {
    exists i | 0 <= i < |ps| :: ps[i].id == id
  }

  /** The position of the Lock event since which a transaction has held the lock, if one holds it: it took
      the lock when nobody held it, and has since neither committed, nor aborted, nor inserted an id that it
      or a committed transaction had already inserted. */
  function HeldSince(events: seq<Event>): (held: Option<nat>)
    ensures held.Some? ==> held.value < |events| && events[held.value].Lock?
    decreases |events|, 0
  {
    if events == [] then None
    else
      var n := |events| - 1;
      var held := HeldSince(events[..n]);
      match events[n]
      case Lock(_) => if held == None then Some(n) else held
      case Insert(tx, p) =>
        if held.Some? && events[held.value].tx == tx
           && IdAmong(CommittedPayloads(events[..n]) + IssuedBy(events[held.value..n], tx), p.id) then None
        else held
      case Commit(tx) => if held.Some? && events[held.value].tx == tx then None else held
      case Abort(tx) => if held.Some? && events[held.value].tx == tx then None else held
  }

  /** What each transaction inserted between its lock and its commit, in the order of the commits; a
      transaction that did not commit adds nothing. */
  function CommittedPayloads(events: seq<Event>): seq<Payload>
    decreases |events|, 1
  {
    if events == [] then []
    else
      var n := |events| - 1;
      var held := HeldSince(events[..n]);
      CommittedPayloads(events[..n])
      + if events[n].Commit? && held.Some? && events[held.value].tx == events[n].tx
        then IssuedBy(events[held.value..n], events[n].tx) else []
  }

  /** The system holds those payloads, the holder of the lock, and what the holder has inserted since. */
  ghost predicate Holds(s: Sys, events: seq<Event>) {
    var held := HeldSince(events);
    Payloads(s.rows) == CommittedPayloads(events)
    && s.owner == (match held case None => None case Some(h) => Some(events[h].tx))
    && Payloads(s.pending) == match held case None => [] case Some(h) => IssuedBy(events[h..], events[h].tx)
  }

  lemma PayloadsAppend(a: seq<Row>, b: seq<Row>)
    ensures Payloads(a + b) == Payloads(a) + Payloads(b)
  {
  }

  lemma IdTakenIsAmong(rows: seq<Row>, id: nat)
    ensures IdTaken(rows, id) <==> IdAmong(Payloads(rows), id)
  {
    if IdAmong(Payloads(rows), id) {
      var i :| 0 <= i < |Payloads(rows)| && Payloads(rows)[i].id == id;
      assert rows[i].payload.id == id;
    }
    if IdTaken(rows, id) {
      var i :| 0 <= i < |rows| && rows[i].payload.id == id;
      assert Payloads(rows)[i].id == id;
    }
  }

  /** The last event adds to what a transaction has issued since event `since` only as its own insert. */
  lemma IssuedSince(events: seq<Event>, since: nat, tx: Tx)
    requires since < |events|
    ensures events[..|events| - 1][since..] == events[since..|events| - 1]
    ensures var last := events[|events| - 1];
            IssuedBy(events[since..], tx)
            == IssuedBy(events[since..|events| - 1], tx) + if last.Insert? && last.tx == tx then [last.payload] else []
  {
    assert events[since..][..|events[since..]| - 1] == events[since..|events| - 1];
  }

  lemma CommittedNext(events: seq<Event>)
    requires events != []
    ensures !events[|events| - 1].Commit? ==>
              CommittedPayloads(events) == CommittedPayloads(events[..|events| - 1])
  {
  }

  lemma InsertHolds(mac: Mac, key: Secret, s: Sys, events: seq<Event>)
    requires events != [] && events[|events| - 1].Insert? && Holds(s, events[..|events| - 1])
    ensures Holds(Next(mac, key, s, events[|events| - 1]), events)
  {
    var n := |events| - 1;
    var held, p := HeldSince(events[..n]), events[n].payload;
    IdTakenIsAmong(s.rows + s.pending, p.id);
    PayloadsAppend(s.rows, s.pending);
    PayloadsAppend(s.pending, [Stamped(mac, key, s.working, p)]);
    CommittedNext(events);
    if held.Some? {
      IssuedSince(events, held.value, events[held.value].tx);
    }
    hide Stamped, Advanced, IssuedBy, CommittedPayloads, IdTaken, IdAmong;
  }

  lemma LockHolds(mac: Mac, key: Secret, s: Sys, events: seq<Event>)
    requires events != [] && events[|events| - 1].Lock? && Holds(s, events[..|events| - 1])
    ensures Holds(Next(mac, key, s, events[|events| - 1]), events)
  {
    var n := |events| - 1;
    var held := HeldSince(events[..n]);
    CommittedNext(events);
    IssuedSince(events, if held.Some? then held.value else n, if held.Some? then events[held.value].tx else events[n].tx);
    assert IssuedBy(events[n..n], events[n].tx) == [];
    hide IssuedBy, CommittedPayloads;
  }

  lemma EndHolds(mac: Mac, key: Secret, s: Sys, events: seq<Event>)
    requires events != [] && (events[|events| - 1].Commit? || events[|events| - 1].Abort?)
             && Holds(s, events[..|events| - 1])
    ensures Holds(Next(mac, key, s, events[|events| - 1]), events)
  {
    var n := |events| - 1;
    var held := HeldSince(events[..n]);
    PayloadsAppend(s.rows, s.pending);
    if held.Some? {
      IssuedSince(events, held.value, events[held.value].tx);
    }
    hide IssuedBy;
  }

  lemma NextHolds(mac: Mac, key: Secret, s: Sys, events: seq<Event>)
    requires events != [] && Holds(s, events[..|events| - 1])
    ensures Holds(Next(mac, key, s, events[|events| - 1]), events)
  {
    hide Holds, Next;
    match events[|events| - 1]
    case Lock(_) => LockHolds(mac, key, s, events);
    case Insert(_, _) => InsertHolds(mac, key, s, events);
    case Commit(_) => EndHolds(mac, key, s, events);
    case Abort(_) => EndHolds(mac, key, s, events);
  }

  /** Whatever the interleaving, the table holds exactly what the committed transactions inserted, all of
      it, in order, and nothing of any other transaction. */
  lemma {:induction false} EveryScheduleHolds(mac: Mac, key: Secret, events: seq<Event>)
    ensures Holds(Execute(mac, key, events), events)
  {
    if events == [] {
    } else {
      EveryScheduleHolds(mac, key, events[..|events| - 1]);
      NextHolds(mac, key, Execute(mac, key, events[..|events| - 1]), events);
    }
  }

  /** A transaction of two inserts appends both rows. */
  lemma BothRowsAreCommitted(mac: Mac, key: Secret, a: Payload, b: Payload)
    requires a.id != b.id
    ensures Payloads(Execute(mac, key, [Lock(1), Insert(1, a), Insert(1, b), Commit(1)]).rows) == [a, b]
  {
    var locked := [Lock(1)];
    var one := locked + [Insert(1, a)];
    var both := one + [Insert(1, b)];
    assert HeldSince(locked) == Some(0) && CommittedPayloads(locked) == [];
    assert one[..1] == one[0..1] == locked && IssuedBy(locked, 1) == [];
    assert HeldSince(one) == Some(0) && CommittedPayloads(one) == [];
    assert both[..2] == both[0..2] == one && IssuedBy(one, 1) == [a];
    assert HeldSince(both) == Some(0) && CommittedPayloads(both) == [];
    assert IssuedBy(both, 1) == [a, b];
    var all := both + [Commit(1)];
    assert all[..3] == all[0..3] == both && all == [Lock(1), Insert(1, a), Insert(1, b), Commit(1)];
    EveryScheduleHolds(mac, key, all);
  }

  // ---------- What the verifier says of them ----------

  /** The verifier passes all the committed rows of a schedule if and only if they were appended in
      verification order, that of time and then id. */
  lemma ScheduleVerifiesIff(mac: Mac, key: Secret, events: seq<Event>, vs: seq<Verdict>)
    requires Injective(mac) && AllCorrect(mac, key, Order(Execute(mac, key, events).rows), vs)
    ensures AllTrue(vs) <==> Ascending(Execute(mac, key, events).rows)
  {
    var s := Execute(mac, key, events);
    EveryScheduleKeepsChain(mac, key, events);
    ReleaseKeepsChain(mac, key, s);
    assert Chained(mac, key, Released(s)) && s.rows + [] == s.rows;
    UntouchedChainVerifiesIff(mac, key, s.rows, vs);
  }

  const EARLIER := Payload(1, 1, "")
  const LATER := Payload(0, 2, "")

  /** Transaction 1 begins at time 1 and transaction 2 at time 2, but transaction 2 appends first. */
  const OVERTAKEN: seq<Event> := [Lock(2), Insert(2, LATER), Commit(2), Lock(1), Insert(1, EARLIER), Commit(1)]

  lemma ExecutePush(mac: Mac, key: Secret, events: seq<Event>, e: Event)
    ensures Execute(mac, key, events + [e]) == Next(mac, key, Execute(mac, key, events), e)
  {
    assert (events + [e])[..|events|] == events;
  }

  lemma OneTransaction(mac: Mac, key: Secret, events: seq<Event>, tx: Tx, p: Payload)
    requires var s := Execute(mac, key, events);
             s.owner == None && s.pending == [] && s.anchor == s.working
             && !IdTaken(s.rows, p.id)
    ensures var before := Execute(mac, key, events);
            var s := Execute(mac, key, events + [Lock(tx), Insert(tx, p), Commit(tx)]);
            s.owner == None && s.pending == [] && s.anchor == s.working
            && s.rows == before.rows + [Stamped(mac, key, before.anchor, p)]
  {
    var s := Execute(mac, key, events);
    ExecutePush(mac, key, events, Lock(tx));
    ExecutePush(mac, key, events + [Lock(tx)], Insert(tx, p));
    ExecutePush(mac, key, events + [Lock(tx)] + [Insert(tx, p)], Commit(tx));
    assert s.rows + [] == s.rows;
    assert events + [Lock(tx)] + [Insert(tx, p)] + [Commit(tx)] == events + [Lock(tx), Insert(tx, p), Commit(tx)];
  }

  /** Nobody tampered with the rows of this schedule, and the verifier does not pass them. */
  lemma OvertakenScheduleFails(mac: Mac, key: Secret, vs: seq<Verdict>)
    requires Injective(mac) && AllCorrect(mac, key, Order(Execute(mac, key, OVERTAKEN).rows), vs)
    ensures |vs| == 2 && !AllTrue(vs)
  {
    OneTransaction(mac, key, [], 2, LATER);
    var first := [Lock(2), Insert(2, LATER), Commit(2)];
    assert [] + first == first;
    OneTransaction(mac, key, first, 1, EARLIER);
    assert first + [Lock(1), Insert(1, EARLIER), Commit(1)] == OVERTAKEN;
    var rows := Execute(mac, key, OVERTAKEN).rows;
    assert !Before(rows[0].payload, rows[1].payload);
    ScheduleVerifiesIff(mac, key, OVERTAKEN, vs);
  }
}
