/**
 The tamper-evident hash chain of migration 053: the append trigger, the verifier loop and
 the backfill loop over one protected table, and what a verified chain proves.
 */
module AuditChain {
  import opened Optional

  type Digest = nat
  type Secret = nat

  /** Everything in a row but the two hash columns; `id` is the primary key, `time` the order column. */
  datatype Payload = Payload(id: nat, time: int, body: string)

  datatype Row = Row(payload: Payload, prevHash: Option<Digest>, rowHash: Option<Digest>)

  datatype Anchor = Anchor(latestId: Option<nat>, latestHash: Option<Digest>, count: nat)

  const EMPTY_ANCHOR := Anchor(None, None, 0)

  /** HMAC-SHA256 (section 2 of RFC 2104) of the previous row hash, if any, followed by the payload. */
  type Mac = (Secret, Option<Digest>, Payload) -> Digest

  ghost predicate Injective(mac: Mac) {
    forall key, p, q, a, b :: mac(key, p, a) == mac(key, q, b) ==> p == q && a == b
  }

  // ---------- The chain ----------

  function Payloads(rows: seq<Row>): (ps: seq<Payload>)
    ensures |ps| == |rows|
  {
    seq(|rows|, i requires 0 <= i < |rows| => rows[i].payload)
  }

  /** The hash of the last of these payloads when they are chained in this order. */
  function ChainHash(mac: Mac, key: Secret, ps: seq<Payload>): (h: Option<Digest>)
    ensures h == None <==> ps == []
  {
    if ps == [] then None
    else Some(mac(key, ChainHash(mac, key, ps[..|ps| - 1]), ps[|ps| - 1]))
  }

  /** Every row carries the hash of the rows up to it, and of the rows before it. */
  ghost predicate Linked(mac: Mac, key: Secret, rows: seq<Row>) {
    forall i | 0 <= i < |rows| ::
      rows[i].prevHash == ChainHash(mac, key, Payloads(rows)[..i])
      && rows[i].rowHash == ChainHash(mac, key, Payloads(rows)[..i + 1])
  }

  lemma ChainHashPush(mac: Mac, key: Secret, ps: seq<Payload>, p: Payload)
    ensures ChainHash(mac, key, ps + [p]) == Some(mac(key, ChainHash(mac, key, ps), p))
  {
    assert (ps + [p])[..|ps|] == ps;
  }

  lemma MacIsInjective(mac: Mac, key: Secret, p: Option<Digest>, q: Option<Digest>, a: Payload, b: Payload)
    requires Injective(mac) && mac(key, p, a) == mac(key, q, b)
    ensures p == q && a == b
  {
  }

  /** The last hash determines the whole sequence of payloads, its length included. */
  lemma {:induction false} ChainHashIsInjective(mac: Mac, key: Secret, a: seq<Payload>, b: seq<Payload>)
    requires Injective(mac) && ChainHash(mac, key, a) == ChainHash(mac, key, b)
    ensures a == b
    decreases |a|
  {
    if a == [] || b == [] {
    } else {
      var m, n := |a| - 1, |b| - 1;
      MacIsInjective(mac, key, ChainHash(mac, key, a[..m]), ChainHash(mac, key, b[..n]), a[m], b[n]);
      ChainHashIsInjective(mac, key, a[..m], b[..n]);
      assert a == a[..m] + [a[m]] && b == b[..n] + [b[n]];
    }
  }

  // ---------- Verification order ----------

  /** ORDER BY the order column, then id. */
  predicate Before(a: Payload, b: Payload) {
    a.time < b.time || (a.time == b.time && a.id < b.id)
  }

  function InsertRow(row: Row, rows: seq<Row>): (r: seq<Row>)
    ensures |r| == |rows| + 1
  {
    if rows == [] || Before(rows[|rows| - 1].payload, row.payload) then rows + [row]
    else InsertRow(row, rows[..|rows| - 1]) + [rows[|rows| - 1]]
  }

  function Order(rows: seq<Row>): (r: seq<Row>)
    ensures |r| == |rows|
  {
    if rows == [] then [] else InsertRow(rows[|rows| - 1], Order(rows[..|rows| - 1]))
  }

  ghost predicate DistinctIds(rows: seq<Row>) {
    forall i, j | 0 <= i < j < |rows| :: rows[i].payload.id != rows[j].payload.id
  }

  ghost predicate Ascending(rows: seq<Row>) {
    forall i, j | 0 <= i < j < |rows| :: Before(rows[i].payload, rows[j].payload)
  }

  lemma {:induction false} InsertRowSorts(row: Row, rows: seq<Row>)
    requires Ascending(rows) && DistinctIds(rows) && forall i | 0 <= i < |rows| :: rows[i].payload.id != row.payload.id
    ensures Ascending(InsertRow(row, rows)) && DistinctIds(InsertRow(row, rows))
    ensures multiset(InsertRow(row, rows)) == multiset(rows) + multiset{row}
  {
    if rows == [] || Before(rows[|rows| - 1].payload, row.payload) {
      SortedPush(rows, row);
    } else {
      var n := |rows| - 1;
      assert InsertRow(row, rows) == InsertRow(row, rows[..n]) + [rows[n]];
      var r := InsertRow(row, rows[..n]);
      InsertRowSorts(row, rows[..n]);
      assert rows == rows[..n] + [rows[n]];
      forall i | 0 <= i < n + 1 ensures Before(r[i].payload, rows[n].payload) && r[i].payload.id != rows[n].payload.id {
        assert r[i] in multiset(r);
        assert r[i] == row || r[i] in rows[..n];
      }
      SortedPush(r, rows[n]);
    }
  }

  lemma SortedPush(rows: seq<Row>, last: Row)
    requires Ascending(rows) && DistinctIds(rows)
    requires forall i | 0 <= i < |rows| :: Before(rows[i].payload, last.payload) && rows[i].payload.id != last.payload.id
    ensures Ascending(rows + [last]) && DistinctIds(rows + [last])
  {
  }

  /** Order is the SQL ordering: the same rows, in increasing key order. */
  lemma {:induction false} OrderSorts(rows: seq<Row>)
    requires DistinctIds(rows)
    ensures Ascending(Order(rows)) && DistinctIds(Order(rows)) && multiset(Order(rows)) == multiset(rows)
  {
    if rows == [] {
    } else {
      var n := |rows| - 1;
      OrderSorts(rows[..n]);
      assert rows == rows[..n] + [rows[n]];
      var rest := Order(rows[..n]);
      forall i | 0 <= i < n ensures rest[i].payload.id != rows[n].payload.id {
        assert rest[i] in multiset(rest);
        assert rest[i] in rows[..n];
      }
      InsertRowSorts(rows[n], rest);
    }
  }

  /** The key order in columns: by ascending time, and among rows of one time by ascending id. */
  lemma OrderedByTimeThenId(rows: seq<Row>, i: nat, j: nat)
    requires DistinctIds(rows) && i < j < |rows|
    ensures Order(rows)[i].payload.time <= Order(rows)[j].payload.time
    ensures Order(rows)[i].payload.time == Order(rows)[j].payload.time ==>
              Order(rows)[i].payload.id < Order(rows)[j].payload.id
  {
    hide Order;
    OrderSorts(rows);
    assert Before(Order(rows)[i].payload, Order(rows)[j].payload);
  }

  lemma LastOfSame(a: seq<Row>, b: seq<Row>)
    requires Ascending(a) && Ascending(b) && multiset(a) == multiset(b) && a != [] && |a| == |b|
    ensures a[|a| - 1] == b[|b| - 1]
  {
    var m := |a| - 1;
    assert a[m] in multiset(b) && b[m] in multiset(a);
    var i :| 0 <= i <= m && b[i] == a[m];
    var j :| 0 <= j <= m && a[j] == b[m];
  }

  lemma LastApart(rows: seq<Row>)
    requires rows != []
    ensures multiset(rows[..|rows| - 1]) == multiset(rows) - multiset{rows[|rows| - 1]}
    ensures rows == rows[..|rows| - 1] + [rows[|rows| - 1]]
  {
    assert rows == rows[..|rows| - 1] + [rows[|rows| - 1]];
  }

  lemma WithoutLast(a: seq<Row>, b: seq<Row>)
    requires a != [] && |a| == |b| && multiset(a) == multiset(b) && a[|a| - 1] == b[|b| - 1]
    ensures multiset(a[..|a| - 1]) == multiset(b[..|b| - 1])
    ensures a[..|a| - 1] == b[..|b| - 1] ==> a == b
  {
    LastApart(a);
    LastApart(b);
  }

  lemma FewerAscend(rows: seq<Row>)
    requires rows != [] && Ascending(rows)
    ensures Ascending(rows[..|rows| - 1])
  {
  }

  lemma {:induction false} SameWhenAscending(a: seq<Row>, b: seq<Row>)
    requires Ascending(a) && Ascending(b) && multiset(a) == multiset(b) && |a| == |b|
    ensures a == b
    decreases |a|
  {
    if a == [] {
    } else {
      hide *;
      LastOfSame(a, b);
      WithoutLast(a, b);
      FewerAscend(a);
      FewerAscend(b);
      SameWhenAscending(a[..|a| - 1], b[..|b| - 1]);
    }
  }

  /** No other sequence of the same rows is so ordered. */
  lemma OrderIsUnique(rows: seq<Row>, sorted: seq<Row>)
    requires DistinctIds(rows) && multiset(sorted) == multiset(rows)
    requires forall i, j | 0 <= i < j < |sorted| ::
               sorted[i].payload.time < sorted[j].payload.time
               || (sorted[i].payload.time == sorted[j].payload.time && sorted[i].payload.id < sorted[j].payload.id)
    ensures sorted == Order(rows)
  {
    OrderSorts(rows);
    assert |sorted| == |multiset(sorted)| == |multiset(rows)| == |rows|;
    SameWhenAscending(sorted, Order(rows));
  }

  /** A row whose key is beyond all others is verified last. */
  lemma OrderPush(rows: seq<Row>, row: Row)
    requires DistinctIds(rows) && forall i | 0 <= i < |rows| :: Before(rows[i].payload, row.payload)
    ensures Order(rows + [row]) == Order(rows) + [row]
  {
    assert (rows + [row])[..|rows|] == rows;
    OrderSorts(rows);
    var ordered := Order(rows);
    if ordered != [] {
      assert ordered[|ordered| - 1] in multiset(ordered);
      assert ordered[|ordered| - 1] in rows;
    }
  }

  lemma {:induction false} OrderOfAscending(rows: seq<Row>)
    requires Ascending(rows)
    ensures Order(rows) == rows
  {
    if rows == [] {
    } else {
      OrderOfAscending(rows[..|rows| - 1]);
    }
  }

  // ---------- Verdicts ----------

  /** SQL's three-valued booleans. */
  datatype SqlBool = True | False | Unknown

  function And(a: SqlBool, b: bool): SqlBool {
    if !b then False else a
  }

  /** `computed = row_hash`, which is NULL when the row was never hashed. */
  function SameHash(computed: Digest, stored: Option<Digest>): SqlBool {
    match stored
    case None => Unknown
    case Some(h) => if computed == h then True else False
  }

  datatype Verdict = Verdict(rowId: nat, position: nat, ok: SqlBool, expected: Digest, stored: Option<Digest>)

  /** What the verifier must report for the i-th row in verification order. */
  ghost predicate Correct(mac: Mac, key: Secret, rows: seq<Row>, i: nat, v: Verdict)
    requires i < |rows|
  {
    v.rowId == rows[i].payload.id && v.position == i + 1 && v.stored == rows[i].rowHash
    && Some(v.expected) == ChainHash(mac, key, Payloads(rows)[..i + 1])
    && (v.ok == True <==> rows[i].rowHash == ChainHash(mac, key, Payloads(rows)[..i + 1])
                          && rows[i].prevHash == ChainHash(mac, key, Payloads(rows)[..i]))
    && (v.ok == Unknown <==> rows[i].rowHash == None && rows[i].prevHash == ChainHash(mac, key, Payloads(rows)[..i]))
  }

  ghost predicate AllCorrect(mac: Mac, key: Secret, rows: seq<Row>, vs: seq<Verdict>) {
    |vs| == |rows| && forall i | 0 <= i < |rows| :: Correct(mac, key, rows, i, vs[i])
  }

  // ---------- Backfill ----------

  datatype Stamp = Stamp(prev: Option<Digest>, hash: Option<Digest>)

  /** UPDATE ... SET prev_hash, row_hash, for every id that has a stamp. */
  function Restamp(rows: seq<Row>, stamps: map<nat, Stamp>): (r: seq<Row>)
    ensures |r| == |rows|
  {
    seq(|rows|, i requires 0 <= i < |rows| =>
      var id := rows[i].payload.id;
      if id in stamps then rows[i].(prevHash := stamps[id].prev, rowHash := stamps[id].hash) else rows[i])
  }

  /** The stamp of the i-th of these rows. */
  function StampFor(mac: Mac, key: Secret, rows: seq<Row>, i: nat): Stamp
    requires i < |rows|
  {
    Stamp(ChainHash(mac, key, Payloads(rows)[..i]), ChainHash(mac, key, Payloads(rows)[..i + 1]))
  }

  /** The stamps of rows visited in this order. */
  function Stamps(mac: Mac, key: Secret, rows: seq<Row>): map<nat, Stamp> {
    if rows == [] then map[]
    else
      var n := |rows| - 1;
      Stamps(mac, key, rows[..n])[rows[n].payload.id :=
        Stamp(ChainHash(mac, key, Payloads(rows)[..n]), ChainHash(mac, key, Payloads(rows)))]
  }

  function Backfilled(mac: Mac, key: Secret, rows: seq<Row>): seq<Row> {
    Restamp(rows, Stamps(mac, key, Order(rows)))
  }

  lemma {:induction false} RestampInsert(row: Row, rows: seq<Row>, stamps: map<nat, Stamp>)
    ensures Restamp(InsertRow(row, rows), stamps) == InsertRow(Restamp([row], stamps)[0], Restamp(rows, stamps))
  {
    var stamped := Restamp(rows, stamps);
    if rows == [] || Before(rows[|rows| - 1].payload, row.payload) {
      assert Restamp(rows + [row], stamps) == stamped + Restamp([row], stamps);
    } else {
      var n := |rows| - 1;
      RestampInsert(row, rows[..n], stamps);
      assert Restamp(rows[..n], stamps) == stamped[..n];
      assert Restamp(InsertRow(row, rows[..n]) + [rows[n]], stamps) == Restamp(InsertRow(row, rows[..n]), stamps) + [stamped[n]];
    }
  }

  /** Rewriting hash columns does not move rows in verification order. */
  lemma {:induction false} RestampKeepsOrder(rows: seq<Row>, stamps: map<nat, Stamp>)
    ensures Order(Restamp(rows, stamps)) == Restamp(Order(rows), stamps)
  {
    if rows == [] {
    } else {
      var n := |rows| - 1;
      RestampKeepsOrder(rows[..n], stamps);
      var stamped := Restamp(rows, stamps);
      assert stamped[..n] == Restamp(rows[..n], stamps);
      assert stamped[n] == Restamp([rows[n]], stamps)[0];
      assert Order(stamped) == InsertRow(stamped[n], Order(stamped[..n]));
      RestampInsert(rows[n], Order(rows[..n]), stamps);
    }
  }

  lemma StampForFirst(mac: Mac, key: Secret, rows: seq<Row>, n: nat, i: nat)
    requires i < n <= |rows|
    ensures StampFor(mac, key, rows[..n], i) == StampFor(mac, key, rows, i)
  {
    assert Payloads(rows[..n])[..i] == Payloads(rows)[..i];
    assert Payloads(rows[..n])[..i + 1] == Payloads(rows)[..i + 1];
  }

  lemma {:induction false} StampsAt(mac: Mac, key: Secret, rows: seq<Row>, i: nat)
    requires DistinctIds(rows) && i < |rows|
    ensures rows[i].payload.id in Stamps(mac, key, rows)
    ensures Stamps(mac, key, rows)[rows[i].payload.id] == StampFor(mac, key, rows, i)
  {
    var n := |rows| - 1;
    if i < n {
      StampsAt(mac, key, rows[..n], i);
      StampForFirst(mac, key, rows, n, i);
      assert rows[i].payload.id != rows[n].payload.id;
    } else {
      assert Payloads(rows)[..n + 1] == Payloads(rows);
    }
  }

  lemma RestampTwice(rows: seq<Row>, a: map<nat, Stamp>, id: nat, s: Stamp)
    ensures Restamp(Restamp(rows, a), map[id := s]) == Restamp(rows, a[id := s])
  {
  }

  lemma RestampKeepsIds(rows: seq<Row>, stamps: map<nat, Stamp>)
    requires DistinctIds(rows)
    ensures DistinctIds(Restamp(rows, stamps))
  {
    forall i | 0 <= i < |rows| ensures Restamp(rows, stamps)[i].payload == rows[i].payload {
    }
  }

  /** Stamping one more visited row. */
  lemma StampNext(mac: Mac, key: Secret, rows: seq<Row>, visited: seq<Row>, rec: Row)
    ensures var prev := ChainHash(mac, key, Payloads(visited));
            var computed := Some(mac(key, prev, rec.payload));
            ChainHash(mac, key, Payloads(visited + [rec])) == computed
            && Restamp(Restamp(rows, Stamps(mac, key, visited)), map[rec.payload.id := Stamp(prev, computed)])
               == Restamp(rows, Stamps(mac, key, visited + [rec]))
  {
    var all := visited + [rec];
    assert all[..|visited|] == visited;
    assert Payloads(all) == Payloads(visited) + [rec.payload];
    assert Payloads(all)[..|visited|] == Payloads(visited);
    ChainHashPush(mac, key, Payloads(visited), rec.payload);
    RestampTwice(rows, Stamps(mac, key, visited), rec.payload.id,
                 Stamp(ChainHash(mac, key, Payloads(visited)), ChainHash(mac, key, Payloads(all))));
  }

  /** Whatever the hash columns held before, a backfilled table is one linked chain in verification
      order, with every payload where it was. */
  lemma BackfillLinks(mac: Mac, key: Secret, rows: seq<Row>)
    requires DistinctIds(rows)
    ensures Linked(mac, key, Order(Backfilled(mac, key, rows)))
    ensures Payloads(Backfilled(mac, key, rows)) == Payloads(rows)
    ensures Payloads(Order(Backfilled(mac, key, rows))) == Payloads(Order(rows))
  {
    var ordered := Order(rows);
    var stamps := Stamps(mac, key, ordered);
    OrderSorts(rows);
    RestampKeepsOrder(rows, stamps);
    var after := Restamp(ordered, stamps);
    assert Payloads(after) == Payloads(ordered);
    forall i | 0 <= i < |after|
      ensures after[i].prevHash == ChainHash(mac, key, Payloads(after)[..i])
              && after[i].rowHash == ChainHash(mac, key, Payloads(after)[..i + 1])
    {
      StampsAt(mac, key, ordered, i);
    }
  }

  lemma LastStamped(mac: Mac, key: Secret, rows: seq<Row>, anchor: Anchor)
    requires anchor.latestHash == ChainHash(mac, key, Payloads(rows)) && anchor.count == |rows|
    requires anchor.latestId == if rows == [] then None else Some(rows[|rows| - 1].payload.id)
    ensures AnchorAgrees(mac, key, anchor, Payloads(rows))
  {
  }

  // ---------- The table ----------

  datatype Error = SecretNotSet | DuplicateId

  class AuditedTable {
    const mac: Mac
    var rows: seq<Row>
    var anchor: Anchor

    ghost predicate Valid()
      reads this
    {
      DistinctIds(rows)
    }

    constructor (mac: Mac)
      ensures Valid() && rows == [] && anchor == EMPTY_ANCHOR && this.mac == mac
    {
      this.mac := mac;
      rows, anchor := [], EMPTY_ANCHOR;
    }

    /** audit_chain_append, the BEFORE INSERT trigger, and the insert itself. */
    method Append(secret: Option<Secret>, payload: Payload) returns (error: Option<Error>)
      requires Valid()
      modifies this
      ensures Valid()
      ensures error == if secret == None then Some(SecretNotSet)
                       else if exists i | 0 <= i < |old(rows)| :: old(rows)[i].payload.id == payload.id then Some(DuplicateId)
                       else None
      ensures error.Some? ==> rows == old(rows) && anchor == old(anchor)
      ensures error.None? ==> rows == old(rows) + [Stamped(mac, secret.value, old(anchor), payload)]
                              && anchor == Advanced(mac, secret.value, old(anchor), payload)
    {
      if secret.None? {
        return Some(SecretNotSet);
      }
      if exists i | 0 <= i < |rows| :: rows[i].payload.id == payload.id {
        return Some(DuplicateId);
      }
      var prev := anchor.latestHash;
      var computed := mac(secret.value, prev, payload);
      anchor := Anchor(Some(payload.id), Some(computed), anchor.count + 1);
      rows := rows + [Row(payload, prev, Some(computed))];
      return None;
    }

    /** audit_chain_verify. */
    method Verify(secret: Option<Secret>) returns (r: Option<seq<Verdict>>)
      requires Valid()
      ensures secret == None <==> r == None
      ensures r.Some? ==> AllCorrect(mac, secret.value, Order(rows), r.value)
    {
      if secret.None? {
        return None;
      }
      var ordered := Order(rows);
      var prev: Option<Digest> := None;
      var verdicts: seq<Verdict> := [];
      for pos := 0 to |ordered|
        invariant prev == ChainHash(mac, secret.value, Payloads(ordered)[..pos])
        invariant |verdicts| == pos
        invariant forall i | 0 <= i < pos :: Correct(mac, secret.value, ordered, i, verdicts[i])
      {
        var rec := ordered[pos];
        var computed := mac(secret.value, prev, rec.payload);
        assert Payloads(ordered)[..pos + 1] == Payloads(ordered)[..pos] + [rec.payload];
        ChainHashPush(mac, secret.value, Payloads(ordered)[..pos], rec.payload);
        var ok := And(SameHash(computed, rec.rowHash), prev == rec.prevHash);
        verdicts := verdicts + [Verdict(rec.payload.id, pos + 1, ok, computed, rec.rowHash)];
        prev := Some(computed);
      }
      r := Some(verdicts);
    }

    /** audit_chain_backfill. */
    method Backfill(secret: Option<Secret>) returns (r: Option<nat>)
      requires Valid()
      modifies this
      ensures Valid()
      ensures secret == None ==> r == None && rows == old(rows) && anchor == old(anchor)
      ensures secret.Some? ==> r == Some(|old(rows)|) && rows == Backfilled(mac, secret.value, old(rows))
      ensures secret.Some? ==> AnchorAgrees(mac, secret.value, anchor, Payloads(Order(old(rows))))
    {
      if secret.None? {
        return None;
      }
      var count := BackfillWith(secret.value);
      r := Some(count);
    }

    /** The loop, with the secret at hand. */
    method BackfillWith(key: Secret) returns (count: nat)
      requires Valid()
      modifies this
      ensures Valid() && count == |old(rows)| && rows == Backfilled(mac, key, old(rows))
      ensures AnchorAgrees(mac, key, anchor, Payloads(Order(old(rows))))
    {
      var ordered := Order(rows);
      var prev: Option<Digest> := None;
      var lastId: Option<nat> := None;
      ghost var before := rows;
      BackfillStart(mac, key, before, ordered);
      count := 0;
      while count < |ordered|
        invariant count <= |ordered| && BackfilledUpTo(mac, key, before, rows, ordered, count, prev, lastId)
      {
        var rec := ordered[count];
        var computed := mac(key, prev, rec.payload);
        BackfillNext(mac, key, before, rows, ordered, count, prev, lastId);
        rows := Restamp(rows, map[rec.payload.id := Stamp(prev, Some(computed))]);
        prev := Some(computed);
        lastId := Some(rec.payload.id);
        count := count + 1;
      }
      anchor := Anchor(lastId, prev, count);
      BackfillEnd(mac, key, before, rows, ordered, prev, lastId);
    }
  }

  /** The backfill loop after the first `count` rows in verification order. */
  ghost predicate BackfilledUpTo(mac: Mac, key: Secret, before: seq<Row>, now: seq<Row>, ordered: seq<Row>, count: nat,
                                 prev: Option<Digest>, lastId: Option<nat>)
    requires count <= |ordered|
  {
    now == Restamp(before, Stamps(mac, key, ordered[..count]))
    && prev == ChainHash(mac, key, Payloads(ordered[..count]))
    && lastId == if count == 0 then None else Some(ordered[count - 1].payload.id)
  }

  lemma BackfillStart(mac: Mac, key: Secret, rows: seq<Row>, ordered: seq<Row>)
    ensures BackfilledUpTo(mac, key, rows, rows, ordered, 0, None, None)
  {
    assert Restamp(rows, map[]) == rows;
  }

  lemma BackfillNext(mac: Mac, key: Secret, before: seq<Row>, now: seq<Row>, ordered: seq<Row>, count: nat,
                     prev: Option<Digest>, lastId: Option<nat>)
    requires count < |ordered| && BackfilledUpTo(mac, key, before, now, ordered, count, prev, lastId)
    ensures var p := ordered[count].payload;
            var computed := Some(mac(key, prev, p));
            BackfilledUpTo(mac, key, before, Restamp(now, map[p.id := Stamp(prev, computed)]), ordered, count + 1,
                           computed, Some(p.id))
  {
    assert ordered[..count + 1] == ordered[..count] + [ordered[count]];
    StampNext(mac, key, before, ordered[..count], ordered[count]);
  }

  lemma BackfillEnd(mac: Mac, key: Secret, before: seq<Row>, now: seq<Row>, ordered: seq<Row>, prev: Option<Digest>,
                    lastId: Option<nat>)
    requires DistinctIds(before) && ordered == Order(before)
    requires BackfilledUpTo(mac, key, before, now, ordered, |ordered|, prev, lastId)
    ensures now == Backfilled(mac, key, before) && DistinctIds(now)
    ensures AnchorAgrees(mac, key, Anchor(lastId, prev, |ordered|), Payloads(ordered))
  {
    assert ordered[..|ordered|] == ordered;
    RestampKeepsIds(before, Stamps(mac, key, ordered));
    LastStamped(mac, key, ordered, Anchor(lastId, prev, |ordered|));
  }

  function Stamped(mac: Mac, key: Secret, anchor: Anchor, payload: Payload): Row {
    Row(payload, anchor.latestHash, Some(mac(key, anchor.latestHash, payload)))
  }

  function Advanced(mac: Mac, key: Secret, anchor: Anchor, payload: Payload): Anchor {
    Anchor(Some(payload.id), Some(mac(key, anchor.latestHash, payload)), anchor.count + 1)
  }

  /** The anchor points at the last of these payloads and counts them. */
  ghost predicate AnchorAgrees(mac: Mac, key: Secret, anchor: Anchor, ps: seq<Payload>) {
    anchor.latestHash == ChainHash(mac, key, ps) && anchor.count == |ps|
    && anchor.latestId == if ps == [] then None else Some(ps[|ps| - 1].id)
  }
}
