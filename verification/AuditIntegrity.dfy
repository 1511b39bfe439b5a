/** What the verifier's verdicts prove about the rows, for every table and every tampering. */
module AuditIntegrity {
  import opened Optional
  import opened AuditChain

  ghost predicate AllTrue(vs: seq<Verdict>) {
    forall i | 0 <= i < |vs| :: vs[i].ok == True
  }

  /** A row whose hash columns are those of the m-th row of a genuine chain verifies at position k
      if and only if the payloads up to it are exactly the genuine ones up to m: no edit, insertion,
      removal or reordering before it goes unnoticed. */
  lemma GenuineRowVerifiesIff(mac: Mac, key: Secret, original: seq<Payload>, m: nat, rows: seq<Row>, k: nat, v: Verdict)
    requires Injective(mac) && m < |original| && k < |rows|
    requires rows[k].prevHash == ChainHash(mac, key, original[..m])
             && rows[k].rowHash == ChainHash(mac, key, original[..m + 1])
    requires Correct(mac, key, rows, k, v)
    ensures v.ok == True <==> Payloads(rows)[..k + 1] == original[..m + 1]
    ensures v.ok != Unknown
  {
    var here := Payloads(rows)[..k + 1];
    if rows[k].rowHash == ChainHash(mac, key, here) {
      ChainHashIsInjective(mac, key, here, original[..m + 1]);
    }
    if here == original[..m + 1] {
      assert k == m;
      assert Payloads(rows)[..k] == here[..k] == original[..m];
    }
  }

  /** The chain hash of n payloads differs from that of any other number of payloads. */
  lemma LongerChainsDiffer(mac: Mac, key: Secret, a: seq<Payload>, b: seq<Payload>)
    requires Injective(mac) && |a| != |b|
    ensures ChainHash(mac, key, a) != ChainHash(mac, key, b)
  {
    if ChainHash(mac, key, a) == ChainHash(mac, key, b) {
      ChainHashIsInjective(mac, key, a, b);
    }
  }

  lemma GenuineLastRow(mac: Mac, key: Secret, ordered: seq<Row>, v: Verdict, appended: seq<Payload>)
    requires Injective(mac) && ordered != []
    requires Correct(mac, key, ordered, |ordered| - 1, v) && v.ok == True
    requires ordered[|ordered| - 1].rowHash == ChainHash(mac, key, appended)
    ensures Payloads(ordered) == appended
  {
    assert Payloads(ordered)[..|ordered|] == Payloads(ordered);
    ChainHashIsInjective(mac, key, Payloads(ordered), appended);
  }

  lemma VerifiedRowsAreGenuine(mac: Mac, key: Secret, ordered: seq<Row>, vs: seq<Verdict>, appended: seq<Payload>,
                               anchor: Anchor)
    requires Injective(mac) && AnchorAgrees(mac, key, anchor, appended)
    requires AllCorrect(mac, key, ordered, vs)
    requires ordered != [] ==> vs[|vs| - 1].ok == True
    requires anchor.latestHash == if ordered == [] then None else ordered[|ordered| - 1].rowHash
    ensures Payloads(ordered) == appended && |ordered| == anchor.count
  {
    if ordered == [] {
      assert appended == [];
    } else {
      GenuineLastRow(mac, key, ordered, vs[|vs| - 1], appended);
    }
  }

  /** If the last row verifies and its hash is the one a genuine run's anchor holds, the stored
      payloads are exactly the appended ones, in order; the row count need not be compared. */
  lemma VerifiedTableIsTheGenuineOne(mac: Mac, key: Secret, rows: seq<Row>, vs: seq<Verdict>, appended: seq<Payload>,
                                     anchor: Anchor)
    requires Injective(mac) && AnchorAgrees(mac, key, anchor, appended)
    requires AllCorrect(mac, key, Order(rows), vs)
    requires rows != [] ==> vs[|vs| - 1].ok == True
    requires anchor.latestHash == if rows == [] then None else Order(rows)[|rows| - 1].rowHash
    ensures Payloads(Order(rows)) == appended && |rows| == anchor.count
  {
    hide *;
    VerifiedRowsAreGenuine(mac, key, Order(rows), vs, appended, anchor);
  }

  lemma EditedRowVerdict(mac: Mac, key: Secret, rows: seq<Row>, i: nat, p: Payload, k: nat, v: Verdict)
    requires Injective(mac) && Linked(mac, key, rows) && i < |rows| && p != rows[i].payload && k < |rows|
    requires Correct(mac, key, rows[i := rows[i].(payload := p)], k, v)
    ensures v.ok == if k < i then True else False
  {
    var edited := rows[i := rows[i].(payload := p)];
    GenuineRowVerifiesIff(mac, key, Payloads(rows), k, edited, k, v);
    if k < i {
      assert Payloads(edited)[..k + 1] == Payloads(rows)[..k + 1];
    } else {
      assert Payloads(edited)[..k + 1][i] == p;
      assert Payloads(rows)[..k + 1][i] == rows[i].payload;
    }
  }

  /** Changing the payload of row i, without moving it in the order and with all hash columns left as
      they were, leaves every earlier row ok and makes row i and every later row fail. */
  lemma EditFailsFromThere(mac: Mac, key: Secret, rows: seq<Row>, i: nat, p: Payload, vs: seq<Verdict>, k: nat)
    requires Injective(mac) && Linked(mac, key, rows) && i < |rows| && p != rows[i].payload
    requires var edited := rows[i := rows[i].(payload := p)];
             Ascending(edited) && AllCorrect(mac, key, Order(edited), vs)
    requires k < |vs|
    ensures vs[k].ok == if k < i then True else False
  {
    hide Order, Linked, Correct, Injective, Ascending;
    OrderOfAscending(rows[i := rows[i].(payload := p)]);
    EditedRowVerdict(mac, key, rows, i, p, k, vs[k]);
  }

  lemma RehashedRow(mac: Mac, key: Secret, rows: seq<Row>, edited: seq<Row>, k: nat, v: Verdict)
    requires Linked(mac, key, rows) && k < |rows| == |edited| && Payloads(edited) == Payloads(rows)
    requires edited[k].prevHash == rows[k].prevHash && Correct(mac, key, edited, k, v)
    ensures v.ok == True <==> edited[k].rowHash == rows[k].rowHash
    ensures v.ok == Unknown <==> edited[k].rowHash == None
  {
  }

  /** Overwriting only the stored hash of row i fails row i alone. */
  lemma HashEditFailsOnlyThere(mac: Mac, key: Secret, rows: seq<Row>, i: nat, h: Option<Digest>, vs: seq<Verdict>,
                               k: nat)
    requires Linked(mac, key, rows) && Ascending(rows) && i < |rows| && h != rows[i].rowHash
    requires AllCorrect(mac, key, Order(rows[i := rows[i].(rowHash := h)]), vs)
    requires k < |vs|
    ensures vs[k].ok == True <==> k != i
    ensures vs[k].ok == Unknown <==> k == i && h == None
  {
    var edited := rows[i := rows[i].(rowHash := h)];
    assert Payloads(edited) == Payloads(rows);
    OrderOfAscending(edited);
    RehashedRow(mac, key, rows, edited, k, vs[k]);
    assert rows[k].rowHash == ChainHash(mac, key, Payloads(rows)[..k + 1]);
  }

  lemma ShiftedRowFails(mac: Mac, key: Secret, original: seq<Payload>, m: nat, rows: seq<Row>, k: nat, v: Verdict)
    requires Injective(mac) && m < |original| && k < |rows| && k != m
    requires rows[k].prevHash == ChainHash(mac, key, original[..m])
             && rows[k].rowHash == ChainHash(mac, key, original[..m + 1])
    requires Correct(mac, key, rows, k, v)
    ensures v.ok == False
  {
    GenuineRowVerifiesIff(mac, key, original, m, rows, k, v);
    assert |Payloads(rows)[..k + 1]| != |original[..m + 1]|;
  }

  lemma PayloadsOfPrefix(a: seq<Row>, b: seq<Row>, n: nat)
    requires n <= |a| && n <= |b| && forall j | 0 <= j < n :: a[j] == b[j]
    ensures Payloads(a)[..n] == Payloads(b)[..n]
  {
  }

  lemma RemovedRowVerdict(mac: Mac, key: Secret, rows: seq<Row>, i: nat, rest: seq<Row>, k: nat, v: Verdict)
    requires Injective(mac) && Linked(mac, key, rows) && i < |rows| && rest == rows[..i] + rows[i + 1..]
    requires k < |rest| && Correct(mac, key, rest, k, v)
    ensures v.ok == if k < i then True else False
  {
    if k < i {
      PayloadsOfPrefix(rest, rows, k + 1);
      GenuineRowVerifiesIff(mac, key, Payloads(rows), k, rest, k, v);
    } else {
      ShiftedRowFails(mac, key, Payloads(rows), k + 1, rest, k, v);
    }
  }

  lemma RemovalAscends(rows: seq<Row>, i: nat)
    requires Ascending(rows) && i < |rows|
    ensures Ascending(rows[..i] + rows[i + 1..])
  {
  }

  /** Removing row i fails every row after it. */
  lemma RemovalFailsFromThere(mac: Mac, key: Secret, rows: seq<Row>, i: nat, vs: seq<Verdict>, k: nat)
    requires Injective(mac) && Linked(mac, key, rows) && Ascending(rows) && i < |rows|
    requires AllCorrect(mac, key, Order(rows[..i] + rows[i + 1..]), vs)
    requires k < |vs|
    ensures vs[k].ok == if k < i then True else False
  {
    var rest := rows[..i] + rows[i + 1..];
    RemovalAscends(rows, i);
    OrderOfAscending(rest);
    RemovedRowVerdict(mac, key, rows, i, rest, k, vs[k]);
  }

  /** Rows linked in verification order all verify. */
  lemma LinkedVerifies(mac: Mac, key: Secret, ordered: seq<Row>, vs: seq<Verdict>)
    requires Linked(mac, key, ordered) && AllCorrect(mac, key, ordered, vs)
    ensures AllTrue(vs)
  {
    forall i | 0 <= i < |vs| ensures vs[i].ok == True {
      assert Correct(mac, key, ordered, i, vs[i]);
    }
  }

  lemma SamePayloadsAscend(a: seq<Row>, b: seq<Row>)
    requires Ascending(a) && Payloads(a) == Payloads(b)
    ensures Ascending(b)
  {
    forall i | 0 <= i < |b| ensures b[i].payload == a[i].payload {
      assert Payloads(a)[i] == Payloads(b)[i];
    }
  }

  /** If the row verified last is the m-th of a linked chain of as many rows and is ok, it is the
      chain's last row and everything before it is in chain order. */
  lemma VerifiedLastRowFixesOrder(mac: Mac, key: Secret, rows: seq<Row>, ordered: seq<Row>, m: nat, v: Verdict)
    requires Injective(mac) && Linked(mac, key, rows) && m < |rows| == |ordered|
    requires ordered[|rows| - 1] == rows[m] && Correct(mac, key, ordered, |rows| - 1, v) && v.ok == True
    ensures Payloads(ordered) == Payloads(rows)
  {
    GenuineRowVerifiesIff(mac, key, Payloads(rows), m, ordered, |rows| - 1, v);
    assert |Payloads(ordered)[..|rows|]| == |rows| && |Payloads(rows)[..m + 1]| == m + 1;
    assert Payloads(ordered)[..|rows|] == Payloads(ordered);
    assert Payloads(rows)[..m + 1] == Payloads(rows);
  }

  /** The verifier reads in key order, not in append order: an untouched chain verifies if and only if
      every row was appended with a key beyond the keys before it. */
  lemma UntouchedChainVerifiesIff(mac: Mac, key: Secret, rows: seq<Row>, vs: seq<Verdict>)
    requires Injective(mac) && Linked(mac, key, rows) && DistinctIds(rows)
    requires AllCorrect(mac, key, Order(rows), vs)
    ensures AllTrue(vs) <==> Ascending(rows)
  {
    if Ascending(rows) {
      OrderOfAscending(rows);
      LinkedVerifies(mac, key, rows, vs);
    }
    if AllTrue(vs) && rows != [] {
      OrderSorts(rows);
      LastVerifiedIsARow(rows, Order(rows));
      var m :| 0 <= m < |rows| && rows[m] == Order(rows)[|rows| - 1];
      VerifiedLastRowFixesOrder(mac, key, rows, Order(rows), m, vs[|rows| - 1]);
      SamePayloadsAscend(Order(rows), rows);
    }
  }

  lemma LastVerifiedIsARow(rows: seq<Row>, ordered: seq<Row>)
    requires multiset(ordered) == multiset(rows) && rows != [] && |ordered| == |rows|
    ensures exists m | 0 <= m < |rows| :: rows[m] == ordered[|rows| - 1]
  {
    assert ordered[|rows| - 1] in multiset(rows);
  }

  // ---------- Backfill and append ----------

  datatype Table = Table(rows: seq<Row>, anchor: Anchor)

  /** The trigger's effect for one insert. */
  function AppendOne(mac: Mac, key: Secret, t: Table, p: Payload): Table {
    Table(t.rows + [Stamped(mac, key, t.anchor, p)], Advanced(mac, key, t.anchor, p))
  }

  /** The trigger's effect for a sequence of inserts. */
  function AppendAll(mac: Mac, key: Secret, t: Table, news: seq<Payload>): Table {
    if news == [] then t
    else AppendOne(mac, key, AppendAll(mac, key, t, news[..|news| - 1]), news[|news| - 1])
  }

  /** The new rows have fresh ids and keys that increase beyond every key before them. */
  ghost predicate KeysIncrease(rows: seq<Row>, news: seq<Payload>) {
    (forall i, j | 0 <= i < |rows| && 0 <= j < |news| :: Before(rows[i].payload, news[j]) && rows[i].payload.id != news[j].id)
    && forall i, j | 0 <= i < j < |news| :: Before(news[i], news[j]) && news[i].id != news[j].id
  }

  lemma LinkedPush(mac: Mac, key: Secret, rows: seq<Row>, anchor: Anchor, p: Payload)
    requires Linked(mac, key, rows) && AnchorAgrees(mac, key, anchor, Payloads(rows))
    ensures Linked(mac, key, rows + [Stamped(mac, key, anchor, p)])
    ensures Payloads(rows + [Stamped(mac, key, anchor, p)]) == Payloads(rows) + [p]
    ensures AnchorAgrees(mac, key, Advanced(mac, key, anchor, p), Payloads(rows) + [p])
  {
    var after := rows + [Stamped(mac, key, anchor, p)];
    assert Payloads(after) == Payloads(rows) + [p];
    ChainHashPush(mac, key, Payloads(rows), p);
    forall i | 0 <= i < |after|
      ensures after[i].prevHash == ChainHash(mac, key, Payloads(after)[..i])
              && after[i].rowHash == ChainHash(mac, key, Payloads(after)[..i + 1])
    {
      if i < |rows| {
        assert after[i] == rows[i];
        assert Payloads(after)[..i] == Payloads(rows)[..i] && Payloads(after)[..i + 1] == Payloads(rows)[..i + 1];
      } else {
        assert Payloads(after)[..i] == Payloads(rows) && Payloads(after)[..i + 1] == Payloads(after);
      }
    }
  }

  /** A table that verifies, with its anchor on the row verified last. */
  ghost predicate Sound(mac: Mac, key: Secret, t: Table, ordered: seq<Payload>) {
    DistinctIds(t.rows) && Linked(mac, key, Order(t.rows)) && Payloads(Order(t.rows)) == ordered
    && AnchorAgrees(mac, key, t.anchor, ordered)
  }

  lemma AppendOneKeepsTheChain(mac: Mac, key: Secret, t: Table, ordered: seq<Payload>, p: Payload)
    requires Sound(mac, key, t, ordered)
    requires forall i | 0 <= i < |t.rows| :: Before(t.rows[i].payload, p) && t.rows[i].payload.id != p.id
    ensures Sound(mac, key, AppendOne(mac, key, t, p), ordered + [p])
  {
    OrderPush(t.rows, Stamped(mac, key, t.anchor, p));
    LinkedPush(mac, key, Order(t.rows), t.anchor, p);
  }

  lemma NextKeyIsBeyond(rows: seq<Row>, before: seq<Row>, news: seq<Payload>, n: nat)
    requires n < |news| && KeysIncrease(rows, news) && Payloads(before) == Payloads(rows) + news[..n]
    ensures forall i | 0 <= i < |before| :: Before(before[i].payload, news[n]) && before[i].payload.id != news[n].id
  {
    forall i | 0 <= i < |before|
      ensures Before(before[i].payload, news[n]) && before[i].payload.id != news[n].id
    {
      assert before[i].payload == (Payloads(rows) + news[..n])[i];
    }
  }

  lemma FewerKeysIncrease(rows: seq<Row>, news: seq<Payload>, n: nat)
    requires n <= |news| && KeysIncrease(rows, news)
    ensures KeysIncrease(rows, news[..n])
  {
  }

  lemma {:induction false} AppendedPayloads(mac: Mac, key: Secret, t: Table, news: seq<Payload>)
    ensures Payloads(AppendAll(mac, key, t, news).rows) == Payloads(t.rows) + news
  {
    if news == [] {
    } else {
      var n := |news| - 1;
      AppendedPayloads(mac, key, t, news[..n]);
      var before := AppendAll(mac, key, t, news[..n]);
      assert Payloads(AppendOne(mac, key, before, news[n]).rows) == Payloads(before.rows) + [news[n]];
    }
  }

  lemma OneMoreKeepsTheChain(mac: Mac, key: Secret, rows: seq<Row>, before: Table, ordered: seq<Payload>,
                             news: seq<Payload>, n: nat)
    requires n < |news| && KeysIncrease(rows, news) && Payloads(before.rows) == Payloads(rows) + news[..n]
    requires Sound(mac, key, before, ordered + news[..n])
    ensures Sound(mac, key, AppendOne(mac, key, before, news[n]), ordered + news[..n + 1])
  {
    NextKeyIsBeyond(rows, before.rows, news, n);
    assert ordered + news[..n + 1] == ordered + news[..n] + [news[n]];
    AppendOneKeepsTheChain(mac, key, before, ordered + news[..n], news[n]);
  }

  lemma {:induction false} AppendsKeepTheChain(mac: Mac, key: Secret, t: Table, ordered: seq<Payload>,
                                               news: seq<Payload>)
    requires Sound(mac, key, t, ordered) && KeysIncrease(t.rows, news)
    ensures Sound(mac, key, AppendAll(mac, key, t, news), ordered + news)
    decreases |news|
  {
    if news == [] {
      assert ordered + news == ordered;
    } else {
      var n := |news| - 1;
      AppendedPayloads(mac, key, t, news[..n]);
      FewerKeysIncrease(t.rows, news, n);
      AppendsKeepTheChain(mac, key, t, ordered, news[..n]);
      OneMoreKeepsTheChain(mac, key, t.rows, AppendAll(mac, key, t, news[..n]), ordered, news, n);
      assert news[..n + 1] == news;
    }
  }

  /** Backfilling any table, whatever its hash columns held, and then appending rows whose keys
      increase makes every row verify, with the anchor on the last row and counting them all. */
  lemma BackfillThenAppendVerifies(mac: Mac, key: Secret, rows: seq<Row>, anchor: Anchor, news: seq<Payload>,
                                   vs: seq<Verdict>)
    requires DistinctIds(rows) && KeysIncrease(rows, news)
    requires AnchorAgrees(mac, key, anchor, Payloads(Order(rows)))
    requires AllCorrect(mac, key, Order(AppendAll(mac, key, Table(Backfilled(mac, key, rows), anchor), news).rows), vs)
    ensures AllTrue(vs) && |vs| == |rows| + |news|
    ensures AnchorAgrees(mac, key, AppendAll(mac, key, Table(Backfilled(mac, key, rows), anchor), news).anchor,
                         Payloads(Order(rows)) + news)
  {
    var t := Table(Backfilled(mac, key, rows), anchor);
    BackfillLinks(mac, key, rows);
    SamePayloadsSameKeys(rows, t.rows, news);
    AppendsKeepTheChain(mac, key, t, Payloads(Order(rows)), news);
    LinkedVerifies(mac, key, Order(AppendAll(mac, key, t, news).rows), vs);
  }

  /** Rows appended to an empty table by ascending time, and at one time by ascending id, all verify. */
  lemma AppendedInOrderVerifies(mac: Mac, key: Secret, news: seq<Payload>, vs: seq<Verdict>)
    requires forall i, j | 0 <= i < j < |news| ::
               news[i].id != news[j].id && news[i].time <= news[j].time
               && (news[i].time == news[j].time ==> news[i].id < news[j].id)
    requires AllCorrect(mac, key, Order(AppendAll(mac, key, Table([], EMPTY_ANCHOR), news).rows), vs)
    ensures AllTrue(vs) && |vs| == |news|
  {
    var empty := Table([], EMPTY_ANCHOR);
    assert Payloads(Order(empty.rows)) == [];
    AppendsKeepTheChain(mac, key, empty, [], news);
    AppendedPayloads(mac, key, empty, news);
    LinkedVerifies(mac, key, Order(AppendAll(mac, key, empty, news).rows), vs);
  }

  /** Two rows of one timestamp, in the order of their ids. */
  lemma TiedRowsVerify(mac: Mac, key: Secret, vs: seq<Verdict>)
    requires AllCorrect(mac, key, Order(AppendAll(mac, key, Table([], EMPTY_ANCHOR),
                                                  [Payload(1, 7, "a"), Payload(2, 7, "b")]).rows), vs)
    ensures AllTrue(vs) && |vs| == 2
  {
    AppendedInOrderVerifies(mac, key, [Payload(1, 7, "a"), Payload(2, 7, "b")], vs);
  }

  lemma SamePayloadsSameKeys(a: seq<Row>, b: seq<Row>, news: seq<Payload>)
    requires Payloads(a) == Payloads(b) && DistinctIds(a) && KeysIncrease(a, news)
    ensures DistinctIds(b) && KeysIncrease(b, news)
  {
    forall i | 0 <= i < |b| ensures b[i].payload == a[i].payload {
      assert Payloads(a)[i] == Payloads(b)[i];
    }
  }
}
