/** Renaming every key of a JSON value, and when a renaming can be undone or repeated. */
module JsonKeys {
  import K = KeyCase

  /** An object lists its entries in property order. */
  datatype Json = Atom(text: string) | Arr(items: seq<Json>) | Obj(entries: seq<Entry>)

  datatype Key = Key(name: string)

  datatype Entry = Entry(key: Key, value: Json)

  type Renaming = Key -> Key

  // ---------- Objects ----------

  function Keys(es: seq<Entry>): set<Key> {
    set e | e in es :: e.key
  }

  ghost predicate UniqueKeys(es: seq<Entry>) {
    forall i, j | 0 <= i < j < |es| :: es[i].key != es[j].key
  }

  /** Assigning a property: an existing one keeps its place and gets the new value. */
  function Put(es: seq<Entry>, e: Entry): seq<Entry> {
    if e.key in Keys(es) then seq(|es|, i requires 0 <= i < |es| => if es[i].key == e.key then e else es[i])
    else es + [e]
  }

  /** Object.fromEntries. */
  function FromEntries(es: seq<Entry>): seq<Entry> {
    if es == [] then [] else Put(FromEntries(es[..|es| - 1]), es[|es| - 1])
  }

  lemma KeysOfPush(es: seq<Entry>, e: Entry)
    ensures Keys(es + [e]) == Keys(es) + {e.key}
  {
    forall k ensures k in Keys(es + [e]) <==> k in Keys(es) + {e.key} {
      if k in Keys(es) {
        var d :| d in es && d.key == k;
        assert d in es + [e];
      }
      if k == e.key {
        assert e in es + [e];
      }
    }
  }

  lemma UniquePush(es: seq<Entry>, e: Entry)
    requires UniqueKeys(es)
    ensures UniqueKeys(es + [e]) <==> e.key !in Keys(es)
  {
    if e.key in Keys(es) {
      var d :| d in es && d.key == e.key;
      var i :| 0 <= i < |es| && es[i] == d;
      assert (es + [e])[i].key == (es + [e])[|es|].key;
    } else {
      forall i | 0 <= i < |es| ensures es[i].key != e.key {
        assert es[i] in es;
      }
    }
  }

  lemma PutKeys(es: seq<Entry>, e: Entry)
    requires UniqueKeys(es)
    ensures UniqueKeys(Put(es, e)) && Keys(Put(es, e)) == Keys(es) + {e.key}
    ensures |Put(es, e)| == if e.key in Keys(es) then |es| else |es| + 1
  {
    var r := Put(es, e);
    if e.key in Keys(es) {
      forall i | 0 <= i < |es| ensures r[i].key == es[i].key {
      }
      forall k ensures k in Keys(r) <==> k in Keys(es) {
        if k in Keys(es) {
          var i :| 0 <= i < |es| && es[i].key == k;
          assert r[i] in r;
        }
        if k in Keys(r) {
          var i :| 0 <= i < |r| && r[i].key == k;
          assert es[i] in es;
        }
      }
    } else {
      KeysOfPush(es, e);
      UniquePush(es, e);
    }
  }

  /** `built` has each key of the list once; it has as many entries as the list exactly when no key was
      repeated, and is then the list itself. */
  ghost predicate BuiltFrom(built: seq<Entry>, es: seq<Entry>) {
    UniqueKeys(built) && Keys(built) == Keys(es) && |built| <= |es|
    && (|built| == |es| <==> UniqueKeys(es))
    && (UniqueKeys(es) ==> built == es)
  }

  lemma UniquePushIff(es: seq<Entry>, e: Entry)
    ensures UniqueKeys(es + [e]) <==> UniqueKeys(es) && e.key !in Keys(es)
  {
    if UniqueKeys(es) {
      UniquePush(es, e);
    } else {
      var i, j :| 0 <= i < j < |es| && es[i].key == es[j].key;
      assert (es + [e])[i].key == (es + [e])[j].key;
    }
  }

  lemma PutBuildsOn(built: seq<Entry>, es: seq<Entry>, e: Entry)
    requires BuiltFrom(built, es)
    ensures BuiltFrom(Put(built, e), es + [e])
  {
    PutKeys(built, e);
    KeysOfPush(es, e);
    UniquePushIff(es, e);
  }

  lemma {:induction false} FromEntriesIsObject(es: seq<Entry>)
    ensures BuiltFrom(FromEntries(es), es)
  {
    if es == [] {
    } else {
      var n := |es| - 1;
      FromEntriesIsObject(es[..n]);
      PutBuildsOn(FromEntries(es[..n]), es[..n], es[n]);
      assert es == es[..n] + [es[n]];
    }
  }

  /** The entry's value is the one assigned to its key last. */
  ghost predicate LastAssigned(es: seq<Entry>, e: Entry) {
    exists k :: 0 <= k < |es| && es[k] == e && forall m | k < m < |es| :: es[m].key != e.key
  }

  /** Key `a` is assigned before key `b` ever is. */
  ghost predicate AssignedBefore(es: seq<Entry>, a: Key, b: Key) {
    exists p :: 0 <= p < |es| && es[p].key == a && forall m | 0 <= m <= p :: es[m].key != b
  }

  ghost predicate FirstPlaceLastValue(built: seq<Entry>, es: seq<Entry>) {
    (forall i | 0 <= i < |built| :: LastAssigned(es, built[i]))
    && forall i, j | 0 <= i < j < |built| :: AssignedBefore(es, built[i].key, built[j].key)
  }

  lemma LastAssignedNext(es: seq<Entry>, e: Entry, old_: Entry)
    requires LastAssigned(es, old_) && old_.key != e.key
    ensures LastAssigned(es + [e], old_)
  {
    var k :| 0 <= k < |es| && es[k] == old_ && forall m | k < m < |es| :: es[m].key != old_.key;
    assert (es + [e])[k] == old_;
  }

  lemma AssignedBeforeNext(es: seq<Entry>, e: Entry, a: Key, b: Key)
    requires AssignedBefore(es, a, b)
    ensures AssignedBefore(es + [e], a, b)
  {
    var p :| 0 <= p < |es| && es[p].key == a && forall m | 0 <= m <= p :: es[m].key != b;
    assert (es + [e])[p].key == a;
  }

  lemma AssignedBeforeNew(es: seq<Entry>, e: Entry, a: Key)
    requires a in Keys(es) && e.key !in Keys(es)
    ensures AssignedBefore(es + [e], a, e.key)
  {
    var d :| d in es && d.key == a;
    var p :| 0 <= p < |es| && es[p] == d;
    forall m | 0 <= m <= p ensures (es + [e])[m].key != e.key {
      assert es[m] in es;
    }
    assert (es + [e])[p].key == a;
  }

  lemma PutKeepsPlace(built: seq<Entry>, es: seq<Entry>, e: Entry)
    requires UniqueKeys(built) && Keys(built) == Keys(es) && FirstPlaceLastValue(built, es)
    ensures FirstPlaceLastValue(Put(built, e), es + [e])
  {
    var r, all := Put(built, e), es + [e];
    assert all[|es|] == e && LastAssigned(all, e);
    hide LastAssigned, AssignedBefore;
    forall i | 0 <= i < |r| ensures LastAssigned(all, r[i]) {
      if r[i] != e {
        assert i < |built| && r[i] == built[i] && built[i] in built;
        if e.key in Keys(built) {
          assert built[i].key != e.key;
        }
        LastAssignedNext(es, e, built[i]);
      }
    }
    forall i, j | 0 <= i < j < |r| ensures AssignedBefore(all, r[i].key, r[j].key) {
      assert i < |built| && r[i].key == built[i].key && built[i] in built;
      if j < |built| {
        AssignedBeforeNext(es, e, built[i].key, built[j].key);
      } else {
        AssignedBeforeNew(es, e, built[i].key);
      }
    }
  }

  /** As JavaScript builds an object: a key keeps the place of its first assignment and the value of its last. */
  lemma {:induction false} FromEntriesKeepsPlace(es: seq<Entry>)
    ensures FirstPlaceLastValue(FromEntries(es), es)
  {
    if es == [] {
    } else {
      var n := |es| - 1;
      FromEntriesKeepsPlace(es[..n]);
      FromEntriesIsObject(es[..n]);
      PutKeepsPlace(FromEntries(es[..n]), es[..n], es[n]);
      assert es == es[..n] + [es[n]];
    }
  }

  // ---------- Trees ----------

  /** What JSON.parse gives: no object repeats a key. */
  ghost predicate WellFormed(t: Json) {
    match t
    case Atom(_) => true
    case Arr(items) => forall i | 0 <= i < |items| :: WellFormed(items[i])
    case Obj(es) => UniqueKeys(es) && forall i | 0 <= i < |es| :: WellFormed(es[i].value)
  }

  ghost predicate AllKeys(t: Json, p: Key -> bool) {
    match t
    case Atom(_) => true
    case Arr(items) => forall i | 0 <= i < |items| :: AllKeys(items[i], p)
    case Obj(es) => forall i | 0 <= i < |es| :: p(es[i].key) && AllKeys(es[i].value, p)
  }

  /** camelizeKeys and snakeizeKeys, which differ only in the renaming of a key. */
  function Rename(f: Renaming, t: Json): Json
    decreases t
  {
    match t
    case Atom(_) => t
    case Arr(items) => Arr(seq(|items|, i requires 0 <= i < |items| => Rename(f, items[i])))
    case Obj(es) => Obj(FromEntries(seq(|es|, i requires 0 <= i < |es| => Entry(f(es[i].key), Rename(f, es[i].value)))))
  }

  function Renamed(f: Renaming, es: seq<Entry>): (r: seq<Entry>)
    ensures |r| == |es|
  {
    seq(|es|, i requires 0 <= i < |es| => Entry(f(es[i].key), Rename(f, es[i].value)))
  }

  lemma RenameObject(f: Renaming, es: seq<Entry>)
    ensures Rename(f, Obj(es)) == Obj(FromEntries(Renamed(f, es)))
  {
  }

  /** A renaming always yields a well-formed tree. */
  lemma {:induction false} RenameIsWellFormed(f: Renaming, t: Json)
    ensures WellFormed(Rename(f, t))
  {
    match t
    case Atom(_) =>
    case Arr(items) =>
      forall i | 0 <= i < |items| {
        RenameIsWellFormed(f, items[i]);
      }
    case Obj(es) =>
      var renamed := Renamed(f, es);
      RenameObject(f, es);
      FromEntriesIsObject(renamed);
      forall i | 0 <= i < |es| ensures WellFormed(renamed[i].value) {
        RenameIsWellFormed(f, es[i].value);
      }
      FromEntriesValues(renamed);
  }

  /** Every value of the object built was in the list. */
  lemma {:induction false} FromEntriesValues(es: seq<Entry>)
    ensures forall i | 0 <= i < |FromEntries(es)| :: FromEntries(es)[i] in es
  {
    if es == [] {
    } else {
      FromEntriesValues(es[..|es| - 1]);
    }
  }

  // ---------- Undoing a renaming ----------

  function ComesBack(f: Renaming, g: Renaming): Key -> bool {
    k => g(f(k)) == k
  }

  ghost predicate EntryComesBack(f: Renaming, g: Renaming, e: Entry) {
    g(f(e.key)) == e.key && Rename(g, Rename(f, e.value)) == e.value
  }

  lemma RenamedTwice(f: Renaming, g: Renaming, es: seq<Entry>)
    ensures Renamed(g, Renamed(f, es)) == es <==> forall i | 0 <= i < |es| :: EntryComesBack(f, g, es[i])
  {
    var back := Renamed(g, Renamed(f, es));
    forall i | 0 <= i < |es| ensures back[i] == es[i] <==> EntryComesBack(f, g, es[i]) {
      assert back[i] == Entry(g(f(es[i].key)), Rename(g, Rename(f, es[i].value)));
    }
    if forall i | 0 <= i < |es| :: EntryComesBack(f, g, es[i]) {
      assert back == es;
    }
  }

  lemma ComingBackIsInjective(f: Renaming, g: Renaming, es: seq<Entry>)
    requires UniqueKeys(es) && forall i | 0 <= i < |es| :: EntryComesBack(f, g, es[i])
    ensures UniqueKeys(Renamed(f, es))
  {
    var there := Renamed(f, es);
    forall i, j | 0 <= i < j < |es| ensures there[i].key != there[j].key {
      assert es[i].key != es[j].key;
      assert g(there[i].key) == es[i].key && g(there[j].key) == es[j].key;
    }
  }

  /** Renaming back and forth changes no entry list exactly when each key comes back and each value does. */
  lemma EntriesComeBackIff(f: Renaming, g: Renaming, es: seq<Entry>)
    requires UniqueKeys(es)
    ensures Rename(g, Rename(f, Obj(es))) == Obj(es) <==> forall i | 0 <= i < |es| :: EntryComesBack(f, g, es[i])
  {
    var there := FromEntries(Renamed(f, es));
    RenameObject(f, es);
    RenameObject(g, there);
    FromEntriesIsObject(Renamed(f, es));
    FromEntriesIsObject(Renamed(g, there));
    RenamedTwice(f, g, es);
    if forall i | 0 <= i < |es| :: EntryComesBack(f, g, es[i]) {
      ComingBackIsInjective(f, g, es);
    }
  }

  lemma ItemsComeBackIff(f: Renaming, g: Renaming, items: seq<Json>)
    ensures Rename(g, Rename(f, Arr(items))) == Arr(items) <==>
              forall i | 0 <= i < |items| :: Rename(g, Rename(f, items[i])) == items[i]
  {
    var back := Rename(g, Rename(f, Arr(items))).items;
    assert forall i | 0 <= i < |items| :: back[i] == Rename(g, Rename(f, items[i]));
    if forall i | 0 <= i < |items| :: back[i] == items[i] {
      assert back == items;
    }
  }

  /** Over every well-formed tree: renaming all keys by f and then by g gives the tree back if and only if
      every key in it comes back. */
  lemma {:induction false} RoundTripIff(f: Renaming, g: Renaming, t: Json)
    requires WellFormed(t)
    ensures Rename(g, Rename(f, t)) == t <==> AllKeys(t, ComesBack(f, g))
  {
    match t
    case Atom(_) =>
    case Arr(items) =>
      forall i | 0 <= i < |items| {
        RoundTripIff(f, g, items[i]);
      }
      ItemsComeBackIff(f, g, items);
    case Obj(es) =>
      EntriesComeBackIff(f, g, es);
      forall i | 0 <= i < |es| {
        RoundTripIff(f, g, es[i].value);
      }
  }

  // ---------- The two renamings ----------

  function Camel(k: Key): Key {
    Key(K.SnakeToCamel(k.name))
  }

  function Snake(k: Key): Key {
    Key(K.CamelToSnake(k.name))
  }

  function CamelizeKeys(t: Json): Json {
    Rename(Camel, t)
  }

  function SnakeizeKeys(t: Json): Json {
    Rename(Snake, t)
  }

  lemma {:induction false} AllKeysEquivalent(t: Json, p: Key -> bool, q: Key -> bool)
    requires forall k :: p(k) <==> q(k)
    ensures AllKeys(t, p) <==> AllKeys(t, q)
  {
    match t
    case Atom(_) =>
    case Arr(items) =>
      forall i | 0 <= i < |items| {
        AllKeysEquivalent(items[i], p, q);
      }
    case Obj(es) =>
      forall i | 0 <= i < |es| {
        AllKeysEquivalent(es[i].value, p, q);
      }
  }

  /** Neither an uppercase letter nor an underscore before a digit. */
  predicate PlainSnake(k: Key) {
    !K.HasUpper(k.name) && !K.HasUnderscoreDigit(k.name)
  }

  /** No underscore before a lowercase letter or a digit. */
  predicate PlainCamel(k: Key) {
    !K.HasSnakeStep(k.name)
  }

  /** No two underscores before a digit. */
  predicate SettlesAtOnce(k: Key) {
    !K.HasTwoUnderscoresDigit(k.name)
  }

  /** A response comes back from its camelCase form exactly when no key in it has an uppercase letter or an
      underscore before a digit. */
  lemma SnakeOfCamelIff(t: Json)
    requires WellFormed(t)
    ensures SnakeizeKeys(CamelizeKeys(t)) == t <==> AllKeys(t, PlainSnake)
  {
    RoundTripIff(Camel, Snake, t);
    forall k: Key ensures ComesBack(Camel, Snake)(k) <==> PlainSnake(k) {
      K.SnakeRoundTripIff(k.name);
      assert ComesBack(Camel, Snake)(k) <==> Snake(Camel(k)) == k;
    }
    AllKeysEquivalent(t, ComesBack(Camel, Snake), PlainSnake);
  }

  /** A request body comes back from its snake_case form exactly when no underscore in a key precedes a
      lowercase letter or a digit. */
  lemma CamelOfSnakeIff(t: Json)
    requires WellFormed(t)
    ensures CamelizeKeys(SnakeizeKeys(t)) == t <==> AllKeys(t, PlainCamel)
  {
    RoundTripIff(Snake, Camel, t);
    forall k: Key ensures ComesBack(Snake, Camel)(k) <==> PlainCamel(k) {
      K.CamelRoundTripIff(k.name);
      assert ComesBack(Snake, Camel)(k) <==> Camel(Snake(k)) == k;
    }
    AllKeysEquivalent(t, ComesBack(Snake, Camel), PlainCamel);
  }

  // ---------- Renaming twice ----------

  function Same(k: Key): Key {
    k
  }

  lemma {:induction false} SameRenamesNothing(t: Json)
    requires WellFormed(t)
    ensures Rename(Same, t) == t
  {
    match t
    case Atom(_) =>
    case Arr(items) =>
      forall i | 0 <= i < |items| {
        SameRenamesNothing(items[i]);
      }
      assert Rename(Same, t).items == items;
    case Obj(es) =>
      forall i | 0 <= i < |es| {
        SameRenamesNothing(es[i].value);
      }
      RenameObject(Same, es);
      var renamed := Renamed(Same, es);
      forall i | 0 <= i < |es| ensures renamed[i] == es[i] {
        assert renamed[i] == Entry(Same(es[i].key), Rename(Same, es[i].value));
      }
      assert renamed == es;
      FromEntriesIsObject(es);
  }

  /** A response that is camelized by the backend-for-frontend and again by the browser arrives as if
      camelized once exactly when no key of the first result is renamed by the second. */
  lemma CamelizeTwiceIff(t: Json)
    ensures CamelizeKeys(CamelizeKeys(t)) == CamelizeKeys(t) <==> AllKeys(CamelizeKeys(t), PlainCamel)
  {
    var once := CamelizeKeys(t);
    RenameIsWellFormed(Camel, t);
    RenameIsWellFormed(Camel, once);
    SameRenamesNothing(CamelizeKeys(once));
    RoundTripIff(Camel, Same, once);
    forall k: Key ensures ComesBack(Camel, Same)(k) <==> PlainCamel(k) {
      K.CamelOnce(k.name);
      assert ComesBack(Camel, Same)(k) <==> Camel(k) == k;
    }
    AllKeysEquivalent(once, ComesBack(Camel, Same), PlainCamel);
  }

  /** No object has two keys that are renamed alike. */
  ghost predicate NoClash(f: Renaming, t: Json) {
    match t
    case Atom(_) => true
    case Arr(items) => forall i | 0 <= i < |items| :: NoClash(f, items[i])
    case Obj(es) => UniqueKeys(Renamed(f, es)) && forall i | 0 <= i < |es| :: NoClash(f, es[i].value)
  }

  /** The keys of a renamed tree are the renamed keys of the tree, less those below a value that a key
      renamed alike displaced. */
  lemma {:induction false} KeysOfRenamed(f: Renaming, t: Json, p: Key -> bool, q: Key -> bool)
    requires forall k :: q(k) <==> p(f(k))
    ensures AllKeys(t, q) ==> AllKeys(Rename(f, t), p)
    ensures NoClash(f, t) && AllKeys(Rename(f, t), p) ==> AllKeys(t, q)
  {
    match t
    case Atom(_) =>
    case Arr(items) =>
      forall i | 0 <= i < |items| {
        KeysOfRenamed(f, items[i], p, q);
      }
      var renamed := Rename(f, t).items;
      assert forall i | 0 <= i < |items| :: renamed[i] == Rename(f, items[i]);
    case Obj(es) =>
      forall i | 0 <= i < |es| {
        KeysOfRenamed(f, es[i].value, p, q);
      }
      KeysOfRenamedEntries(f, es, p, q);
      RenameObject(f, es);
  }

  ghost predicate EntryKeys(e: Entry, p: Key -> bool) {
    p(e.key) && AllKeys(e.value, p)
  }

  /** What holds of every entry given holds of every entry of the object built, and conversely when none
      was displaced. */
  lemma EntryKeysOfObject(es: seq<Entry>, p: Key -> bool)
    ensures (forall i | 0 <= i < |es| :: EntryKeys(es[i], p)) ==> AllKeys(Obj(FromEntries(es)), p)
    ensures UniqueKeys(es) && AllKeys(Obj(FromEntries(es)), p) ==> forall i | 0 <= i < |es| :: EntryKeys(es[i], p)
  {
    FromEntriesIsObject(es);
    if forall i | 0 <= i < |es| :: EntryKeys(es[i], p) {
      EntryKeysSurvive(es, FromEntries(es), p);
    }
    if UniqueKeys(es) && AllKeys(Obj(es), p) {
      forall i | 0 <= i < |es| ensures EntryKeys(es[i], p) {
      }
    }
  }

  lemma EntryKeysSurvive(es: seq<Entry>, built: seq<Entry>, p: Key -> bool)
    requires built == FromEntries(es) && forall i | 0 <= i < |es| :: EntryKeys(es[i], p)
    ensures AllKeys(Obj(built), p)
  {
    FromEntriesValues(es);
    forall i | 0 <= i < |built| ensures EntryKeys(built[i], p) {
      assert built[i] in es;
    }
  }

  lemma KeysOfRenamedEntries(f: Renaming, es: seq<Entry>, p: Key -> bool, q: Key -> bool)
    requires forall k :: q(k) <==> p(f(k))
    requires forall i | 0 <= i < |es| :: AllKeys(es[i].value, q) ==> AllKeys(Rename(f, es[i].value), p)
    requires forall i | 0 <= i < |es| :: NoClash(f, es[i].value) && AllKeys(Rename(f, es[i].value), p) ==> AllKeys(es[i].value, q)
    ensures AllKeys(Obj(es), q) ==> AllKeys(Obj(FromEntries(Renamed(f, es))), p)
    ensures NoClash(f, Obj(es)) && AllKeys(Obj(FromEntries(Renamed(f, es))), p) ==> AllKeys(Obj(es), q)
  {
    var renamed := Renamed(f, es);
    EntryKeysOfObject(renamed, p);
    forall i | 0 <= i < |es|
      ensures renamed[i] == Entry(f(es[i].key), Rename(f, es[i].value))
      ensures EntryKeys(es[i], q) ==> EntryKeys(renamed[i], p)
      ensures NoClash(f, es[i].value) && EntryKeys(renamed[i], p) ==> EntryKeys(es[i], q)
    {
    }
  }

  /** In terms of the response itself: twice is once when no key has a digit after two underscores, and
      only then unless two keys of one object clash. */
  lemma CamelizeTwiceByKeys(t: Json)
    ensures AllKeys(t, SettlesAtOnce) ==> CamelizeKeys(CamelizeKeys(t)) == CamelizeKeys(t)
    ensures NoClash(Camel, t) ==>
              (CamelizeKeys(CamelizeKeys(t)) == CamelizeKeys(t) <==> AllKeys(t, SettlesAtOnce))
  {
    CamelizeTwiceIff(t);
    forall k: Key ensures SettlesAtOnce(k) <==> PlainCamel(Camel(k)) {
      K.StepsLeft(k.name);
    }
    KeysOfRenamed(Camel, t, PlainCamel, SettlesAtOnce);
  }
}
