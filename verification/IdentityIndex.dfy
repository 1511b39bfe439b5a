/**
 The rows of the event identity index and the three writes that grow them: the upsert of an
 ingestion, the enrichment through a merged event's alias, and the union a merge makes.
 */
module IdentityIndex {
  import opened Optional
  import opened AliasCap

  /** EventIdentityIndex: five scalars, the source records seen, and the registration aliases. */
  datatype Entry = Entry(
    date: Option<string>, registration: Option<Alias>, operator: Option<string>,
    location: Option<string>, aircraft: Option<string>,
    sourceRecords: set<string>, aliases: seq<Alias>)

  function Coalesce<T>(first: Option<T>, second: Option<T>): Option<T> {
    if first.Some? then first else second
  }

  function AsList(registration: Option<Alias>): seq<Alias> {
    match registration
    case None => []
    case Some(r) => [r]
  }

  /** An entry as the entity's validator lets it be built. */
  function Validated(e: Entry): Entry {
    e.(aliases := Cap(e.aliases))
  }

  /** Scalars of one row, with those of another filling its gaps. */
  function Filled(first: Entry, second: Entry, aliases: seq<Alias>): Entry {
    Entry(Coalesce(first.date, second.date), Coalesce(first.registration, second.registration),
          Coalesce(first.operator, second.operator), Coalesce(first.location, second.location),
          Coalesce(first.aircraft, second.aircraft), first.sourceRecords + second.sourceRecords, aliases)
  }

  /** upsert: an incoming scalar wins when it is there. */
  function Upserted(row: Option<Entry>, e: Entry): Entry {
    match row
    case None => e
    case Some(r) => Filled(e, r, Cap(r.aliases + e.aliases))
  }

  /** enrich_identity_index_from_alias: a stored scalar wins, and the incoming registration becomes an
      alias of its own. */
  function Enriched(row: Option<Entry>, e: Entry): Entry {
    match row
    case None => e
    case Some(r) => Filled(r, e, Cap(r.aliases + e.aliases + AsList(e.registration)))
  }

  /** merge_identity_index: the target's scalars win; a missing source row changes nothing. */
  function Unioned(row: Option<Entry>, source: Option<Entry>): Option<Entry> {
    match source
    case None => row
    case Some(src) =>
      var excluded := src.(aliases := Cap(src.aliases + AsList(src.registration)));
      match row
      case None => Some(excluded)
      case Some(r) => Some(Filled(r, excluded, Cap(r.aliases + excluded.aliases + AsList(excluded.registration))))
  }

  // ---------- Runs of writes to one row ----------

  datatype Write = Upsert(entry: Entry) | Enrich(entry: Entry) | Absorb(source: Option<Entry>)

  function Written(row: Option<Entry>, w: Write): Option<Entry> {
    match w
    case Upsert(e) => Some(Upserted(row, Validated(e)))
    case Enrich(e) => Some(Enriched(row, Validated(e)))
    case Absorb(source) => Unioned(row, source)
  }

  function RowAfter(writes: seq<Write>): Option<Entry> {
    if writes == [] then None
    else Written(RowAfter(writes[..|writes| - 1]), writes[|writes| - 1])
  }

  /** Every registration a write asserts, oldest first. The first write is a plain INSERT, which adds
      no alias for an enrichment's registration. */
  function Asserted(w: Write, first: bool): seq<Alias> {
    match w
    case Upsert(e) => e.aliases
    case Enrich(e) => if first then e.aliases else e.aliases + AsList(e.registration)
    case Absorb(None) => []
    case Absorb(Some(src)) => src.aliases + AsList(src.registration)
  }

  function AllAsserted(writes: seq<Write>): seq<Alias> {
    if writes == [] then []
    else
      var before := writes[..|writes| - 1];
      AllAsserted(before) + Asserted(writes[|writes| - 1], RowAfter(before) == None)
  }

  function AllRecords(writes: seq<Write>): set<string> {
    if writes == [] then {}
    else
      AllRecords(writes[..|writes| - 1])
      + match writes[|writes| - 1]
        case Upsert(e) => e.sourceRecords
        case Enrich(e) => e.sourceRecords
        case Absorb(None) => {}
        case Absorb(Some(src)) => src.sourceRecords
  }

  /** The aliases of a row that holds the cap of these. */
  ghost predicate Holds(row: Option<Entry>, aliases: seq<Alias>) {
    if row == None then aliases == [] else row.value.aliases == Cap(aliases)
  }

  lemma CapMiddle(xs: seq<Alias>, ys: seq<Alias>, zs: seq<Alias>)
    ensures Cap(Cap(xs) + Cap(ys) + zs) == Cap(xs + ys + zs)
  {
    CapLeft(Cap(xs) + Cap(ys), zs);
    CapLeft(xs, Cap(ys));
    CapRight(xs, ys);
    CapLeft(xs + ys, zs);
  }

  lemma AppendingNothing(xs: seq<Alias>)
    ensures xs + [] == xs
  {
  }

  /** A merge appends the source's registration twice, which is as good as once. */
  lemma CapTwice(xs: seq<Alias>, registration: Option<Alias>)
    ensures Cap(xs + AsList(registration) + AsList(registration)) == Cap(xs + AsList(registration))
  {
    match registration
    case None => AppendingNothing(xs);
    case Some(r) =>
      LatestAppend(xs + [r], [r]);
      LatestAppend(xs, [r]);
      WithoutAppend(Without(Latest(xs), {r}), [r], {r});
      WithoutTwice(Latest(xs), {r}, {r});
      assert Values([r]) == {r} && {r} + {r} == {r};
      assert Latest([r]) == [r] && Without([r], {r}) == [];
      AppendingNothing(Without(Latest(xs), {r}));
  }

  lemma WriteHolds(row: Option<Entry>, aliases: seq<Alias>, w: Write)
    requires Holds(row, aliases)
    ensures Holds(Written(row, w), aliases + Asserted(w, row == None))
  {
    AppendingNothing(aliases);
    if row == None {
      match w {
        case Upsert(e) => assert [] + e.aliases == e.aliases;
        case Enrich(e) => assert [] + e.aliases == e.aliases;
        case Absorb(None) =>
        case Absorb(Some(src)) => assert [] + (src.aliases + AsList(src.registration)) == src.aliases + AsList(src.registration);
      }
    } else {
      match w {
        case Upsert(e) =>
          CapLeft(aliases, Cap(e.aliases));
          CapRight(aliases, e.aliases);
        case Enrich(e) =>
          CapMiddle(aliases, e.aliases, AsList(e.registration));
          assert aliases + e.aliases + AsList(e.registration) == aliases + (e.aliases + AsList(e.registration));
        case Absorb(None) =>
        case Absorb(Some(src)) =>
          var reg := AsList(src.registration);
          CapMiddle(aliases, src.aliases + reg, reg);
          assert aliases + (src.aliases + reg) + reg == (aliases + src.aliases) + reg + reg;
          CapTwice(aliases + src.aliases, src.registration);
          assert aliases + src.aliases + reg == aliases + (src.aliases + reg);
      }
    }
  }

  /** However many writes grew a row, and however often its list was cut on the way, its aliases are the
      five most recently asserted distinct registrations of the whole history. */
  lemma {:induction false} IncrementalIsBatch(writes: seq<Write>)
    ensures Holds(RowAfter(writes), AllAsserted(writes))
  {
    if writes == [] {
    } else {
      var before := writes[..|writes| - 1];
      IncrementalIsBatch(before);
      WriteHolds(RowAfter(before), AllAsserted(before), writes[|writes| - 1]);
    }
  }

  /** No source record is ever forgotten. */
  lemma {:induction false} RecordsAreKept(writes: seq<Write>)
    ensures if RowAfter(writes) == None then AllRecords(writes) == {}
            else RowAfter(writes).value.sourceRecords == AllRecords(writes)
  {
    if writes == [] {
    } else {
      RecordsAreKept(writes[..|writes| - 1]);
    }
  }

  // ---------- The primary registration ----------

  /** The last registration an ingestion of the event itself gave, if any did. */
  function LastUpserted(writes: seq<Write>): Option<Alias> {
    if writes == [] then None
    else
      var last := writes[|writes| - 1];
      Coalesce(if last.Upsert? then last.entry.registration else None, LastUpserted(writes[..|writes| - 1]))
  }

  function Offered(w: Write): Option<Alias> {
    match w
    case Upsert(e) => None
    case Enrich(e) => e.registration
    case Absorb(source) => if source.Some? then source.value.registration else None
  }

  /** The first registration that came by way of a merged event. */
  function FirstOffered(writes: seq<Write>): Option<Alias> {
    if writes == [] then None
    else Coalesce(FirstOffered(writes[..|writes| - 1]), Offered(writes[|writes| - 1]))
  }

  function PrimaryOf(row: Option<Entry>): Option<Alias> {
    if row == None then None else row.value.registration
  }

  lemma PrimaryAfterWrite(row: Option<Entry>, w: Write)
    ensures PrimaryOf(Written(row, w)) ==
            Coalesce(if w.Upsert? then w.entry.registration else None, Coalesce(PrimaryOf(row), Offered(w)))
  {
  }

  /** A merged event's registration never displaces one the event's own ingestions gave; among merged
      events the first wins, among own ingestions the last. */
  lemma {:induction false} PrimaryRegistration(writes: seq<Write>)
    ensures PrimaryOf(RowAfter(writes)) == Coalesce(LastUpserted(writes), FirstOffered(writes))
  {
    if writes == [] {
    } else {
      var before := writes[..|writes| - 1];
      PrimaryRegistration(before);
      PrimaryAfterWrite(RowAfter(before), writes[|writes| - 1]);
    }
  }

  // ---------- The other scalars ----------

  datatype Column = Date | Operator | Location | Aircraft

  function ColumnOf(e: Entry, column: Column): Option<string> {
    match column
    case Date => e.date
    case Operator => e.operator
    case Location => e.location
    case Aircraft => e.aircraft
  }

  /** The last value an ingestion of the event itself gave the column, if any did. */
  function LastGiven(writes: seq<Write>, column: Column): Option<string> {
    if writes == [] then None
    else
      var last := writes[|writes| - 1];
      if last.Upsert? && ColumnOf(last.entry, column).Some? then ColumnOf(last.entry, column)
      else LastGiven(writes[..|writes| - 1], column)
  }

  /** The first value that came by way of a merged event. */
  function FirstBrought(writes: seq<Write>, column: Column): Option<string> {
    if writes == [] then None
    else
      var before := FirstBrought(writes[..|writes| - 1], column);
      if before.Some? then before
      else match writes[|writes| - 1]
           case Upsert(_) => None
           case Enrich(e) => ColumnOf(e, column)
           case Absorb(source) => if source.Some? then ColumnOf(source.value, column) else None
  }

  function ScalarOf(row: Option<Entry>, column: Column): Option<string> {
    if row == None then None else ColumnOf(row.value, column)
  }

  lemma ScalarAfterWrite(row: Option<Entry>, w: Write, column: Column)
    ensures var given := if w.Upsert? then ColumnOf(w.entry, column) else None;
            var brought := if w.Enrich? then ColumnOf(w.entry, column)
                           else if w.Absorb? then ScalarOf(w.source, column) else None;
            ScalarOf(Written(row, w), column)
            == if given.Some? then given else if ScalarOf(row, column).Some? then ScalarOf(row, column) else brought
  {
    hide Cap;
  }

  /** Every scalar of a row: the last value the event's own ingestions gave, and, if they gave none, the first
      that a merged event brought. */
  lemma {:induction false} ScalarOfRow(writes: seq<Write>, column: Column)
    ensures ScalarOf(RowAfter(writes), column)
            == if LastGiven(writes, column).Some? then LastGiven(writes, column) else FirstBrought(writes, column)
  {
    if writes == [] {
    } else {
      hide Written, ColumnOf;
      ScalarOfRow(writes[..|writes| - 1], column);
      ScalarAfterWrite(RowAfter(writes[..|writes| - 1]), writes[|writes| - 1], column);
    }
  }
}
