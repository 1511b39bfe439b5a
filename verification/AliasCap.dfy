/**
 The bounded list of registration aliases of an event. It is cut in three places that must agree:
 the entity's validator loop, the SQL aggregation every upsert runs, and migration 020.
 */
module AliasCap {
  /** A normalised registration. */
  datatype Alias = Alias(norm: string)

  const MAX_REGISTRATION_ALIASES := 5

  // ---------- Distinct values, latest occurrence last ----------

  ghost predicate NoRepeats(xs: seq<Alias>) {
    forall i, j | 0 <= i < j < |xs| :: xs[i] != xs[j]
  }

  function Values(xs: seq<Alias>): set<Alias> {
    set x | x in xs
  }

  function Without(xs: seq<Alias>, gone: set<Alias>): seq<Alias> {
    if xs == [] then []
    else
      var n := |xs| - 1;
      if xs[n] in gone then Without(xs[..n], gone) else Without(xs[..n], gone) + [xs[n]]
  }

  /** The distinct values, in the order of their last occurrences. */
  function Latest(xs: seq<Alias>): seq<Alias> {
    if xs == [] then []
    else
      var n := |xs| - 1;
      Without(Latest(xs[..n]), {xs[n]}) + [xs[n]]
  }

  function Suffix(xs: seq<Alias>, n: nat): (r: seq<Alias>)
    ensures |r| == if |xs| < n then |xs| else n
  {
    if |xs| < n then xs else xs[|xs| - n..]
  }

  /** EventIdentityIndex.cap_registration_norms as a function. */
  function Cap(xs: seq<Alias>): (r: seq<Alias>)
    ensures |r| <= MAX_REGISTRATION_ALIASES
  {
    Suffix(Latest(xs), MAX_REGISTRATION_ALIASES)
  }

  /** Five at most, and fewer only if there are no more. */
  lemma CapSize(xs: seq<Alias>)
    ensures |Cap(xs)| == if |Latest(xs)| < 5 then |Latest(xs)| else 5
  {
  }

  /** What was asserted last is never cut. */
  lemma LastIsKept(xs: seq<Alias>, x: Alias)
    ensures x in Cap(xs + [x])
  {
    assert (xs + [x])[..|xs|] == xs;
    var latest := Latest(xs + [x]);
    assert Cap(xs + [x])[|Cap(xs + [x])| - 1] == latest[|latest| - 1];
  }

  lemma ValuesOfAppend(xs: seq<Alias>, ys: seq<Alias>)
    ensures Values(xs + ys) == Values(xs) + Values(ys)
  {
  }

  lemma ValuesOfLast(xs: seq<Alias>)
    requires xs != []
    ensures Values(xs) == Values(xs[..|xs| - 1]) + {xs[|xs| - 1]}
  {
    assert xs == xs[..|xs| - 1] + [xs[|xs| - 1]];
    ValuesOfAppend(xs[..|xs| - 1], [xs[|xs| - 1]]);
  }

  lemma {:induction false} ValuesOfWithout(xs: seq<Alias>, gone: set<Alias>)
    ensures Values(Without(xs, gone)) == Values(xs) - gone
  {
    if xs == [] {
    } else {
      var n := |xs| - 1;
      ValuesOfWithout(xs[..n], gone);
      ValuesOfLast(xs);
      ValuesOfAppend(Without(xs[..n], gone), [xs[n]]);
    }
  }

  lemma {:induction false} ValuesOfLatest(xs: seq<Alias>)
    ensures Values(Latest(xs)) == Values(xs)
  {
    if xs == [] {
    } else {
      var n := |xs| - 1;
      ValuesOfLatest(xs[..n]);
      ValuesOfWithout(Latest(xs[..n]), {xs[n]});
      ValuesOfLast(xs);
      ValuesOfAppend(Without(Latest(xs[..n]), {xs[n]}), [xs[n]]);
    }
  }

  lemma NoRepeatsPush(xs: seq<Alias>, x: Alias)
    requires NoRepeats(xs) && x !in Values(xs)
    ensures NoRepeats(xs + [x])
  {
  }

  lemma {:induction false} WithoutNoRepeats(xs: seq<Alias>, gone: set<Alias>)
    requires NoRepeats(xs)
    ensures NoRepeats(Without(xs, gone))
  {
    if xs == [] {
    } else {
      var n := |xs| - 1;
      WithoutNoRepeats(xs[..n], gone);
      ValuesOfWithout(xs[..n], gone);
      if xs[n] !in gone {
        NoRepeatsPush(Without(xs[..n], gone), xs[n]);
      }
    }
  }

  lemma {:induction false} LatestNoRepeats(xs: seq<Alias>)
    ensures NoRepeats(Latest(xs))
  {
    if xs == [] {
    } else {
      var n := |xs| - 1;
      LatestNoRepeats(xs[..n]);
      WithoutNoRepeats(Latest(xs[..n]), {xs[n]});
      ValuesOfWithout(Latest(xs[..n]), {xs[n]});
      NoRepeatsPush(Without(Latest(xs[..n]), {xs[n]}), xs[n]);
    }
  }

  lemma AppendAssociates(a: seq<Alias>, b: seq<Alias>, c: seq<Alias>)
    ensures (a + b) + c == a + (b + c)
  {
  }

  lemma {:induction false} WithoutAppend(xs: seq<Alias>, ys: seq<Alias>, gone: set<Alias>)
    ensures Without(xs + ys, gone) == Without(xs, gone) + Without(ys, gone)
  {
    if ys == [] {
      assert xs + ys == xs;
    } else {
      var n := |ys| - 1;
      WithoutAppend(xs, ys[..n], gone);
      assert (xs + ys)[..|xs| + n] == xs + ys[..n];
    }
  }

  lemma {:induction false} WithoutTwice(xs: seq<Alias>, a: set<Alias>, b: set<Alias>)
    ensures Without(Without(xs, a), b) == Without(xs, a + b)
  {
    if xs == [] {
    } else {
      var n := |xs| - 1;
      WithoutTwice(xs[..n], a, b);
      if xs[n] !in a {
        WithoutAppend(Without(xs[..n], a), [xs[n]], b);
      }
    }
  }

  lemma {:induction false} WithoutNothing(xs: seq<Alias>, gone: set<Alias>)
    requires Values(xs) !! gone
    ensures Without(xs, gone) == xs
  {
    if xs == [] {
    } else {
      ValuesOfLast(xs);
      WithoutNothing(xs[..|xs| - 1], gone);
    }
  }

  lemma LatestPush(xs: seq<Alias>, x: Alias)
    ensures Latest(xs + [x]) == Without(Latest(xs), {x}) + [x]
  {
    assert (xs + [x])[..|xs|] == xs;
  }

  lemma Displace(xs: seq<Alias>, gone: set<Alias>, ys: seq<Alias>, y: Alias)
    ensures Without(Without(xs, gone) + ys, {y}) == Without(xs, gone + {y}) + Without(ys, {y})
  {
    WithoutAppend(Without(xs, gone), ys, {y});
    WithoutTwice(xs, gone, {y});
  }

  lemma LatestAppendPush(xs: seq<Alias>, ys: seq<Alias>, y: Alias)
    requires Latest(xs + ys) == Without(Latest(xs), Values(ys)) + Latest(ys)
    ensures Latest(xs + ys + [y]) == Without(Latest(xs), Values(ys + [y])) + Latest(ys + [y])
  {
    LatestPush(xs + ys, y);
    LatestPush(ys, y);
    Displace(Latest(xs), Values(ys), Latest(ys), y);
    ValuesOfAppend(ys, [y]);
    assert Values([y]) == {y};
    AppendAssociates(Without(Latest(xs), Values(ys + [y])), Without(Latest(ys), {y}), [y]);
  }

  /** Of a concatenation, the later list's values come last and displace earlier occurrences. */
  lemma {:induction false} LatestAppend(xs: seq<Alias>, ys: seq<Alias>)
    ensures Latest(xs + ys) == Without(Latest(xs), Values(ys)) + Latest(ys)
  {
    if ys == [] {
      assert xs + ys == xs;
      WithoutNothing(Latest(xs), Values(ys));
    } else {
      var n := |ys| - 1;
      LatestAppend(xs, ys[..n]);
      LatestAppendPush(xs, ys[..n], ys[n]);
      assert ys == ys[..n] + [ys[n]];
      AppendAssociates(xs, ys[..n], [ys[n]]);
    }
  }

  lemma {:induction false} LatestOfDistinct(xs: seq<Alias>)
    requires NoRepeats(xs)
    ensures Latest(xs) == xs
  {
    if xs == [] {
    } else {
      var n := |xs| - 1;
      LatestOfDistinct(xs[..n]);
      assert xs[n] !in Values(xs[..n]);
      WithoutNothing(xs[..n], {xs[n]});
    }
  }

  lemma {:induction false} DistinctCount(xs: seq<Alias>)
    requires NoRepeats(xs)
    ensures |Values(xs)| == |xs|
  {
    if xs == [] {
    } else {
      var n := |xs| - 1;
      DistinctCount(xs[..n]);
      ValuesOfLast(xs);
      assert xs[n] !in Values(xs[..n]);
    }
  }

  lemma SubsetCount(a: set<Alias>, b: set<Alias>)
    requires a <= b
    ensures |a| <= |b|
  {
    assert b == a + (b - a);
  }

  /** More values in the list, more values kept. */
  lemma LatestCount(few: seq<Alias>, many: seq<Alias>)
    requires NoRepeats(few) && Values(few) <= Values(many)
    ensures |few| <= |Latest(many)|
  {
    LatestNoRepeats(many);
    ValuesOfLatest(many);
    DistinctCount(few);
    DistinctCount(Latest(many));
    SubsetCount(Values(few), Values(Latest(many)));
  }

  // ---------- The validator loop ----------

  function Reversed(xs: seq<Alias>): (r: seq<Alias>)
    ensures |r| == |xs|
  {
    seq(|xs|, i requires 0 <= i < |xs| => xs[|xs| - 1 - i])
  }

  lemma ReversedPush(xs: seq<Alias>, x: Alias)
    ensures Reversed(xs + [x]) == [x] + Reversed(xs)
  {
  }

  lemma OneMoreFromTheRight(value: seq<Alias>, i: nat)
    requires i < |value|
    ensures Latest(value[i..]) == if value[i] in value[i + 1..] then Latest(value[i + 1..])
                                  else [value[i]] + Latest(value[i + 1..])
    ensures Values(value[i..]) == Values(value[i + 1..]) + {value[i]}
  {
    assert value[i..] == [value[i]] + value[i + 1..];
    LatestAppend([value[i]], value[i + 1..]);
    ValuesOfAppend([value[i]], value[i + 1..]);
    LatestOfDistinct([value[i]]);
    var rest := Values(value[i + 1..]);
    assert Without([value[i]], rest) == if value[i] in rest then [] else [value[i]];
  }

  lemma SuffixFromTheRight(value: seq<Alias>, i: nat)
    requires i <= |value| && (i == 0 || |Latest(value[i..])| == MAX_REGISTRATION_ALIASES)
    requires |Latest(value[i..])| <= MAX_REGISTRATION_ALIASES
    ensures Latest(value[i..]) == Cap(value)
  {
    LatestAppend(value[..i], value[i..]);
    assert value == value[..i] + value[i..];
  }

  method CapRegistrationNorms(value: seq<Alias>) returns (r: seq<Alias>)
    ensures r == Cap(value)
  {
    var seen: set<Alias> := {};
    var cappedReversed: seq<Alias> := [];
    var i := |value|;
    while i > 0
      invariant 0 <= i <= |value|
      invariant seen == Values(value[i..])
      invariant Reversed(cappedReversed) == Latest(value[i..])
      invariant |cappedReversed| < MAX_REGISTRATION_ALIASES
    {
      i := i - 1;
      var item := value[i];
      OneMoreFromTheRight(value, i);
      if item in seen {
        continue;
      }
      seen := seen + {item};
      ReversedPush(cappedReversed, item);
      cappedReversed := cappedReversed + [item];
      if |cappedReversed| >= MAX_REGISTRATION_ALIASES {
        break;
      }
    }
    SuffixFromTheRight(value, i);
    r := Reversed(cappedReversed);
  }

  // ---------- The SQL aggregation ----------

  /** MAX(ord) of a value. */
  function LastPosition(xs: seq<Alias>, x: Alias): (k: nat)
    requires x in xs
    ensures k < |xs| && xs[k] == x && x !in xs[k + 1..]
  {
    if xs[|xs| - 1] == x then |xs| - 1 else LastPosition(xs[..|xs| - 1], x)
  }

  /** Values of xs by ascending MAX(ord). */
  ghost predicate ByLastPosition(xs: seq<Alias>, r: seq<Alias>) {
    (forall x | x in r :: x in xs)
    && forall i, j | 0 <= i < j < |r| :: LastPosition(xs, r[i]) < LastPosition(xs, r[j])
  }

  /** What the aggregation returns: GROUP BY value, keep the `limit` groups of greatest MAX(ord), and
      aggregate them by ascending MAX(ord). */
  ghost predicate Aggregated(xs: seq<Alias>, limit: nat, r: seq<Alias>) {
    ByLastPosition(xs, r) && |r| <= limit && (Values(r) != Values(xs) ==> |r| == limit)
    && forall x, y | x in xs && x !in r && y in r :: LastPosition(xs, x) < LastPosition(xs, y)
  }

  lemma ByLastPositionPush(xs: seq<Alias>, r: seq<Alias>, x: Alias)
    requires ByLastPosition(xs, r) && x in xs && forall v | v in Values(r) :: LastPosition(xs, v) < LastPosition(xs, x)
    ensures ByLastPosition(xs, r + [x])
  {
    var longer := r + [x];
    forall i | 0 <= i < |r| ensures longer[i] == r[i] && r[i] in xs && LastPosition(xs, r[i]) < LastPosition(xs, x) {
      assert r[i] in Values(r);
    }
    forall i, j | 0 <= i < j < |longer| ensures LastPosition(xs, longer[i]) < LastPosition(xs, longer[j]) {
      assert longer[i] == r[i];
    }
  }

  lemma ByLastPositionPrefix(xs: seq<Alias>, r: seq<Alias>)
    requires ByLastPosition(xs, r) && r != []
    ensures var n := |r| - 1;
            ByLastPosition(xs, r[..n]) && forall v | v in Values(r[..n]) :: LastPosition(xs, v) < LastPosition(xs, r[n])
  {
  }

  lemma {:induction false} WithoutByLastPosition(xs: seq<Alias>, r: seq<Alias>, gone: set<Alias>)
    requires ByLastPosition(xs, r)
    ensures ByLastPosition(xs, Without(r, gone))
  {
    if r == [] {
    } else {
      var n := |r| - 1;
      ByLastPositionPrefix(xs, r);
      WithoutByLastPosition(xs, r[..n], gone);
      ValuesOfWithout(r[..n], gone);
      if r[n] !in gone {
        ByLastPositionPush(xs, Without(r[..n], gone), r[n]);
      }
    }
  }

  lemma {:induction false} LatestByLastPosition(xs: seq<Alias>)
    ensures ByLastPosition(xs, Latest(xs))
  {
    if xs == [] {
    } else {
      var n := |xs| - 1;
      var before := Without(Latest(xs[..n]), {xs[n]});
      LatestByLastPosition(xs[..n]);
      WithoutByLastPosition(xs[..n], Latest(xs[..n]), {xs[n]});
      ValuesOfLatest(xs[..n]);
      ValuesOfWithout(Latest(xs[..n]), {xs[n]});
      forall i | 0 <= i < |before|
        ensures before[i] in xs && LastPosition(xs, before[i]) == LastPosition(xs[..n], before[i]) < n
      {
        assert before[i] in Values(before);
      }
    }
  }

  lemma CapIsAggregated(xs: seq<Alias>, limit: nat)
    ensures Aggregated(xs, limit, Suffix(Latest(xs), limit))
  {
    LatestByLastPosition(xs);
    ValuesOfLatest(xs);
    var all := Latest(xs);
    forall x | x in xs ensures x in all {
      assert x in Values(all);
    }
    SuffixIsLatest(xs, all, Suffix(all, limit));
  }

  lemma SuffixIsLatest(xs: seq<Alias>, all: seq<Alias>, r: seq<Alias>)
    requires ByLastPosition(xs, all) && (forall x | x in xs :: x in all) && |r| <= |all| && r == all[|all| - |r|..]
    ensures ByLastPosition(xs, r)
    ensures forall x, y | x in xs && x !in r && y in r :: LastPosition(xs, x) < LastPosition(xs, y)
  {
    forall k | |all| - |r| <= k < |all| ensures all[k] in r {
      assert r[k - (|all| - |r|)] == all[k];
    }
    forall x, y | x in xs && x !in r && y in r ensures LastPosition(xs, x) < LastPosition(xs, y) {
      var i :| 0 <= i < |all| && all[i] == x;
      var j :| 0 <= j < |r| && r[j] == y;
      assert r[j] == all[|all| - |r| + j];
      assert i < |all| - |r|;
    }
  }

  lemma ByLastPositionNoRepeats(xs: seq<Alias>, r: seq<Alias>)
    requires ByLastPosition(xs, r)
    ensures NoRepeats(r)
  {
  }

  lemma AnotherGroup(limit: nat, r: seq<Alias>, s: seq<Alias>, v: Alias)
    requires NoRepeats(r) && NoRepeats(s) && |r| <= limit == |s| && v in r && v !in s
    ensures exists w :: w in s && w !in r
  {
    DistinctCount(r);
    DistinctCount(s);
    if forall w | w in s :: w in r {
      SubsetCount(Values(s) + {v}, Values(r));
    }
  }

  lemma SameGroups(xs: seq<Alias>, limit: nat, r: seq<Alias>, s: seq<Alias>, v: Alias)
    requires Aggregated(xs, limit, r) && Aggregated(xs, limit, s) && v in r
    ensures v in s
  {
    if v !in s {
      assert v in Values(xs) && v !in Values(s);
      ByLastPositionNoRepeats(xs, r);
      ByLastPositionNoRepeats(xs, s);
      AnotherGroup(limit, r, s, v);
    }
  }

  lemma SameEmptiness(r: seq<Alias>, s: seq<Alias>)
    requires Values(r) == Values(s)
    ensures r == [] <==> s == []
  {
    if r != [] {
      assert r[0] in Values(s);
    }
    if s != [] {
      assert s[0] in Values(r);
    }
  }

  lemma {:induction false} OrderedUnique(xs: seq<Alias>, r: seq<Alias>, s: seq<Alias>)
    requires ByLastPosition(xs, r) && ByLastPosition(xs, s) && Values(r) == Values(s)
    ensures r == s
    decreases |r|
  {
    SameEmptiness(r, s);
    if r == [] {
    } else {
      var m, n := |r| - 1, |s| - 1;
      SameLast(xs, r, s);
      ByLastPositionPrefix(xs, r);
      ByLastPositionPrefix(xs, s);
      OrderedUnique(xs, r[..m], s[..n]);
      assert r == r[..m] + [r[m]] && s == s[..n] + [s[n]];
    }
  }

  lemma SameLast(xs: seq<Alias>, r: seq<Alias>, s: seq<Alias>)
    requires ByLastPosition(xs, r) && ByLastPosition(xs, s) && Values(r) == Values(s) && r != [] && s != []
    ensures r[|r| - 1] == s[|s| - 1] && Values(r[..|r| - 1]) == Values(s[..|s| - 1])
  {
    var m, n := |r| - 1, |s| - 1;
    assert r[m] in Values(s) && s[n] in Values(r);
    ByLastPositionNoRepeats(xs, r);
    ByLastPositionNoRepeats(xs, s);
    assert Values(r[..m]) == Values(r) - {r[m]};
    assert Values(s[..n]) == Values(s) - {s[n]};
  }

  /** The validator and the SQL aggregation are the same function: a list is what the aggregation
      returns if and only if it is the validator's. */
  lemma AggregationIsCap(xs: seq<Alias>, r: seq<Alias>)
    ensures Aggregated(xs, MAX_REGISTRATION_ALIASES, r) <==> r == Cap(xs)
  {
    CapIsAggregated(xs, MAX_REGISTRATION_ALIASES);
    if Aggregated(xs, MAX_REGISTRATION_ALIASES, r) {
      forall v ensures v in Values(r) <==> v in Values(Cap(xs)) {
        if v in r {
          SameGroups(xs, MAX_REGISTRATION_ALIASES, r, Cap(xs), v);
        }
        if v in Cap(xs) {
          SameGroups(xs, MAX_REGISTRATION_ALIASES, Cap(xs), r, v);
        }
      }
      OrderedUnique(xs, r, Cap(xs));
    }
  }

  /** Migration 020, which runs the aggregation only where the stored list is over the limit. */
  ghost predicate Migrated(xs: seq<Alias>, r: seq<Alias>) {
    if |xs| > MAX_REGISTRATION_ALIASES then Aggregated(xs, MAX_REGISTRATION_ALIASES, r) else r == xs
  }

  /** The migration leaves what the validator would keep exactly when the list was over the limit or
      had no repeats: a short list keeps its repeats. */
  lemma MigrationCapsIff(xs: seq<Alias>, r: seq<Alias>)
    requires Migrated(xs, r)
    ensures r == Cap(xs) <==> |xs| > MAX_REGISTRATION_ALIASES || NoRepeats(xs)
  {
    AggregationIsCap(xs, r);
    LatestNoRepeats(xs);
    if NoRepeats(xs) {
      LatestOfDistinct(xs);
    }
  }

  // ---------- Capping early loses nothing ----------

  lemma CapNoRepeats(xs: seq<Alias>)
    ensures NoRepeats(Cap(xs)) && Cap(Cap(xs)) == Cap(xs)
  {
    LatestNoRepeats(xs);
    LatestOfDistinct(Cap(xs));
  }

  lemma SuffixAppend(xs: seq<Alias>, ys: seq<Alias>, n: nat)
    requires |ys| >= n || xs == []
    ensures Suffix(xs + ys, n) == Suffix(ys, n)
  {
    if xs == [] {
      assert xs + ys == ys;
    }
  }

  lemma LatestOfPartial(xs: seq<Alias>, dropped: seq<Alias>, kept: seq<Alias>, ys: seq<Alias>)
    requires Latest(xs) == dropped + kept && NoRepeats(kept)
    ensures Latest(xs + ys) == Without(dropped, Values(ys)) + Latest(kept + ys)
  {
    LatestOfDistinct(kept);
    LatestAppend(kept, ys);
    LatestAppend(xs, ys);
    WithoutAppend(dropped, kept, Values(ys));
    AppendAssociates(Without(dropped, Values(ys)), Without(kept, Values(ys)), Latest(ys));
  }

  /** Capping the stored list before appending changes nothing. */
  lemma CapLeft(xs: seq<Alias>, ys: seq<Alias>)
    ensures Cap(Cap(xs) + ys) == Cap(xs + ys)
  {
    var kept, all := Cap(xs), Latest(xs);
    var dropped := all[..|all| - |kept|];
    assert all == dropped + kept;
    CapNoRepeats(xs);
    LatestOfPartial(xs, dropped, kept, ys);
    ValuesOfAppend(kept, ys);
    LatestCount(kept, kept + ys);
    SuffixAppend(Without(dropped, Values(ys)), Latest(kept + ys), MAX_REGISTRATION_ALIASES);
  }

  /** Capping the incoming list before appending changes nothing. */
  lemma CapRight(xs: seq<Alias>, ys: seq<Alias>)
    ensures Cap(xs + Cap(ys)) == Cap(xs + ys)
  {
    var kept, all := Cap(ys), Latest(ys);
    CapNoRepeats(ys);
    LatestOfDistinct(kept);
    LatestAppend(xs, kept);
    LatestAppend(xs, ys);
    ValuesOfLatest(ys);
    if |all| > MAX_REGISTRATION_ALIASES {
      SameSuffix(Without(Latest(xs), Values(ys)), all, Without(Latest(xs), Values(kept)), kept,
                 MAX_REGISTRATION_ALIASES);
    }
  }

  lemma SameSuffix(a: seq<Alias>, all: seq<Alias>, b: seq<Alias>, kept: seq<Alias>, n: nat)
    requires |all| >= n && kept == Suffix(all, n)
    ensures Suffix(a + all, n) == Suffix(b + kept, n)
  {
  }
}
