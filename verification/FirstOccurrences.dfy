/** list(dict.fromkeys(...)): the distinct values of a list in the order of their first occurrences. */
module FirstOccurrences {
  function Distinct(xs: seq<nat>): (r: seq<nat>)
    ensures forall x :: x in r <==> x in xs
    ensures |r| <= |xs|
  {
    if xs == [] then []
    else
      var n := |xs| - 1;
      var before := Distinct(xs[..n]);
      if xs[n] in before then before else before + [xs[n]]
  }

  lemma DistinctPush(xs: seq<nat>, x: nat)
    ensures Distinct(xs + [x]) == if x in Distinct(xs) then Distinct(xs) else Distinct(xs) + [x]
  {
    assert (xs + [x])[..|xs|] == xs;
  }

  /** All but one value, in order. */
  function Except(xs: seq<nat>, x: nat): (r: seq<nat>)
    ensures forall y :: y in r <==> y in xs && y != x
  {
    if xs == [] then []
    else
      var n := |xs| - 1;
      if xs[n] == x then Except(xs[..n], x) else Except(xs[..n], x) + [xs[n]]
  }

  ghost predicate NoRepeats(xs: seq<nat>) {
    forall i, j | 0 <= i < j < |xs| :: xs[i] != xs[j]
  }

  /** Where a value first occurs. */
  function FirstPosition(xs: seq<nat>, x: nat): (k: nat)
    requires x in xs
    ensures k < |xs| && xs[k] == x && x !in xs[..k]
  {
    if x in xs[..|xs| - 1] then FirstPosition(xs[..|xs| - 1], x) else |xs| - 1
  }

  ghost predicate ByFirstPosition(xs: seq<nat>, r: seq<nat>) {
    (forall x | x in r :: x in xs)
    && forall i, j | 0 <= i < j < |r| :: FirstPosition(xs, r[i]) < FirstPosition(xs, r[j])
  }

  lemma ByFirstPositionOfLonger(xs: seq<nat>, x: nat, r: seq<nat>)
    requires ByFirstPosition(xs, r)
    ensures ByFirstPosition(xs + [x], r)
    ensures x !in xs ==> ByFirstPosition(xs + [x], r + [x])
  {
    var longer := xs + [x];
    assert longer[..|xs|] == xs;
    forall y | y in xs ensures y in longer && FirstPosition(longer, y) == FirstPosition(xs, y) {
    }
    if x !in xs {
      assert FirstPosition(longer, x) == |xs|;
      forall i | 0 <= i < |r| ensures FirstPosition(longer, r[i]) < |xs| {
        assert r[i] in r;
      }
    }
  }

  /** Distinct keeps every value once, by first occurrence. */
  lemma {:induction false} DistinctByFirstPosition(xs: seq<nat>)
    ensures ByFirstPosition(xs, Distinct(xs)) && NoRepeats(Distinct(xs))
  {
    if xs == [] {
    } else {
      var n := |xs| - 1;
      DistinctByFirstPosition(xs[..n]);
      ByFirstPositionOfLonger(xs[..n], xs[n], Distinct(xs[..n]));
      assert xs == xs[..n] + [xs[n]];
    }
  }

  lemma {:induction false} DistinctOfNoRepeats(xs: seq<nat>)
    requires NoRepeats(xs)
    ensures Distinct(xs) == xs
  {
    if xs == [] {
    } else {
      DistinctOfNoRepeats(xs[..|xs| - 1]);
    }
  }

  lemma {:induction false} ExceptNothing(xs: seq<nat>, x: nat)
    requires x !in xs
    ensures Except(xs, x) == xs
  {
    if xs == [] {
    } else {
      ExceptNothing(xs[..|xs| - 1], x);
    }
  }

  lemma {:induction false} ExceptHead(xs: seq<nat>)
    requires NoRepeats(xs) && xs != []
    ensures Except(xs, xs[0]) == xs[1..]
  {
    var n := |xs| - 1;
    if n == 0 {
    } else {
      ExceptHead(xs[..n]);
      assert xs[1..] == xs[..n][1..] + [xs[n]];
    }
  }

  lemma {:induction false} ExceptNoRepeats(xs: seq<nat>, x: nat)
    requires NoRepeats(xs)
    ensures NoRepeats(Except(xs, x))
  {
    if xs == [] {
    } else {
      var n := |xs| - 1;
      ExceptNoRepeats(xs[..n], x);
      var before := Except(xs[..n], x);
      forall i | 0 <= i < |before| ensures before[i] != xs[n] {
        assert before[i] in before;
      }
    }
  }

  /** Of a list with a value put in front, the value comes first and the others follow in order. */
  lemma {:induction false} DistinctOfFront(x: nat, xs: seq<nat>)
    ensures Distinct([x] + xs) == [x] + Except(Distinct(xs), x)
  {
    if xs == [] {
      assert [x] + xs == [x];
    } else {
      var n := |xs| - 1;
      DistinctOfFront(x, xs[..n]);
      assert ([x] + xs)[..n + 1] == [x] + xs[..n];
      var before := Distinct(xs[..n]);
      if xs[n] !in before {
        assert (before + [xs[n]])[..|before|] == before;
        assert Except(before + [xs[n]], x) == if xs[n] == x then Except(before, x) else Except(before, x) + [xs[n]];
      }
    }
  }
}
