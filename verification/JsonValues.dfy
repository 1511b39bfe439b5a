/**
 JSON values as the submission guard sees them: their canonical text, which tells every two of them apart;
 Python's equality on the parsed values, which does not; and the values a JSONB column hands back.
 */
module JsonValues {
  // ---------- Doubles ----------

  function Power(e: nat): (p: int)
    ensures p > 0
  {
    if e == 0 then 1 else 2 * Power(e - 1)
  }

  function Scaled(m: int, e: int): real {
    if e >= 0 then (m * Power(e)) as real else m as real / Power(-e) as real
  }

  const MANTISSA_END := 0x20_0000_0000_0000

  /** The finite values of IEEE 754 binary64. */
  ghost predicate IsDouble(x: real) {
    exists m: int, e: int :: -MANTISSA_END < m < MANTISSA_END && -1074 <= e <= 971 && x == Scaled(m, e)
  }

  function Zero(): (x: real)
    ensures IsDouble(x)
  {
    assert Scaled(0, 0) == 0.0;
    0.0
  }

  type Double = x: real | IsDouble(x) witness Zero()

  lemma SmallIntIsDouble(n: int)
    requires -MANTISSA_END < n < MANTISSA_END
    ensures IsDouble(n as real)
  {
    assert Scaled(n, 0) == n as real;
  }

  predicate Integral(x: real) {
    x == x.Floor as real
  }

  lemma QuotientIsSmaller(m: int, p: int)
    requires p > 0
    ensures m >= 0 ==> 0.0 <= m as real / p as real <= m as real
    ensures m < 0 ==> m as real <= m as real / p as real <= 0.0
  {
    var q := m as real / p as real;
    assert q * p as real == m as real;
    assert p as real >= 1.0;
    if m >= 0 {
      assert q >= 0.0;
      assert q * (p as real - 1.0) >= 0.0;
    } else {
      assert q <= 0.0;
      assert q * (p as real - 1.0) <= 0.0;
    }
  }

  /** From 2^53 on, doubles are integers. */
  lemma LargeIsIntegral(x: real)
    requires IsDouble(x) && !(-(MANTISSA_END as real) < x < MANTISSA_END as real)
    ensures Integral(x)
  {
    var m: int, e: int :| -MANTISSA_END < m < MANTISSA_END && -1074 <= e <= 971 && x == Scaled(m, e);
    if e < 0 {
      QuotientIsSmaller(m, Power(-e));
      assert false;
    } else {
      assert x.Floor == m * Power(e);
    }
  }

  lemma ScaledUpIsEven(m: int, e: nat)
    requires e > 0
    ensures m * Power(e) % 2 == 0
  {
    assert m * Power(e) == 2 * (m * Power(e - 1));
  }

  /** An odd integer is a double if and only if it is one of at most 53 binary digits. */
  lemma OddIsDoubleIff(n: int)
    requires n % 2 == 1
    ensures IsDouble(n as real) <==> -MANTISSA_END < n < MANTISSA_END
  {
    if -MANTISSA_END < n < MANTISSA_END {
      SmallIntIsDouble(n);
    } else if IsDouble(n as real) {
      var m: int, e: int :| -MANTISSA_END < m < MANTISSA_END && -1074 <= e <= 971 && n as real == Scaled(m, e);
      if e < 0 {
        QuotientIsSmaller(m, Power(-e));
      } else {
        assert n == m * Power(e);
        if e > 0 {
          ScaledUpIsEven(m, e);
        }
      }
      assert false;
    }
  }

  // ---------- Values ----------

  /** Canonical JSON (sorted keys, no spaces) of two values is the same text exactly when they are equal here.
      A float is its exact value, and -0.0 is a text of its own. */
  datatype Json =
    | Null
    | Bool(b: bool)
    | Int(n: int)
    | Float(x: Double)
    | NegativeZero
    | Text(s: string)
    | List(items: seq<Json>)
    | Object(fields: map<string, Json>)
  {
    predicate IsNumber() {
      Bool? || Int? || Float? || NegativeZero?
    }

    /** A bool is an int to Python. */
    function Number(): real
      requires IsNumber()
    {
      match this
      case Bool(b) => if b then 1.0 else 0.0
      case Int(n) => n as real
      case Float(x) => x
      case NegativeZero => 0.0
    }
  }

  /** Python's `==` on parsed JSON. */
  predicate PyEqual(a: Json, b: Json) {
    match (a, b)
    case (List(xs), List(ys)) => |xs| == |ys| && forall i | 0 <= i < |xs| :: PyEqual(xs[i], ys[i])
    case (Object(f), Object(g)) => f.Keys == g.Keys && forall k | k in f.Keys :: PyEqual(f[k], g[k])
    case _ => if a.IsNumber() && b.IsNumber() then a.Number() == b.Number() else a == b
  }

  lemma {:induction false} PyEqualRefl(a: Json)
    ensures PyEqual(a, a)
  {
    match a
    case List(xs) =>
      forall i | 0 <= i < |xs| ensures PyEqual(xs[i], xs[i]) {
        PyEqualRefl(xs[i]);
      }
    case Object(f) =>
      forall k | k in f.Keys ensures PyEqual(f[k], f[k]) {
        PyEqualRefl(f[k]);
      }
    case _ =>
  }

  lemma {:induction false} PyEqualSym(a: Json, b: Json)
    requires PyEqual(a, b)
    ensures PyEqual(b, a)
  {
    match (a, b)
    case (List(xs), List(ys)) =>
      forall i | 0 <= i < |xs| ensures PyEqual(ys[i], xs[i]) {
        PyEqualSym(xs[i], ys[i]);
      }
    case (Object(f), Object(g)) =>
      forall k | k in f.Keys ensures PyEqual(g[k], f[k]) {
        PyEqualSym(f[k], g[k]);
      }
    case _ =>
  }

  lemma {:induction false} PyEqualTrans(a: Json, b: Json, c: Json)
    requires PyEqual(a, b) && PyEqual(b, c)
    ensures PyEqual(a, c)
  {
    match (a, b, c)
    case (List(xs), List(ys), List(zs)) =>
      forall i | 0 <= i < |xs| ensures PyEqual(xs[i], zs[i]) {
        PyEqualTrans(xs[i], ys[i], zs[i]);
      }
    case (Object(f), Object(g), Object(h)) =>
      forall k | k in f.Keys ensures PyEqual(f[k], h[k]) {
        PyEqualTrans(f[k], g[k], h[k]);
      }
    case _ =>
  }

  // ---------- What a JSONB column hands back ----------

  /** The double nearest to 10^24. */
  lemma NearTenTo24IsDouble()
    ensures IsDouble(999999999999999983222784.0)
  {
    assert Power(9) == 512;
    assert Power(18) == 512 * 512;
    assert Power(27) == 0x800_0000;
    assert Scaled(7450580596923828, 27) == 999999999999999983222784.0;
  }

  /** The integer that Python's shortest decimal text of a double denotes, for doubles it writes with a positive
      exponent. It need not be the double's own value: the double nearest to 10^24 is written 1e+24. */
  type Repr = Double -> int

  const EXPONENT_START := 10_000_000_000_000_000.0

  /** Python writes a float without a positive exponent, and the column keeps its value. */
  predicate WrittenOut(x: real) {
    -EXPONENT_START < x < EXPONENT_START
  }

  /** The column stores numbers as decimals: 1e+24 comes back as an integer, -0.0 as 0.0. */
  function Kept(repr: Repr, a: Json): Json {
    match a
    case Float(x) => if WrittenOut(x) then a else Int(repr(x))
    case NegativeZero => Float(Zero())
    case List(xs) => List(seq(|xs|, i requires 0 <= i < |xs| => Kept(repr, xs[i])))
    case Object(f) => Object(map k | k in f.Keys :: Kept(repr, f[k]))
    case _ => a
  }

  /** The last double before 10^16 comes back as it is, 10^16 itself as an integer. */
  lemma KeptAtTheExponent(repr: Repr, x: Double, y: Double)
    requires x == 9999999999999998.0 && y == 10000000000000000.0
    ensures Kept(repr, Float(x)) == Float(x) && Kept(repr, Float(y)) == Int(repr(y))
  {
  }

  /** Some place holds a float whose shortest decimal text denotes another integer than its value. */
  ghost predicate Rounded(repr: Repr, a: Json) {
    match a
    case Float(x) => !WrittenOut(x) && repr(x) as real != x
    case List(xs) => exists i | 0 <= i < |xs| :: Rounded(repr, xs[i])
    case Object(f) => exists k | k in f.Keys :: Rounded(repr, f[k])
    case _ => false
  }

  /** What comes back is equal to Python if and only if no float was rounded. */
  lemma {:induction false} KeptIsEqualIff(repr: Repr, a: Json)
    ensures PyEqual(Kept(repr, a), a) <==> !Rounded(repr, a)
  {
    match a
    case List(xs) =>
      forall i | 0 <= i < |xs| ensures PyEqual(Kept(repr, xs[i]), xs[i]) <==> !Rounded(repr, xs[i]) {
        KeptIsEqualIff(repr, xs[i]);
      }
    case Object(f) =>
      assert Kept(repr, a).fields.Keys == f.Keys;
      forall k | k in f.Keys ensures PyEqual(Kept(repr, f[k]), f[k]) <==> !Rounded(repr, f[k]) {
        KeptIsEqualIff(repr, f[k]);
      }
    case _ =>
  }

  /** Some place holds a number in the one value, and in the other a number of another text that is equal to
      what the column kept of it. */
  ghost predicate Respelled(repr: Repr, a: Json, b: Json) {
    match (a, b)
    case (List(xs), List(ys)) => exists i | 0 <= i < |xs| && i < |ys| :: Respelled(repr, xs[i], ys[i])
    case (Object(f), Object(g)) => exists k | k in f.Keys && k in g.Keys :: Respelled(repr, f[k], g[k])
    case _ => a.IsNumber() && b.IsNumber() && a != b && Kept(repr, a).Number() == b.Number()
  }

  lemma SameItemTexts(repr: Repr, xs: seq<Json>, ys: seq<Json>)
    requires |xs| == |ys| && forall i | 0 <= i < |xs| :: xs[i] == ys[i] <==> !Respelled(repr, xs[i], ys[i])
    ensures List(xs) == List(ys) <==> !Respelled(repr, List(xs), List(ys))
  {
  }

  lemma SameFieldTexts(repr: Repr, f: map<string, Json>, g: map<string, Json>)
    requires f.Keys == g.Keys && forall k | k in f.Keys :: f[k] == g[k] <==> !Respelled(repr, f[k], g[k])
    ensures Object(f) == Object(g) <==> !Respelled(repr, Object(f), Object(g))
  {
    assert (forall k | k in f.Keys :: f[k] == g[k]) ==> f == g;
  }

  /** A value equal to what the column kept has the text of the stored one if and only if no place holds a
      number respelled. */
  lemma {:induction false} SameTextIff(repr: Repr, a: Json, b: Json)
    requires PyEqual(Kept(repr, a), b)
    ensures a == b <==> !Respelled(repr, a, b)
  {
    match (a, b)
    case (List(xs), List(ys)) =>
      forall i | 0 <= i < |xs| ensures xs[i] == ys[i] <==> !Respelled(repr, xs[i], ys[i]) {
        assert Kept(repr, a).items[i] == Kept(repr, xs[i]);
        SameTextIff(repr, xs[i], ys[i]);
      }
      SameItemTexts(repr, xs, ys);
    case (Object(f), Object(g)) =>
      assert Kept(repr, a).fields.Keys == f.Keys;
      forall k | k in f.Keys ensures f[k] == g[k] <==> !Respelled(repr, f[k], g[k]) {
        assert Kept(repr, a).fields[k] == Kept(repr, f[k]);
        SameTextIff(repr, f[k], g[k]);
      }
      SameFieldTexts(repr, f, g);
    case _ =>
  }

  // ---------- Numbers that have another spelling ----------

  /** Some place holds a number that can be written as another JSON type: a bool, an integral float, or an
      integer that is the value of a double. */
  ghost predicate Respellable(a: Json) {
    match a
    case List(xs) => exists i | 0 <= i < |xs| :: Respellable(xs[i])
    case Object(f) => exists k | k in f.Keys :: Respellable(f[k])
    case Int(n) => IsDouble(n as real)
    case Float(x) => Integral(x)
    case _ => a.IsNumber()
  }

  /** Every number in another spelling where there is one. */
  ghost function Respell(repr: Repr, a: Json): Json {
    match a
    case Bool(b) => Int(if b then 1 else 0)
    case Int(n) => if IsDouble(n as real) then Float(n as real) else a
    case Float(x) => if !WrittenOut(x) then Int(repr(x)) else if Integral(x) then Int(x.Floor) else a
    case NegativeZero => Int(0)
    case List(xs) => List(seq(|xs|, i requires 0 <= i < |xs| => Respell(repr, xs[i])))
    case Object(f) => Object(map k | k in f.Keys :: Respell(repr, f[k]))
    case _ => a
  }

  /** To Python a respelled value is what the column kept, and its text differs exactly when some number has
      another spelling. */
  lemma {:induction false} RespellIsKept(repr: Repr, a: Json)
    ensures PyEqual(Kept(repr, a), Respell(repr, a))
    ensures Respell(repr, a) != a <==> Respellable(a)
  {
    match a
    case List(xs) =>
      var ys := Respell(repr, a).items;
      forall i | 0 <= i < |xs|
        ensures PyEqual(Kept(repr, xs[i]), ys[i]) && (ys[i] != xs[i] <==> Respellable(xs[i]))
      {
        RespellIsKept(repr, xs[i]);
      }
      assert (forall i | 0 <= i < |xs| :: ys[i] == xs[i]) ==> ys == xs;
    case Object(f) =>
      var g := Respell(repr, a).fields;
      forall k | k in f.Keys ensures PyEqual(Kept(repr, f[k]), g[k]) && (g[k] != f[k] <==> Respellable(f[k])) {
        RespellIsKept(repr, f[k]);
      }
      assert (forall k | k in f.Keys :: g[k] == f[k]) ==> g == f;
    case Float(x) =>
      if !WrittenOut(x) {
        LargeIsIntegral(x);
      }
    case _ =>
  }

  lemma {:induction false} RespelledIsRespellable(repr: Repr, a: Json, b: Json)
    requires Respelled(repr, a, b)
    ensures Respellable(a)
  {
    match (a, b)
    case (List(xs), List(ys)) =>
      var i :| 0 <= i < |xs| && i < |ys| && Respelled(repr, xs[i], ys[i]);
      RespelledIsRespellable(repr, xs[i], ys[i]);
    case (Object(f), Object(g)) =>
      var k :| k in f.Keys && k in g.Keys && Respelled(repr, f[k], g[k]);
      RespelledIsRespellable(repr, f[k], g[k]);
    case _ => RespelledNumber(repr, a, b);
  }

  lemma RespelledNumber(repr: Repr, a: Json, b: Json)
    requires a.IsNumber() && b.IsNumber() && a != b && Kept(repr, a).Number() == b.Number()
    ensures Respellable(a)
  {
    match a
    case Int(n) =>
      if !b.Float? {
        SmallIntIsDouble(n);
      }
    case Float(x) =>
      if !WrittenOut(x) {
        LargeIsIntegral(x);
      } else if b.Int? {
        assert x.Floor == b.n;
      }
    case _ =>
  }
}
