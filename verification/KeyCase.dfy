/** How a key is renamed between the API's snake_case and the browser's camelCase. */
module KeyCase {
  predicate IsLower(c: char) {
    'a' <= c <= 'z'
  }

  predicate IsUpper(c: char) {
    'A' <= c <= 'Z'
  }

  predicate IsDigit(c: char) {
    '0' <= c <= '9'
  }

  function ToUpper(c: char): char {
    if IsLower(c) then (c as int - 32) as char else c
  }

  function ToLower(c: char): char {
    if IsUpper(c) then (c as int + 32) as char else c
  }

  /** Whether /_([a-z0-9])/ matches at the start. */
  predicate Matches(s: string) {
    |s| >= 2 && s[0] == '_' && (IsLower(s[1]) || IsDigit(s[1]))
  }

  function SnakeToCamel(s: string): string {
    if s == "" then ""
    else if Matches(s) then [ToUpper(s[1])] + SnakeToCamel(s[2..])
    else [s[0]] + SnakeToCamel(s[1..])
  }

  function CamelToSnake(s: string): string {
    if s == "" then ""
    else if IsUpper(s[0]) then ['_', ToLower(s[0])] + CamelToSnake(s[1..])
    else [s[0]] + CamelToSnake(s[1..])
  }

  // ---------- What in a key stands in the way ----------

  predicate HasUpper(s: string) {
    exists i :: 0 <= i < |s| && IsUpper(s[i])
  }

  /** An underscore right before a digit. */
  predicate HasUnderscoreDigit(s: string) {
    exists i :: 0 <= i < |s| - 1 && s[i] == '_' && IsDigit(s[i + 1])
  }

  /** An underscore right before a lowercase letter or a digit. */
  predicate HasSnakeStep(s: string) {
    exists i :: 0 <= i < |s| - 1 && Matches(s[i..])
  }

  predicate TwoUnderscoresDigitAt(s: string, i: int) {
    0 <= i < |s| - 2 && s[i] == '_' && s[i + 1] == '_' && IsDigit(s[i + 2])
  }

  /** Two underscores right before a digit. */
  predicate HasTwoUnderscoresDigit(s: string) {
    exists i :: 0 <= i < |s| && TwoUnderscoresDigitAt(s, i)
  }

  // ---------- Snake to camel and back ----------

  lemma {:induction false} SnakeHasNoUpper(s: string)
    ensures !HasUpper(CamelToSnake(s))
  {
    if s == "" {
    } else {
      SnakeHasNoUpper(s[1..]);
      var rest, r := CamelToSnake(s[1..]), CamelToSnake(s);
      var n := |r| - |rest|;
      forall i | 0 <= i < |r| ensures !IsUpper(r[i]) {
        if i >= n {
          assert r[i] == rest[i - n];
        }
      }
    }
  }

  lemma {:induction false} RoundTripWithoutUpper(s: string)
    requires !HasUpper(s)
    ensures |CamelToSnake(SnakeToCamel(s))| <= |s|
    ensures CamelToSnake(SnakeToCamel(s)) == s <==> !HasUnderscoreDigit(s)
    ensures HasUnderscoreDigit(s) ==> |CamelToSnake(SnakeToCamel(s))| < |s|
  {
    if s == "" {
    } else {
      var k := if Matches(s) then 2 else 1;
      var rest := s[k..];
      forall i | 0 <= i < |rest| ensures !IsUpper(rest[i]) {
        assert rest[i] == s[k + i];
      }
      RoundTripWithoutUpper(rest);
      UnderscoreDigitAtOrAfter(s, k);
      assert s == s[..k] + rest;
      if Matches(s) {
        assert !IsUpper(s[0]) && SnakeToCamel(s)[1..] == SnakeToCamel(rest);
        assert CamelToSnake(SnakeToCamel(s))
               == (if IsDigit(s[1]) then [s[1]] else ['_', s[1]]) + CamelToSnake(SnakeToCamel(rest));
      } else {
        assert SnakeToCamel(s)[1..] == SnakeToCamel(rest);
        assert CamelToSnake(SnakeToCamel(s)) == [s[0]] + CamelToSnake(SnakeToCamel(rest));
      }
    }
  }

  lemma UnderscoreDigitAtOrAfter(s: string, k: nat)
    requires 1 <= k <= |s| && (k == 2 ==> Matches(s)) && (k == 1 ==> !Matches(s)) && k <= 2
    ensures HasUnderscoreDigit(s) <==> (k == 2 && IsDigit(s[1])) || HasUnderscoreDigit(s[k..])
  {
    var rest := s[k..];
    if HasUnderscoreDigit(rest) {
      var i :| 0 <= i < |rest| - 1 && rest[i] == '_' && IsDigit(rest[i + 1]);
      assert s[k + i] == '_' && IsDigit(s[k + i + 1]);
    }
    if HasUnderscoreDigit(s) {
      var i :| 0 <= i < |s| - 1 && s[i] == '_' && IsDigit(s[i + 1]);
      if i >= k {
        assert rest[i - k] == '_' && IsDigit(rest[i - k + 1]);
      }
    }
  }

  /** A key comes back from camelCase exactly when it has no uppercase letter and no underscore before a
      digit. */
  lemma SnakeRoundTripIff(s: string)
    ensures CamelToSnake(SnakeToCamel(s)) == s <==> !HasUpper(s) && !HasUnderscoreDigit(s)
  {
    SnakeHasNoUpper(SnakeToCamel(s));
    if !HasUpper(s) {
      RoundTripWithoutUpper(s);
    }
  }

  // ---------- Camel to snake and back ----------

  lemma {:induction false} CamelRoundTrip(s: string)
    ensures |SnakeToCamel(CamelToSnake(s))| <= |s|
    ensures !HasSnakeStep(s) ==> SnakeToCamel(CamelToSnake(s)) == s
    ensures HasSnakeStep(s) ==> |SnakeToCamel(CamelToSnake(s))| < |s|
  {
    if s == "" {
    } else {
      var snake := CamelToSnake(s);
      if IsUpper(s[0]) {
        CamelRoundTrip(s[1..]);
        SnakeStepAfter(s, 1);
        assert snake[2..] == CamelToSnake(s[1..]);
        assert s == [s[0]] + s[1..];
      } else if Matches(s) {
        CamelRoundTrip(s[2..]);
        assert s[0..] == s && HasSnakeStep(s);
        assert s[1..][1..] == s[2..];
        assert CamelToSnake(s[1..]) == [s[1]] + CamelToSnake(s[2..]);
        assert snake == ['_', s[1]] + CamelToSnake(s[2..]);
        assert snake[2..] == CamelToSnake(s[2..]);
      } else {
        CamelRoundTrip(s[1..]);
        SnakeStepAfter(s, 1);
        assert snake[1..] == CamelToSnake(s[1..]);
        assert !Matches(snake);
        assert s == [s[0]] + s[1..];
      }
    }
  }

  lemma SnakeStepAfter(s: string, k: nat)
    requires k == 1 <= |s| && !Matches(s)
    ensures HasSnakeStep(s) <==> HasSnakeStep(s[1..])
  {
    if HasSnakeStep(s) {
      var i :| 0 <= i < |s| - 1 && Matches(s[i..]);
      assert s[0..] == s;
      assert s[1..][i - 1..] == s[i..];
    }
    if HasSnakeStep(s[1..]) {
      var i :| 0 <= i < |s[1..]| - 1 && Matches(s[1..][i..]);
      assert s[1..][i..] == s[i + 1..];
    }
  }

  /** A key comes back from snake_case exactly when no underscore in it precedes a lowercase letter or a
      digit. */
  lemma CamelRoundTripIff(s: string)
    ensures SnakeToCamel(CamelToSnake(s)) == s <==> !HasSnakeStep(s)
  {
    CamelRoundTrip(s);
  }

  // ---------- Camel twice ----------

  lemma {:induction false} CamelOnce(s: string)
    ensures |SnakeToCamel(s)| <= |s|
    ensures SnakeToCamel(s) == s <==> !HasSnakeStep(s)
    ensures HasSnakeStep(s) ==> |SnakeToCamel(s)| < |s|
  {
    if s == "" {
    } else {
      if Matches(s) {
        CamelOnce(s[2..]);
        assert s[0..] == s && HasSnakeStep(s);
      } else {
        CamelOnce(s[1..]);
        SnakeStepAfter(s, 1);
        assert s == [s[0]] + s[1..];
      }
    }
  }

  /** What renaming leaves for a second renaming: a digit that two underscores preceded. */
  lemma {:induction false} StepsLeft(s: string)
    ensures HasSnakeStep(SnakeToCamel(s)) <==> HasTwoUnderscoresDigit(s)
  {
    if s == "" {
    } else {
      var camel := SnakeToCamel(s);
      if Matches(s) {
        StepsLeft(s[2..]);
        assert camel[1..] == SnakeToCamel(s[2..]);
        SnakeStepAfter(camel, 1);
        TwoUnderscoresAfter(s, 2);
      } else {
        StepsLeft(s[1..]);
        assert camel[1..] == SnakeToCamel(s[1..]);
        if TwoUnderscoresDigitAt(s, 0) {
          assert Matches(s[1..]);
          assert camel[1] == s[2];
          assert camel[0..] == camel && Matches(camel);
        } else {
          TwoUnderscoresAfter(s, 1);
          SnakeStepAfter(camel, 1);
        }
      }
    }
  }

  lemma TwoUnderscoresAfter(s: string, k: nat)
    requires 1 <= k <= 2 && k <= |s| && (k == 2 ==> Matches(s)) && (k == 1 ==> !TwoUnderscoresDigitAt(s, 0))
    ensures HasTwoUnderscoresDigit(s) <==> HasTwoUnderscoresDigit(s[k..])
  {
    var rest := s[k..];
    if HasTwoUnderscoresDigit(s) {
      var i :| 0 <= i < |s| && TwoUnderscoresDigitAt(s, i);
      assert TwoUnderscoresDigitAt(rest, i - k);
    }
    if HasTwoUnderscoresDigit(rest) {
      var i :| 0 <= i < |rest| && TwoUnderscoresDigitAt(rest, i);
      assert TwoUnderscoresDigitAt(s, i + k);
    }
  }

  /** Renaming twice, as a response that passes the backend-for-frontend and then the browser is, equals
      renaming once exactly when no digit in the key follows two underscores. */
  lemma CamelTwiceIff(s: string)
    ensures SnakeToCamel(SnakeToCamel(s)) == SnakeToCamel(s) <==> !HasTwoUnderscoresDigit(s)
  {
    CamelOnce(SnakeToCamel(s));
    StepsLeft(s);
  }
}
