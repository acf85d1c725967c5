/**
 * The few JavaScript semantics the walker leans on: case-insensitive
 * regular-expression tests on a node's `type`, truthiness of leaf fields,
 * and `Array.prototype.join`.
 */
module Js {

  /**
   * Case folding of a case-insensitive, non-Unicode regular expression.
   * Such a pattern never folds a non-ASCII character onto an ASCII one, so
   * folding the ASCII capitals is all there is to it for the ASCII patterns
   * the walker uses; the same holds for `toLowerCase() === 'operation'`.
   */
  function Lower(c: char): char {
    if 'A' <= c <= 'Z' then (c as int + 32) as char else c
  }

  function LowerAll(s: string): (r: string)
    ensures |r| == |s|
    ensures forall i :: 0 <= i < |s| ==> r[i] == Lower(s[i])
  {
    if |s| == 0 then "" else [Lower(s[0])] + LowerAll(s[1..])
  }

  /** `pattern` occurs, case-insensitively, in `s` starting at index `i`. */
  ghost predicate OccursAt(pattern: string, s: string, i: int) {
    0 <= i && i + |pattern| <= |s| && LowerAll(s[i..i + |pattern|]) == pattern
  }

  /** `/pattern/i.test(s)` for a pattern made of lower-case letters. */
  predicate Test(pattern: string, s: string)
    decreases |s|
  {
    |pattern| <= |s| && (LowerAll(s[..|pattern|]) == pattern || Test(pattern, s[1..]))
  }

  /** The regular-expression test succeeds exactly when the pattern occurs somewhere. */
  lemma {:induction false} TestFindsOccurrence(pattern: string, s: string)
    ensures Test(pattern, s) <==> exists i :: OccursAt(pattern, s, i)
    decreases |s|
  {
    if |pattern| <= |s| {
      assert s[..|pattern|] == s[0..0 + |pattern|];
      if LowerAll(s[..|pattern|]) == pattern {
        assert OccursAt(pattern, s, 0);
      } else {
        TestFindsOccurrence(pattern, s[1..]);
        if Test(pattern, s[1..]) {
          var i :| OccursAt(pattern, s[1..], i);
          assert s[1..][i..i + |pattern|] == s[i + 1..i + 1 + |pattern|];
          assert OccursAt(pattern, s, i + 1);
        }
        if i :| OccursAt(pattern, s, i) {
          assert i > 0;
          assert s[1..][i - 1..i - 1 + |pattern|] == s[i..i + |pattern|];
          assert OccursAt(pattern, s[1..], i - 1);
        }
      }
    }
  }

  /** A leaf field as JavaScript sees it: absent, a string or an (integral) number. */
  datatype Prop = Missing | Str(s: string) | Num(n: int)

  /** JavaScript truthiness: `undefined`, `''` and `0` are falsy. */
  predicate Truthy(p: Prop) {
    match p
    case Missing => false
    case Str(s) => s != ""
    case Num(n) => n != 0
  }

  function Digit(d: nat): char
    requires d < 10
  {
    "0123456789"[d]
  }

  /**
   * Decimal digits of a natural number. JavaScript's `String(n)` prints the
   * same digits for the integers a number can hold exactly below 10^21.
   */
  function Digits(n: nat): (r: string)
    ensures |r| > 0
    ensures forall i :: 0 <= i < |r| ==> '0' <= r[i] <= '9'
    decreases n
  {
    if n < 10 then [Digit(n)] else Digits(n / 10) + [Digit(n % 10)]
  }

  /** The number a string of decimal digits denotes. */
  function DigitsValue(s: string): nat
    requires forall i :: 0 <= i < |s| ==> '0' <= s[i] <= '9'
  {
    if |s| == 0 then 0 else 10 * DigitsValue(s[..|s| - 1]) + (s[|s| - 1] as int - '0' as int)
  }

  /** Printing a number and reading it back gives the number. */
  lemma {:induction false} DigitsRoundTrip(n: nat)
    ensures DigitsValue(Digits(n)) == n
    decreases n
  {
    if n >= 10 {
      DigitsRoundTrip(n / 10);
      var r := Digits(n);
      assert r[..|r| - 1] == Digits(n / 10);
    }
  }

  /**
   * `String(p)` as `Array.prototype.join` applies it: `undefined` prints as
   * the empty string, and an integer in plain decimal.
   */
  function Render(p: Prop): string {
    match p
    case Missing => ""
    case Str(s) => s
    case Num(n) => if n < 0 then "-" + Digits(-n) else Digits(n)
  }

  function RenderAll(ps: seq<Prop>): (r: seq<string>)
    ensures |r| == |ps|
    ensures forall i :: 0 <= i < |ps| ==> r[i] == Render(ps[i])
  {
    if |ps| == 0 then [] else [Render(ps[0])] + RenderAll(ps[1..])
  }

  /** `parts.join(sep)`. */
  function Join(parts: seq<string>, sep: string): string {
    if |parts| == 0 then ""
    else if |parts| == 1 then parts[0]
    else parts[0] + sep + Join(parts[1..], sep)
  }

  /**
   * Joining two non-empty lists one after the other is joining each of them
   * and putting one separator in between: every part appears whole, in
   * order, with exactly one separator between neighbours.
   */
  lemma {:induction false} JoinAppend(a: seq<string>, b: seq<string>, sep: string)
    requires |a| > 0 && |b| > 0
    ensures Join(a + b, sep) == Join(a, sep) + sep + Join(b, sep)
  {
    assert (a + b)[0] == a[0];
    if |a| == 1 {
      assert (a + b)[1..] == b;
    } else {
      assert (a + b)[1..] == a[1..] + b;
      JoinAppend(a[1..], b, sep);
      assert Join(a + b, sep) == a[0] + sep + (Join(a[1..], sep) + sep + Join(b, sep));
    }
  }

  /** A join is as long as all the parts together plus one separator between each two parts. */
  lemma {:induction false} JoinLength(parts: seq<string>, sep: string)
    ensures |Join(parts, sep)| == TotalLength(parts) + (if |parts| == 0 then 0 else (|parts| - 1) * |sep|)
  {
    if |parts| > 1 {
      JoinLength(parts[1..], sep);
    }
  }

  function TotalLength(parts: seq<string>): nat {
    if |parts| == 0 then 0 else |parts[0]| + TotalLength(parts[1..])
  }
}
