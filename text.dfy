/**
 * String helpers the model needs in place of JavaScript's built-in string
 * methods: `Array.prototype.join`, `String.prototype.includes`, an ASCII
 * `toLowerCase`, decimal rendering of numbers in template literals, and a
 * fixed lexicographic order standing in for `localeCompare`.
 */
module Text {

  /** The summed lengths of `parts`. */
  function TotalLength(parts: seq<string>): nat {
    if parts == [] then 0 else |parts[0]| + TotalLength(parts[1..])
  }

  /** `parts.join(sep)`: the parts in order, one separator between each two neighbours. */
  function Join(parts: seq<string>, sep: string): (r: string)
    ensures |parts| >= 1 ==> |r| == TotalLength(parts) + (|parts| - 1) * |sep|
  {
    if |parts| == 0 then ""
    else if |parts| == 1 then parts[0]
    else
      assert (|parts| - 1) * |sep| == (|parts[1..]| - 1) * |sep| + |sep|;
      parts[0] + sep + Join(parts[1..], sep)
  }

  /** Every part of a non-empty list shows up inside the joined text. */
  lemma {:induction false} JoinContainsPart(parts: seq<string>, sep: string, k: nat)
    requires k < |parts|
    ensures Contains(Join(parts, sep), parts[k])
  {
    if |parts| == 1 {
      ContainsSelf(parts[0]);
    } else if k == 0 {
      ContainsSelf(parts[0]);
      ContainsPrefixExtends(parts[0], sep + Join(parts[1..], sep), parts[0]);
      assert parts[0] + sep + Join(parts[1..], sep) == parts[0] + (sep + Join(parts[1..], sep));
    } else {
      JoinContainsPart(parts[1..], sep, k - 1);
      ContainsSuffixExtends(parts[0] + sep, Join(parts[1..], sep), parts[k]);
    }
  }

  predicate IsPrefix(t: string, s: string) {
    |t| <= |s| && s[..|t|] == t
  }

  /** `s.includes(t)`: `t` occurs somewhere inside `s`. */
  predicate Contains(s: string, t: string): (r: bool)
    ensures r ==> |t| <= |s|
    ensures t == [] ==> r
    decreases |s|
  {
    IsPrefix(t, s) || (|s| > 0 && Contains(s[1..], t))
  }

  /** `t` occurs in `s` starting at position `i`. */
  predicate OccursAt(s: string, t: string, i: int) {
    0 <= i <= |s| - |t| && s[i..i + |t|] == t
  }

  /** `Contains` agrees with the positional definition of an occurrence. */
  lemma {:induction false} ContainsIffOccurrence(s: string, t: string)
    ensures Contains(s, t) <==> exists i :: OccursAt(s, t, i)
    decreases |s|
  {
    if IsPrefix(t, s) {
      assert OccursAt(s, t, 0);
    } else if |s| > 0 {
      ContainsIffOccurrence(s[1..], t);
      if exists i :: OccursAt(s, t, i) {
        var i :| OccursAt(s, t, i);
        assert i != 0;
        assert s[1..][i - 1..i - 1 + |t|] == s[i..i + |t|];
        assert OccursAt(s[1..], t, i - 1);
      }
      if Contains(s[1..], t) {
        var i :| OccursAt(s[1..], t, i);
        assert s[i + 1..i + 1 + |t|] == s[1..][i..i + |t|];
        assert OccursAt(s, t, i + 1);
      }
    } else {
      assert |t| > 0;
      assert forall i :: !OccursAt(s, t, i);
    }
  }

  /** Nothing longer than `s` occurs in `s`. */
  lemma {:induction false} ContainsLonger(s: string, t: string)
    requires |t| > |s|
    ensures !Contains(s, t)
    decreases |s|
  {
    if |s| > 0 {
      ContainsLonger(s[1..], t);
    }
  }

  lemma ContainsSelf(s: string)
    ensures Contains(s, s)
  {
    assert IsPrefix(s, s);
  }

  lemma {:induction false} ContainsPrefixExtends(s: string, u: string, t: string)
    requires Contains(s, t)
    ensures Contains(s + u, t)
    decreases |s|
  {
    if IsPrefix(t, s) {
      assert (s + u)[..|t|] == s[..|t|];
    } else {
      ContainsPrefixExtends(s[1..], u, t);
      assert (s + u)[1..] == s[1..] + u;
    }
  }

  lemma {:induction false} ContainsSuffixExtends(u: string, s: string, t: string)
    requires Contains(s, t)
    ensures Contains(u + s, t)
    decreases |u|
  {
    if u == [] {
      assert u + s == s;
    } else {
      ContainsSuffixExtends(u[1..], s, t);
      assert (u + s)[1..] == u[1..] + s;
    }
  }

  /** `toLowerCase` on one character, restricted to ASCII letters. */
  function LowerChar(c: char): (r: char)
    ensures 'A' <= c <= 'Z' ==> r as int == c as int + 32
    ensures !('A' <= c <= 'Z') ==> r == c
    ensures !('A' <= r <= 'Z')
  {
    if 'A' <= c <= 'Z' then (c as int + 32) as char else c
  }

  /** `toLowerCase`, restricted to ASCII letters; everything else is kept. */
  function Lower(s: string): (r: string)
    ensures |r| == |s|
    ensures forall i :: 0 <= i < |s| ==> r[i] == LowerChar(s[i])
  {
    if s == [] then [] else [LowerChar(s[0])] + Lower(s[1..])
  }

  /** Lower-casing twice is lower-casing once. */
  lemma LowerIdempotent(s: string)
    ensures Lower(Lower(s)) == Lower(s)
  {
    assert forall i :: 0 <= i < |s| ==> Lower(Lower(s))[i] == Lower(s)[i];
  }

  predicate IsDigit(c: char) {
    '0' <= c <= '9'
  }

  function DigitOf(c: char): (d: nat)
    requires IsDigit(c)
    ensures d < 10
  {
    c as int - '0' as int
  }

  function DigitChar(d: nat): (c: char)
    requires d < 10
    ensures IsDigit(c) && DigitOf(c) == d
  {
    (d + '0' as int) as char
  }

  /** The decimal text a template literal gives for a non-negative integer. */
  function NatToString(n: nat): (r: string)
    ensures |r| >= 1
    ensures forall i :: 0 <= i < |r| ==> IsDigit(r[i])
    ensures r[0] == '0' ==> n == 0
  {
    if n < 10 then [DigitChar(n)] else NatToString(n / 10) + [DigitChar(n % 10)]
  }

  /** The number a string of decimal digits denotes. */
  function DigitsValue(s: string): nat
    requires forall i :: 0 <= i < |s| ==> IsDigit(s[i])
  {
    if s == [] then 0
    else DigitsValue(s[..|s| - 1]) * 10 + DigitOf(s[|s| - 1])
  }

  /** Rendering a number in decimal loses nothing: reading it back gives the number. */
  lemma {:induction false} NatToStringRoundTrip(n: nat)
    ensures DigitsValue(NatToString(n)) == n
  {
    if n >= 10 {
      var r := NatToString(n);
      NatToStringRoundTrip(n / 10);
      assert r[..|r| - 1] == NatToString(n / 10);
    }
  }

  /** Rendering is one-to-one: different numbers give different texts. */
  lemma NatToStringInjective(m: nat, n: nat)
    requires NatToString(m) == NatToString(n)
    ensures m == n
  {
    NatToStringRoundTrip(m);
    NatToStringRoundTrip(n);
  }

  /** Lexicographic order on code points, standing in for `localeCompare(...) <= 0`. */
  predicate TextLe(a: string, b: string): (r: bool)
    ensures IsPrefix(a, b) ==> r
    ensures r && |a| > 0 ==> |b| > 0 && a[0] <= b[0]
    ensures |a| > 0 && |b| > 0 && a[0] != b[0] ==> (r <==> a[0] < b[0])
    decreases |a|
  {
    a == [] || (b != [] && (a[0] < b[0] || (a[0] == b[0] && TextLe(a[1..], b[1..]))))
  }

  lemma {:induction false} TextLeTotal(a: string, b: string)
    ensures TextLe(a, b) || TextLe(b, a)
    decreases |a|
  {
    if a != [] && b != [] && a[0] == b[0] {
      TextLeTotal(a[1..], b[1..]);
    }
  }

  lemma {:induction false} TextLeTransitive(a: string, b: string, c: string)
    requires TextLe(a, b) && TextLe(b, c)
    ensures TextLe(a, c)
    decreases |a|
  {
    if a != [] && b != [] && c != [] && a[0] == b[0] && b[0] == c[0] {
      TextLeTransitive(a[1..], b[1..], c[1..]);
    }
  }

  lemma {:induction false} TextLeAntisymmetric(a: string, b: string)
    requires TextLe(a, b) && TextLe(b, a)
    ensures a == b
    decreases |a|
  {
    if a != [] && b != [] {
      TextLeAntisymmetric(a[1..], b[1..]);
      assert a == [a[0]] + a[1..];
      assert b == [b[0]] + b[1..];
    }
  }
}
