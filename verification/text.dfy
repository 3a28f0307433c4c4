/**
 * Character-level helpers shared by the request validators and filters:
 * digit strings and their values, the string order the store uses when it
 * compares text, substring search and ASCII case folding.
 */
module Text {

  predicate IsDigit(c: char) { '0' <= c <= '9' }

  predicate IsHexDigit(c: char) {
    IsDigit(c) || 'a' <= c <= 'f' || 'A' <= c <= 'F'
  }

  /** Every character of s[lo..hi] is a decimal digit. */
  predicate DigitsAt(s: string, lo: int, hi: int)
    requires 0 <= lo <= hi <= |s|
  {
    forall i :: lo <= i < hi ==> IsDigit(s[i])
  }

  predicate HexDigitsAt(s: string, lo: int, hi: int)
    requires 0 <= lo <= hi <= |s|
  {
    forall i :: lo <= i < hi ==> IsHexDigit(s[i])
  }

  predicate AllDigits(s: string) { DigitsAt(s, 0, |s|) }

  /** The `uuid` shape: 8-4-4-4-12 hexadecimal digits separated by dashes. */
  predicate IsUuid(s: string) {
    |s| == 36 && s[8] == '-' && s[13] == '-' && s[18] == '-' && s[23] == '-' &&
    HexDigitsAt(s, 0, 8) && HexDigitsAt(s, 9, 13) && HexDigitsAt(s, 14, 18) &&
    HexDigitsAt(s, 19, 23) && HexDigitsAt(s, 24, 36)
  }

  function DigitValue(c: char): (v: nat)
    requires IsDigit(c)
    ensures v < 10
  {
    c as int - '0' as int
  }

  function Pow10(n: nat): (p: nat)
    ensures p >= 1
  {
    if n == 0 then 1 else 10 * Pow10(n - 1)
  }

  /** The value of a decimal digit string, most significant digit first. */
  function Number(s: string): (v: nat)
    requires AllDigits(s)
    ensures v < Pow10(|s|)
  {
    if s == [] then 0
    else
      var n := |s| - 1;
      assert AllDigits(s[..n]) by {
        forall i | 0 <= i < n ensures IsDigit(s[..n][i]) {
          assert s[..n][i] == s[i];
        }
      }
      10 * Number(s[..n]) + DigitValue(s[n])
  }

  lemma NumberOfTwo(s: string)
    requires AllDigits(s) && |s| == 2
    ensures Number(s) == 10 * DigitValue(s[0]) + DigitValue(s[1])
  {
    assert s[..1][..0] == [] && s[..1][0] == s[0];
  }

  lemma NumberOfFour(s: string)
    requires AllDigits(s) && |s| == 4
    ensures Number(s) == 1000 * DigitValue(s[0]) + 100 * DigitValue(s[1]) + 10 * DigitValue(s[2]) + DigitValue(s[3])
  {
    var t := s[..3];
    assert t[..2] == s[..2] && t[2] == s[2];
    NumberOfTwo(s[..2]);
  }

  /**
   * Text order: `a` sorts at or before `b`, comparing code points from the
   * left, a proper prefix first.
   */
  predicate LexLe(a: string, b: string)
  {
    a == [] || (b != [] && (a[0] < b[0] || (a[0] == b[0] && LexLe(a[1..], b[1..]))))
  }

  lemma LexLeReflexive(a: string)
    ensures LexLe(a, a)
  {
  }

  /** Two text blocks of equal length decide the comparison unless they are equal. */
  lemma {:induction false} LexConcat(p: string, x: string, q: string, y: string)
    requires |p| == |q|
    ensures LexLe(p + x, q + y) <==> if p == q then LexLe(x, y) else LexLe(p, q)
  {
    if p != [] {
      assert (p + x)[0] == p[0] && (p + x)[1..] == p[1..] + x;
      assert (q + y)[0] == q[0] && (q + y)[1..] == q[1..] + y;
      LexConcat(p[1..], x, q[1..], y);
      if p[0] == q[0] && p[1..] == q[1..] {
        assert p == [p[0]] + p[1..] && q == [q[0]] + q[1..];
      }
    } else {
      assert p + x == x && q + y == y;
    }
  }

  /**
   * Over digit strings of one length, text order is numeric order and equal
   * text is an equal value (the reason fixed-width dates compare correctly
   * as text).
   */
  lemma {:induction false} LexIsNumeric(a: string, b: string)
    requires AllDigits(a) && AllDigits(b) && |a| == |b|
    ensures LexLe(a, b) <==> Number(a) <= Number(b)
    ensures a == b <==> Number(a) == Number(b)
  {
    if a != [] {
      var n := |a| - 1;
      assert a == a[..n] + [a[n]] && b == b[..n] + [b[n]];
      LexIsNumeric(a[..n], b[..n]);
      LexConcat(a[..n], [a[n]], b[..n], [b[n]]);
      assert [a[n]][1..] == [] && [b[n]][1..] == [];
      assert LexLe([a[n]], [b[n]]) <==> a[n] <= b[n];
    }
  }

  /** A block followed by a shared separator decides the comparison unless the blocks are equal. */
  lemma LexBlockThenSeparator(p: string, c: char, x: string, q: string, y: string)
    requires |p| == |q|
    ensures LexLe(p + [c] + x, q + [c] + y) <==> if p == q then LexLe(x, y) else LexLe(p, q)
  {
    assert p + [c] + x == p + ([c] + x) && q + [c] + y == q + ([c] + y);
    LexConcat(p, [c] + x, q, [c] + y);
    assert ([c] + x)[1..] == x && ([c] + y)[1..] == y;
  }



  predicate StartsWith(s: string, prefix: string) {
    |prefix| <= |s| && s[..|prefix|] == prefix
  }

  /** `t` occurs in `s` starting at index `i`. */
  predicate OccursAt(s: string, t: string, i: int) {
    0 <= i && i + |t| <= |s| && s[i..i + |t|] == t
  }

  /** `t` occurs in `s` as a contiguous piece. */
  predicate Contains(s: string, t: string) {
    exists i :: 0 <= i <= |s| && OccursAt(s, t, i)
  }

  lemma OccursInLeft(a: string, c: char, b: string, t: string, i: int)
    requires OccursAt(a, t, i)
    ensures OccursAt(a + [c] + b, t, i)
  {
    var s := a + [c] + b;
    assert s[..|a|] == a;
    assert s[i..i + |t|] == s[..|a|][i..i + |t|];
  }

  lemma OccursInRight(a: string, c: char, b: string, t: string, j: int)
    requires OccursAt(b, t, j)
    ensures OccursAt(a + [c] + b, t, |a| + 1 + j)
  {
    var s := a + [c] + b;
    var k := |a| + 1 + j;
    assert s[|a| + 1..] == b;
    assert s[k..k + |t|] == s[|a| + 1..][j..j + |t|];
  }

  /** An occurrence that straddles position |a| contains the character there. */
  lemma StraddleMeetsSeparator(a: string, sep: char, b: string, t: string, i: int)
    requires OccursAt(a + [sep] + b, t, i) && i <= |a| < i + |t|
    ensures sep in t
  {
    var s := a + [sep] + b;
    assert s[i..i + |t|][|a| - i] == s[|a|];
  }

  lemma OccursAroundSeparator(a: string, sep: char, b: string, t: string, i: int)
    requires sep !in t && OccursAt(a + [sep] + b, t, i)
    ensures Contains(a, t) || Contains(b, t)
  {
    var s := a + [sep] + b;
    if i + |t| <= |a| {
      assert s[..|a|] == a;
      assert a[i..i + |t|] == s[..|a|][i..i + |t|];
      assert OccursAt(a, t, i);
    } else if i > |a| {
      var j := i - |a| - 1;
      assert s[|a| + 1..] == b;
      assert s[i..i + |t|] == s[|a| + 1..][j..j + |t|];
      assert OccursAt(b, t, j);
    } else {
      StraddleMeetsSeparator(a, sep, b, t, i);
    }
  }

  /**
   * A piece that avoids the character `sep` occurs around a `sep` only if it
   * occurs on one side of it.
   */
  lemma ContainsAroundSeparator(a: string, sep: char, b: string, t: string)
    requires sep !in t
    ensures Contains(a + [sep] + b, t) <==> Contains(a, t) || Contains(b, t)
  {
    var s := a + [sep] + b;
    if Contains(s, t) {
      var i :| 0 <= i <= |s| && OccursAt(s, t, i);
      OccursAroundSeparator(a, sep, b, t, i);
    }
    if Contains(a, t) {
      var i :| 0 <= i <= |a| && OccursAt(a, t, i);
      OccursInLeft(a, sep, b, t, i);
    }
    if Contains(b, t) {
      var j :| 0 <= j <= |b| && OccursAt(b, t, j);
      OccursInRight(a, sep, b, t, j);
    }
  }

  /** ASCII lower-casing, the folding a case-insensitive match applies. */
  function LowerChar(c: char): char {
    if 'A' <= c <= 'Z' then (c as int + 32) as char else c
  }

  function UpperChar(c: char): char {
    if 'a' <= c <= 'z' then (c as int - 32) as char else c
  }

  function Lower(s: string): (r: string)
    ensures |r| == |s| && forall i :: 0 <= i < |s| ==> r[i] == LowerChar(s[i])
  {
    seq(|s|, i requires 0 <= i < |s| => LowerChar(s[i]))
  }

  function Upper(s: string): (r: string)
    ensures |r| == |s| && forall i :: 0 <= i < |s| ==> r[i] == UpperChar(s[i])
  {
    seq(|s|, i requires 0 <= i < |s| => UpperChar(s[i]))
  }

  /** `t` occurs in `s` ignoring ASCII case (an `ilike '%t%'` match). */
  predicate ContainsIgnoringCase(s: string, t: string) {
    Contains(Lower(s), Lower(t))
  }
}
