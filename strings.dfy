/**
 * The string primitives of the JavaScript runtime that the bot relies on:
 * `trim()`, `split()` on a one-character separator, and the decimal
 * rendering of an integer inside a template literal.
 *
 * White space is modelled as the six ASCII white-space characters; the
 * Unicode white space that JavaScript's `trim()` and `\s` also accept is
 * not modelled.
 */
module Strings {
  import opened Optional

  /** ASCII white space: space, tab, line feed, vertical tab, form feed, carriage return. */
  predicate IsSpace(c: char) {
    c == ' ' || c == '\t' || c == '\n' || c == '\U{000B}' || c == '\U{000C}' || c == '\r'
  }

  /** The regular-expression class `\d`: an ASCII decimal digit. */
  predicate IsDigit(c: char) {
    '0' <= c <= '9'
  }

  predicate AllSpace(s: string) {
    forall i :: 0 <= i < |s| ==> IsSpace(s[i])
  }

  predicate AllDigits(s: string) {
    forall i :: 0 <= i < |s| ==> IsDigit(s[i])
  }

  // ---------------------------------------------------------------- trim

  /** The number of white-space characters `s` starts with. */
  function LeadingSpace(s: string): (n: nat)
    ensures n <= |s| && (n < |s| ==> !IsSpace(s[n]))
    ensures forall k :: 0 <= k < n ==> IsSpace(s[k])
  {
    if s != [] && IsSpace(s[0]) then 1 + LeadingSpace(s[1..]) else 0
  }

  /** The number of white-space characters `s` ends with. */
  function TrailingSpace(s: string): (n: nat)
    ensures n <= |s| && (n < |s| ==> !IsSpace(s[|s| - n - 1]))
    ensures forall k :: |s| - n <= k < |s| ==> IsSpace(s[k])
  {
    if s != [] && IsSpace(s[|s| - 1]) then 1 + TrailingSpace(s[..|s| - 1]) else 0
  }

  /**
   * `String.prototype.trim`: what is left of `s` between its leading and
   * its trailing white space.
   */
  function Trim(s: string): (r: string)
    ensures r == [] || (!IsSpace(r[0]) && !IsSpace(r[|r| - 1]))
  {
    var i := LeadingSpace(s);
    if i == |s| then [] else s[i..|s| - TrailingSpace(s)]
  }

  /** Trimming a string that has no white space at either end changes nothing. */
  lemma TrimOfTrimmed(s: string)
    requires s == [] || (!IsSpace(s[0]) && !IsSpace(s[|s| - 1]))
    ensures Trim(s) == s
  {
    if s != [] {
      assert LeadingSpace(s) == 0 && TrailingSpace(s) == 0;
      assert s[0..|s|] == s;
    }
  }

  /** Trimming twice is trimming once. */
  lemma TrimIdempotent(s: string)
    ensures Trim(Trim(s)) == Trim(s)
  {
    TrimOfTrimmed(Trim(s));
  }

  /**
   * Trimming removes white space and nothing else: the text is the trimmed
   * text with only white space before and after it. With the ends of the
   * result not being white space, this fixes what `trim` returns.
   */
  lemma TrimStrips(s: string)
    ensures exists pre, post :: s == pre + Trim(s) + post && AllSpace(pre) && AllSpace(post)
  {
    var i := LeadingSpace(s);
    if i == |s| {
      assert s == s + Trim(s) + [];
      assert AllSpace(s) && AllSpace([]);
    } else {
      var j := |s| - TrailingSpace(s);
      SpaceAround(s, i, j);
      assert Trim(s) == s[i..j];
    }
  }

  /** A string is its middle with the white space before and after it. */
  lemma SpaceAround(s: string, i: nat, j: nat)
    requires i <= j <= |s|
    requires forall k :: 0 <= k < i ==> IsSpace(s[k])
    requires forall k :: j <= k < |s| ==> IsSpace(s[k])
    ensures s == s[..i] + s[i..j] + s[j..] && AllSpace(s[..i]) && AllSpace(s[j..])
  {
    assert AllSpace(s[j..]) by {
      forall k | 0 <= k < |s| - j ensures IsSpace(s[j..][k]) { assert s[j..][k] == s[j + k]; }
    }
  }

  /** A string trims to nothing exactly when it is all white space. */
  lemma TrimEmptyIffAllSpace(s: string)
    ensures Trim(s) == [] <==> AllSpace(s)
  {
    var i := LeadingSpace(s);
    if i < |s| {
      assert |s| - TrailingSpace(s) > i;
      assert Trim(s)[0] == s[i];
    }
  }

  // ---------------------------------------------------------------- length

  /**
   * JavaScript's `length`: the number of UTF-16 code units, two for a
   * character outside the Basic Multilingual Plane, one for any other.
   */
  function Utf16Length(s: string): (n: nat)
    ensures |s| <= n <= 2 * |s|
  {
    if s == [] then 0 else (if s[0] >= '\U{10000}' then 2 else 1) + Utf16Length(s[1..])
  }

  // ---------------------------------------------------------------- split

  /**
   * `String.prototype.split` on a one-character separator: the pieces
   * between the separators, never fewer than one (`"".split(":")` is `[""]`).
   */
  function Split(s: string, sep: char): (parts: seq<string>)
    ensures |parts| >= 1
    ensures forall i :: 0 <= i < |parts| ==> sep !in parts[i]
  {
    if s == [] then [[]]
    else
      var rest := Split(s[1..], sep);
      if s[0] == sep then [[]] + rest
      else [[s[0]] + rest[0]] + rest[1..]
  }

  /** `Array.prototype.join` with a one-character separator. */
  function Join(parts: seq<string>, sep: char): string
    requires |parts| >= 1
  {
    if |parts| == 1 then parts[0] else parts[0] + [sep] + Join(parts[1..], sep)
  }

  /** Splitting a single piece that holds no separator, followed by more text. */
  lemma {:induction false} SplitPrefix(p: string, s: string, sep: char)
    requires sep !in p
    ensures Split(p + s, sep) == [p + Split(s, sep)[0]] + Split(s, sep)[1..]
  {
    if p != [] {
      assert (p + s)[0] == p[0] && (p + s)[1..] == p[1..] + s;
      SplitPrefix(p[1..], s, sep);
      assert [p[0]] + (p[1..] + Split(s, sep)[0]) == p + Split(s, sep)[0];
    } else {
      var parts := Split(s, sep);
      assert p + s == s && p + parts[0] == parts[0];
      assert [parts[0]] + parts[1..] == parts;
    }
  }

  /** Split undoes Join, provided no piece holds the separator. */
  lemma {:induction false} SplitJoin(parts: seq<string>, sep: char)
    requires |parts| >= 1
    requires forall i :: 0 <= i < |parts| ==> sep !in parts[i]
    ensures Split(Join(parts, sep), sep) == parts
  {
    if |parts| == 1 {
      SplitPrefix(parts[0], [], sep);
      assert parts[0] + [] == parts[0];
    } else {
      SplitJoin(parts[1..], sep);
      SplitJoinStep(parts, sep);
    }
  }

  lemma SplitJoinStep(parts: seq<string>, sep: char)
    requires |parts| >= 2 && sep !in parts[0]
    requires Split(Join(parts[1..], sep), sep) == parts[1..]
    ensures Split(Join(parts, sep), sep) == parts
  {
    var tail := Join(parts[1..], sep);
    assert parts[0] + [sep] + tail == parts[0] + ([sep] + tail);
    SplitPrefix(parts[0], [sep] + tail, sep);
    SplitSeparator(tail, sep);
    assert parts[0] + [] == parts[0];
  }

  /** A leading separator ends an empty first piece. */
  lemma SplitSeparator(tail: string, sep: char)
    ensures Split([sep] + tail, sep) == [[]] + Split(tail, sep)
  {
    assert ([sep] + tail)[0] == sep && ([sep] + tail)[1..] == tail;
  }

  /** Join undoes Split: splitting loses nothing but the separators. */
  lemma {:induction false} JoinSplit(s: string, sep: char)
    ensures Join(Split(s, sep), sep) == s
  {
    if s != [] {
      JoinSplit(s[1..], sep);
      var rest := Split(s[1..], sep);
      if s[0] != sep {
        var parts := Split(s, sep);
        assert parts[1..] == rest[1..];
        if |rest| > 1 {
          assert Join(rest, sep) == rest[0] + [sep] + Join(rest[1..], sep);
          assert Join(parts, sep) == [s[0]] + rest[0] + [sep] + Join(rest[1..], sep);
        }
      }
    }
  }

  /** The pieces of two separator-free texts joined by the separator. */
  lemma SplitTwo(a: string, b: string, sep: char)
    requires sep !in a && sep !in b
    ensures Split(a + [sep] + b, sep) == [a, b]
  {
    var ps := [a, b];
    assert Join(ps[1..], sep) == b;
    SplitJoin(ps, sep);
  }

  /** The pieces of three separator-free texts joined by the separator. */
  lemma SplitThree(a: string, b: string, c: string, sep: char)
    requires sep !in a && sep !in b && sep !in c
    ensures Split(a + [sep] + b + [sep] + c, sep) == [a, b, c]
  {
    var ps := [a, b, c];
    assert Join(ps[2..], sep) == c;
    assert Join(ps[1..], sep) == b + [sep] + c;
    assert Join(ps, sep) == a + [sep] + b + [sep] + c;
    SplitJoin(ps, sep);
  }

  /** A text without the separator is a single piece. */
  lemma SplitOne(a: string, sep: char)
    requires sep !in a
    ensures Split(a, sep) == [a]
  {
    SplitJoin([a], sep);
  }

  /**
   * How the pieces of two adjacent texts combine when the texts are
   * concatenated: the last piece of the first merges with the first piece
   * of the second.
   */
  function Glue(p: seq<string>, q: seq<string>): (r: seq<string>)
    requires |p| >= 1 && |q| >= 1
    ensures |r| == |p| + |q| - 1
  {
    p[..|p| - 1] + [p[|p| - 1] + q[0]] + q[1..]
  }

  lemma GlueCons(x: string, p: seq<string>, q: seq<string>)
    requires |p| >= 1 && |q| >= 1
    ensures Glue([x] + p, q) == [x] + Glue(p, q)
  {
    assert ([x] + p)[..|p|] == [x] + p[..|p| - 1];
  }

  /** Splitting a concatenation: the pieces of each part, glued where they meet. */
  lemma {:induction false} SplitAppend(a: string, b: string, sep: char)
    ensures Split(a + b, sep) == Glue(Split(a, sep), Split(b, sep))
  {
    if a == [] {
      var q := Split(b, sep);
      assert a + b == b;
      assert [] + q[0] == q[0];
      assert [q[0]] + q[1..] == q;
    } else {
      SplitAppend(a[1..], b, sep);
      SplitAppendStep(a, b, sep);
    }
  }

  /** One step of SplitAppend: from the pieces after the first character to the whole. */
  lemma SplitAppendStep(a: string, b: string, sep: char)
    requires a != [] && Split(a[1..] + b, sep) == Glue(Split(a[1..], sep), Split(b, sep))
    ensures Split(a + b, sep) == Glue(Split(a, sep), Split(b, sep))
  {
    var q := Split(b, sep);
    var x := a[0];
    assert (a + b)[0] == x && (a + b)[1..] == a[1..] + b;
    var p' := Split(a[1..], sep);
    var r := Glue(p', q);
    assert Split(a + b, sep) == if x == sep then [[]] + r else [[x] + r[0]] + r[1..];
    if x == sep {
      GlueCons([], p', q);
    } else if |p'| == 1 {
      GlueSingle(x, p'[0], q);
    } else {
      assert Split(a, sep) == [[x] + p'[0]] + p'[1..];
      GlueCons([x] + p'[0], p'[1..], q);
      GlueCons(p'[0], p'[1..], q);
      assert [p'[0]] + p'[1..] == p';
    }
  }

  lemma GlueSingle(x: char, y: string, q: seq<string>)
    requires |q| >= 1
    ensures var r := Glue([y], q); Glue([[x] + y], q) == [[x] + r[0]] + r[1..]
  {
    assert [x] + (y + q[0]) == ([x] + y) + q[0];
  }

  /** The number of occurrences of `c` in `s`. */
  function Count(s: string, c: char): nat {
    if s == [] then 0 else (if s[0] == c then 1 else 0) + Count(s[1..], c)
  }

  /** There is one piece more than there are separators. */
  lemma {:induction false} SplitCount(s: string, sep: char)
    ensures |Split(s, sep)| == Count(s, sep) + 1
  {
    if s != [] {
      SplitCount(s[1..], sep);
    }
  }

  // ---------------------------------------------------------------- decimal numbers

  function DigitChar(d: nat): (c: char)
    requires d < 10
    ensures IsDigit(c)
  {
    ('0' as int + d) as char
  }

  function DigitValue(c: char): (d: nat)
    requires IsDigit(c)
    ensures d < 10
  {
    c as int - '0' as int
  }

  /** The decimal digits of `n`, most significant first, without leading zeros. */
  function NatToDecimal(n: nat): (r: string)
    ensures |r| >= 1 && AllDigits(r)
    ensures r[0] == '0' ==> n == 0
  {
    if n < 10 then [DigitChar(n)] else NatToDecimal(n / 10) + [DigitChar(n % 10)]
  }

  /** How a JavaScript template literal renders an integral Number: `${n}`. */
  function IntToDecimal(n: int): (r: string)
    ensures |r| >= 1
    ensures forall i :: 0 <= i < |r| ==> IsDigit(r[i]) || r[i] == '-'
  {
    if n < 0 then "-" + NatToDecimal(-n) else NatToDecimal(n)
  }

  /** The value of a string of decimal digits. */
  function DigitsValue(s: string): nat
    requires AllDigits(s)
  {
    if s == [] then 0 else DigitsValue(s[..|s| - 1]) * 10 + DigitValue(s[|s| - 1])
  }

  /** Reads an optionally negative decimal integer, the way a chat identifier given as a string is read. */
  function ParseDecimal(s: string): Option<int> {
    if |s| >= 2 && s[0] == '-' && AllDigits(s[1..]) then
      var v: int := DigitsValue(s[1..]); Some(-v)
    else if |s| >= 1 && AllDigits(s) then Some(DigitsValue(s))
    else None
  }

  lemma {:induction false} DigitsValueOfDecimal(n: nat)
    ensures DigitsValue(NatToDecimal(n)) == n
  {
    if n >= 10 {
      DigitsValueOfDecimal(n / 10);
      var r := NatToDecimal(n);
      assert r[..|r| - 1] == NatToDecimal(n / 10);
    }
  }

  /** Reading back the rendering of an integer gives the integer: the rendering is injective. */
  lemma ParseRendersBack(n: int)
    ensures ParseDecimal(IntToDecimal(n)) == Some(n)
  {
    if n < 0 {
      var r := IntToDecimal(n);
      assert r[1..] == NatToDecimal(-n);
      DigitsValueOfDecimal(-n);
    } else {
      DigitsValueOfDecimal(n);
    }
  }
}
