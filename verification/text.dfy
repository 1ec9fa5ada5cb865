/**
 * Character-level string operations the pipeline relies on: Python's
 * `str.strip()`, `str.replace` with a one-character pattern, and decimal
 * digits.
 */
module Text {

  /** Python's `str.isspace` for a single character. */
  predicate IsSpace(c: char) {
    || ('\t' <= c <= '\r')
    || ('\U{001C}' <= c <= '\U{001F}')
    || c == ' '
    || c == '\U{0085}'
    || c == '\U{00A0}'
    || c == '\U{1680}'
    || ('\U{2000}' <= c <= '\U{200A}')
    || c == '\U{2028}'
    || c == '\U{2029}'
    || c == '\U{202F}'
    || c == '\U{205F}'
    || c == '\U{3000}'
  }

  predicate AllSpace(s: string) {
    forall i :: 0 <= i < |s| ==> IsSpace(s[i])
  }

  /** Neither end of `s` is whitespace. */
  predicate IsStripped(s: string) {
    |s| == 0 || (!IsSpace(s[0]) && !IsSpace(s[|s| - 1]))
  }

  /** The first position at or after `i` that is not whitespace, or `|s|`. */
  function SkipSpaces(s: string, i: nat): (n: nat)
    requires i <= |s|
    ensures i <= n <= |s|
    ensures forall k :: i <= k < n ==> IsSpace(s[k])
    ensures n < |s| ==> !IsSpace(s[n])
    decreases |s| - i
  {
    if i < |s| && IsSpace(s[i]) then SkipSpaces(s, i + 1) else i
  }

  /** The start of the whitespace run that ends at `j`, looking no further back than `a`. */
  function SkipSpacesBack(s: string, a: nat, j: nat): (n: nat)
    requires a <= j <= |s|
    ensures a <= n <= j
    ensures forall k :: n <= k < j ==> IsSpace(s[k])
    ensures n > a ==> !IsSpace(s[n - 1])
  {
    if j > a && IsSpace(s[j - 1]) then SkipSpacesBack(s, a, j - 1) else j
  }

  /**
   * Python's `s.strip()`: `s` with its whitespace prefix and suffix removed.
   * The result is the middle part of `s` and starts and ends with a
   * non-space character.
   */
  function Strip(s: string): (r: string)
    ensures IsStripped(r)
    ensures exists i {:trigger s[..i]} :: 0 <= i <= |s| - |r| && r == s[i..i + |r|]
                && AllSpace(s[..i]) && AllSpace(s[i + |r|..])
  {
    var a := SkipSpaces(s, 0);
    var b := SkipSpacesBack(s, a, |s|);
    assert AllSpace(s[..a]);
    assert AllSpace(s[b..]);
    s[a..b]
  }

  /** A string that is already stripped is returned unchanged. */
  lemma StripStripped(s: string)
    requires IsStripped(s)
    ensures Strip(s) == s
  {
    assert s[0..|s|] == s;
  }

  /** Stripping twice is the same as stripping once. */
  lemma StripIdempotent(s: string)
    ensures Strip(Strip(s)) == Strip(s)
  {
    StripStripped(Strip(s));
  }

  /** Removing one trailing whitespace character does not change `Strip`. */
  lemma StripDropTrailingSpace(s: string)
    requires |s| > 0 && IsSpace(s[|s| - 1])
    ensures Strip(s[..|s| - 1]) == Strip(s)
  {
    var init := s[..|s| - 1];
    var a := SkipSpaces(s, 0);
    if a == |s| {
      SkipSpacesAll(init, 0);
      assert Strip(init) == [] == Strip(s);
    } else {
      SkipSpacesAgree(s, init, 0, |init|);
      SkipSpacesBackAgree(s, init, a, |init|);
      var b := SkipSpacesBack(s, a, |init|);
      assert SkipSpacesBack(s, a, |s|) == b;
      SliceOfPrefix(s, |init|, a, b);
      assert Strip(init) == init[a..b] == s[a..b] == Strip(s);
    }
  }

  lemma SliceOfPrefix(s: string, n: nat, a: nat, b: nat)
    requires a <= b <= n <= |s|
    ensures s[..n][a..b] == s[a..b]
  {
  }

  /** A string that is whitespace from `i` on is skipped to its end. */
  lemma {:induction false} SkipSpacesAll(s: string, i: nat)
    requires i <= |s|
    requires forall k :: i <= k < |s| ==> IsSpace(s[k])
    ensures SkipSpaces(s, i) == |s|
    decreases |s| - i
  {
    if i < |s| {
      SkipSpacesAll(s, i + 1);
    }
  }

  /** Skipping stops at the same place in two strings that agree up to a non-space. */
  lemma {:induction false} SkipSpacesAgree(s: string, t: string, i: nat, m: nat)
    requires i <= m <= |s| && m <= |t|
    requires forall k :: i <= k < m ==> s[k] == t[k]
    requires SkipSpaces(s, i) < m
    ensures SkipSpaces(t, i) == SkipSpaces(s, i)
    decreases |s| - i
  {
    if IsSpace(s[i]) {
      SkipSpacesAgree(s, t, i + 1, m);
    }
  }

  /** Skipping back from `j` to `a` only looks at the characters between them. */
  lemma {:induction false} SkipSpacesBackAgree(s: string, t: string, a: nat, j: nat)
    requires a <= j <= |s| && j <= |t|
    requires forall k :: a <= k < j ==> s[k] == t[k]
    ensures SkipSpacesBack(t, a, j) == SkipSpacesBack(s, a, j)
    decreases j
  {
    if j > a {
      SkipSpacesBackAgree(s, t, a, j - 1);
    }
  }

  /** Number of occurrences of `c` in `s`. */
  function Count(s: string, c: char): nat
  {
    if s == [] then 0 else (if s[0] == c then 1 else 0) + Count(s[1..], c)
  }

  /**
   * Python's `s.replace(c, rep)` for a one-character pattern: every
   * occurrence of `c` is replaced by `rep`, everything else is kept in order.
   */
  function ReplaceChar(s: string, c: char, rep: string): (r: string)
    ensures |r| == |s| + Count(s, c) * (|rep| - 1)
    ensures c !in rep ==> c !in r
    ensures c !in s ==> r == s
  {
    if s == [] then []
    else
      var k := Count(s[1..], c);
      var tail := ReplaceChar(s[1..], c, rep);
      if s[0] == c then
        assert (k + 1) * (|rep| - 1) == k * (|rep| - 1) + (|rep| - 1);
        rep + tail
      else
        assert s == [s[0]] + s[1..];
        [s[0]] + tail
  }

  /** A one-character string after `ReplaceChar`. */
  lemma ReplaceCharOne(x: char, c: char, rep: string)
    ensures ReplaceChar([x], c, rep) == if x == c then rep else [x]
  {
    assert [x][1..] == [];
  }

  /** Replacement distributes over concatenation. */
  lemma {:induction false} ReplaceCharAppend(a: string, b: string, c: char, rep: string)
    ensures ReplaceChar(a + b, c, rep) == ReplaceChar(a, c, rep) + ReplaceChar(b, c, rep)
    decreases |a|
  {
    if a == [] {
      assert a + b == b;
    } else {
      assert (a + b)[1..] == a[1..] + b;
      ReplaceCharAppend(a[1..], b, c, rep);
    }
  }

  /** Replacing `c` leaves the count of every character that is neither `c` nor in `rep` unchanged. */
  lemma {:induction false} ReplaceCharCountOther(s: string, c: char, rep: string, x: char)
    requires x != c && x !in rep
    ensures Count(ReplaceChar(s, c, rep), x) == Count(s, x)
  {
    if s != [] {
      var tail := ReplaceChar(s[1..], c, rep);
      ReplaceCharCountOther(s[1..], c, rep, x);
      if s[0] == c {
        assert ReplaceChar(s, c, rep) == rep + tail;
        CountAppend(rep, tail, x);
        CountAbsent(rep, x);
      } else {
        assert ReplaceChar(s, c, rep) == [s[0]] + tail;
        assert ([s[0]] + tail)[1..] == tail;
      }
    }
  }

  lemma {:induction false} CountAppend(a: string, b: string, x: char)
    ensures Count(a + b, x) == Count(a, x) + Count(b, x)
    decreases |a|
  {
    if a != [] {
      assert (a + b)[1..] == a[1..] + b;
      CountAppend(a[1..], b, x);
    } else {
      assert a + b == b;
    }
  }

  /** A character occurs in `s` exactly when its count is positive. */
  lemma {:induction false} CountAbsent(s: string, x: char)
    ensures Count(s, x) == 0 <==> x !in s
  {
    if s != [] {
      CountAbsent(s[1..], x);
      assert x in s <==> s[0] == x || x in s[1..];
    }
  }

  /** `s` with every occurrence of `c` deleted (`s.replace(c, '')`). */
  function RemoveChar(s: string, c: char): (r: string)
    ensures c !in r
    ensures |r| == |s| - Count(s, c)
    ensures forall x :: x != c ==> Count(r, x) == Count(s, x)
  {
    RemoveCharKeepsOthers(s, c);
    ReplaceChar(s, c, "")
  }

  lemma {:induction false} RemoveCharKeepsOthers(s: string, c: char)
    ensures forall x :: x != c ==> Count(ReplaceChar(s, c, ""), x) == Count(s, x)
  {
    if s != [] {
      RemoveCharKeepsOthers(s[1..], c);
      var r := ReplaceChar(s, c, "");
      var t := ReplaceChar(s[1..], c, "");
      if s[0] == c {
        assert r == t;
        forall x | x != c
          ensures Count(r, x) == Count(s, x)
        {
          assert Count(s, x) == Count(s[1..], x);
        }
      } else {
        assert r == [s[0]] + t;
        assert r[1..] == t;
      }
    }
  }

  // ----- decimal digits -----

  predicate IsDigit(c: char) {
    '0' <= c <= '9'
  }

  predicate AllDigits(s: string) {
    forall i :: 0 <= i < |s| ==> IsDigit(s[i])
  }

  function Digit(d: nat): (c: char)
    requires d < 10
    ensures IsDigit(c)
  {
    ('0' as int + d) as char
  }

  function DigitValue(c: char): (d: nat)
    requires IsDigit(c)
    ensures d < 10 && Digit(d) == c
  {
    c as int - '0' as int
  }

  /** Python's `int(s)` on a string of ASCII digits. */
  function DecimalValue(s: string): (n: nat)
    requires AllDigits(s)
  {
    if s == [] then 0 else 10 * DecimalValue(s[..|s| - 1]) + DigitValue(s[|s| - 1])
  }

  function Pow10(k: nat): (p: nat)
    ensures p >= 1
  {
    if k == 0 then 1 else 10 * Pow10(k - 1)
  }

  /** Python's `f"{n:0{width}}"` for `n` that fits in `width` digits. */
  function Pad(n: nat, width: nat): (r: string)
    requires n < Pow10(width)
    ensures |r| == width && AllDigits(r)
    ensures DecimalValue(r) == n
  {
    if width == 0 then ""
    else
      var r := Pad(n / 10, width - 1) + [Digit(n % 10)];
      assert r[..|r| - 1] == Pad(n / 10, width - 1);
      r
  }

  /** A string of `k` digits denotes a value below `10^k`. */
  lemma {:induction false} DecimalValueBound(s: string)
    requires AllDigits(s)
    ensures DecimalValue(s) < Pow10(|s|)
  {
    if s != [] {
      DecimalValueBound(s[..|s| - 1]);
    }
  }

  /** The digit string of `width` digits is the padded rendering of its value. */
  lemma {:induction false} PadDecimalValue(s: string)
    requires AllDigits(s)
    ensures DecimalValue(s) < Pow10(|s|)
    ensures Pad(DecimalValue(s), |s|) == s
  {
    if s != [] {
      var init := s[..|s| - 1];
      PadDecimalValue(init);
      var v := DecimalValue(s);
      assert v / 10 == DecimalValue(init) && v % 10 == DigitValue(s[|s| - 1]);
      assert s == init + [s[|s| - 1]];
    }
  }

  /** Python's `str(n)` for a natural number. */
  function NatToString(n: nat): (r: string)
    ensures |r| >= 1 && AllDigits(r)
    ensures DecimalValue(r) == n
    ensures r[0] != '0' || n == 0
  {
    if n < 10 then [Digit(n)]
    else
      var r := NatToString(n / 10) + [Digit(n % 10)];
      assert r[..|r| - 1] == NatToString(n / 10);
      r
  }

  /** Python's `sep.join(parts)` for a one-character separator. */
  function Join(parts: seq<string>, sep: char): string {
    if |parts| == 0 then ""
    else if |parts| == 1 then parts[0]
    else parts[0] + [sep] + Join(parts[1..], sep)
  }
}
