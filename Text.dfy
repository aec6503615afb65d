/** The pieces of CPython's string behaviour that the scraper relies on:
    `str.strip()`, `str.replace(old, "")`, decimal rendering of integers
    and the zero-padded numeric fields of `strftime`. */
module Text {

  /** Python's `str.isspace()` for a single character. */
  predicate IsSpace(c: char)
  {
    ('\t' <= c <= '\r') || ('\U{1C}' <= c <= '\U{1F}') || c == ' ' || c == '\U{85}'
    || c == '\U{A0}' || c == '\U{1680}' || ('\U{2000}' <= c <= '\U{200A}')
    || c == '\U{2028}' || c == '\U{2029}' || c == '\U{202F}' || c == '\U{205F}'
    || c == '\U{3000}'
  }

  /** No whitespace at either end. */
  predicate Trimmed(s: string)
  {
    s == [] || (!IsSpace(s[0]) && !IsSpace(s[|s| - 1]))
  }

  /** The length of the whitespace run that starts `s`. */
  function LeadingSpaces(s: string): (n: nat)
    ensures n <= |s|
    ensures forall k :: 0 <= k < n ==> IsSpace(s[k])
    ensures n < |s| ==> !IsSpace(s[n])
  {
    if s != [] && IsSpace(s[0]) then 1 + LeadingSpaces(s[1..]) else 0
  }

  /** `s` without the whitespace run that ends it. */
  function StripEnd(s: string): (r: string)
    ensures |r| <= |s| && r == s[..|r|]
    ensures forall k :: |r| <= k < |s| ==> IsSpace(s[k])
    ensures r != [] ==> !IsSpace(r[|r| - 1])
  {
    if s != [] && IsSpace(s[|s| - 1]) then StripEnd(s[..|s| - 1]) else s
  }

  /** Python's `s.strip()`: the part of `s` between its leading and its
      trailing whitespace. */
  function Strip(s: string): (r: string)
    ensures Trimmed(r)
    ensures LeadingSpaces(s) + |r| <= |s|
    ensures r == s[LeadingSpaces(s)..LeadingSpaces(s) + |r|]
    ensures forall k :: LeadingSpaces(s) + |r| <= k < |s| ==> IsSpace(s[k])
  {
    StripEnd(s[LeadingSpaces(s)..])
  }

  /** Stripping keeps exactly the infix that is trimmed and is surrounded by
      whitespace only: there is one such infix, and `Strip` returns it. */
  lemma StripUnique(s: string, i: nat, j: nat)
    requires i <= j <= |s|
    requires forall k :: 0 <= k < i ==> IsSpace(s[k])
    requires forall k :: j <= k < |s| ==> IsSpace(s[k])
    requires Trimmed(s[i..j])
    ensures Strip(s) == s[i..j]
  {
    var n := LeadingSpaces(s);
    if i == j {
      assert forall k :: 0 <= k < |s| ==> IsSpace(s[k]) by {
        forall k | 0 <= k < |s| ensures IsSpace(s[k]) {
          if k >= i { assert j <= k; }
        }
      }
      assert n == |s|;
    } else {
      assert !IsSpace(s[i]) && !IsSpace(s[j - 1]);
      assert n == i;
    }
  }

  /** `s.strip().strip() == s.strip()`. */
  lemma StripIdempotent(s: string)
    ensures Strip(Strip(s)) == Strip(s)
  {
    var r := Strip(s);
    StripUnique(r, 0, |r|);
  }

  /** `s` begins with `p`. */
  predicate StartsWith(s: string, p: string)
  {
    |p| <= |s| && s[..|p|] == p
  }

  /** `p` occurs at some position of `s`. */
  predicate Occurs(s: string, p: string)
    decreases |s|
  {
    StartsWith(s, p) || (s != [] && Occurs(s[1..], p))
  }

  /** Python's `s.replace(p, "")`: one left-to-right scan that drops every
      non-overlapping occurrence of `p` it meets. */
  function RemoveAll(s: string, p: string): (r: string)
    requires p != []
    ensures |r| <= |s|
    decreases |s|
  {
    if |s| < |p| then s
    else if s[..|p|] == p then RemoveAll(s[|p|..], p)
    else [s[0]] + RemoveAll(s[1..], p)
  }

  /** Replacing a pattern that does not occur changes nothing. */
  lemma {:induction false} RemoveAllAbsent(s: string, p: string)
    requires p != [] && !Occurs(s, p)
    ensures RemoveAll(s, p) == s
    decreases |s|
  {
    if |p| <= |s| {
      assert !StartsWith(s, p);
      RemoveAllAbsent(s[1..], p);
      assert [s[0]] + s[1..] == s;
    }
  }

  /** A word that does not contain the first character of `p`, followed by
      `p`, loses exactly that trailing `p`. */
  lemma {:induction false} RemoveAllSuffix(w: string, p: string)
    requires p != []
    requires forall k :: 0 <= k < |w| ==> w[k] != p[0]
    ensures RemoveAll(w + p, p) == w
    decreases |w|
  {
    if w == [] {
      assert w + p == p;
      assert p[|p|..] == [];
    } else {
      var s := w + p;
      assert s[0] == w[0] && s[..|p|][0] == s[0];
      assert s[..|p|] != p;
      assert s[1..] == w[1..] + p;
      RemoveAllSuffix(w[1..], p);
      assert [w[0]] + w[1..] == w;
    }
  }

  /** An occurrence at the front is dropped whole. */
  lemma RemoveAllDrop(s: string, p: string)
    requires p != [] && StartsWith(s, p)
    ensures RemoveAll(s, p) == RemoveAll(s[|p|..], p)
  {
  }

  /** A front character that does not start an occurrence is kept. */
  lemma RemoveAllKeep(s: string, p: string)
    requires p != [] && s != [] && !StartsWith(s, p)
    ensures RemoveAll(s, p) == [s[0]] + RemoveAll(s[1..], p)
  {
  }

  /** The first occurrence of `p` is dropped and the scan goes on after it.
      `a` is what comes before that occurrence: no occurrence starts inside
      `a`, that is, none lies within `a` followed by all of `p` but its last
      character. With `RemoveAllAbsent`, this pins `replace(p, "")` on every
      input. */
  lemma {:induction false} RemoveAllFirst(a: string, p: string, b: string)
    requires p != [] && !Occurs(a + p[..|p| - 1], p)
    ensures RemoveAll(a + p + b, p) == a + RemoveAll(b, p)
    decreases |a|
  {
    var s := a + p + b;
    if a == [] {
      assert s == p + b;
      RemoveAllDrop(s, p);
      assert s[|p|..] == b;
    } else {
      var x := a + p[..|p| - 1];
      assert s[..|p|] == x[..|p|];
      RemoveAllKeep(s, p);
      assert x[1..] == a[1..] + p[..|p| - 1];
      assert s[1..] == a[1..] + p + b;
      calc {
        RemoveAll(s, p);
        [a[0]] + RemoveAll(a[1..] + p + b, p);
        { RemoveAllFirst(a[1..], p, b); }
        [a[0]] + (a[1..] + RemoveAll(b, p));
        { assert a == [a[0]] + a[1..]; }
        a + RemoveAll(b, p);
      }
    }
  }

  predicate IsDigit(c: char)
  {
    '0' <= c <= '9'
  }

  predicate AllDigits(s: string)
  {
    forall k :: 0 <= k < |s| ==> IsDigit(s[k])
  }

  /** The ASCII character of the decimal digit `n`. */
  function DigitChar(n: nat): (c: char)
    requires n < 10
    ensures IsDigit(c)
  {
    (48 + n) as char
  }

  function DigitValue(c: char): (n: nat)
    requires IsDigit(c)
    ensures n < 10
  {
    (c as int) - 48
  }

  /** The number a string of decimal digits denotes, as Python's `int()` reads it. */
  function DecimalValue(s: string): nat
    requires AllDigits(s)
  {
    if s == [] then 0 else 10 * DecimalValue(s[..|s| - 1]) + DigitValue(s[|s| - 1])
  }

  /** Reading a digit string one more character to the right. */
  lemma DecimalValueSnoc(s: string, c: char)
    requires AllDigits(s) && IsDigit(c)
    ensures AllDigits(s + [c]) && DecimalValue(s + [c]) == 10 * DecimalValue(s) + DigitValue(c)
  {
    assert (s + [c])[..|s|] == s;
  }

  /** Python's `f"{n}"` for a non-negative integer: the shortest decimal
      rendering, which reads back as `n`. */
  function Decimal(n: nat): (r: string)
    ensures r != [] && AllDigits(r) && DecimalValue(r) == n
    ensures |r| == 1 || r[0] != '0'
  {
    if n < 10 then
      assert DecimalValue([DigitChar(n)]) == DecimalValue([]) * 10 + n;
      [DigitChar(n)]
    else
      var d := DigitChar(n % 10);
      DecimalValueSnoc(Decimal(n / 10), d);
      Decimal(n / 10) + [d]
  }

  /** The two-digit, zero-padded rendering of `strftime`'s `%d`, `%m`, `%H`, `%M`, `%S`. */
  function Pad2(n: nat): (r: string)
    ensures |r| == 2 && AllDigits(r)
    ensures n < 100 ==> DecimalValue(r) == n
  {
    var a, b := DigitChar(n / 10 % 10), DigitChar(n % 10);
    DecimalValueSnoc([], a);
    DecimalValueSnoc([a], b);
    assert [a] + [b] == [a, b] && [] + [a] == [a];
    [a, b]
  }

  /** A two-digit string reads as ten times its first digit plus its second. */
  lemma DecimalValueTwo(y: string)
    requires AllDigits(y) && |y| == 2
    ensures DecimalValue(y) == 10 * DigitValue(y[0]) + DigitValue(y[1])
  {
    var y0 := y[..1];
    assert y0[..0] == [] && y0[0] == y[0];
    assert DecimalValue(y0) == DigitValue(y[0]);
    assert DecimalValue(y) == 10 * DecimalValue(y0) + DigitValue(y[1]);
  }

  /** Appending a two-digit string shifts the value read so far by two places. */
  lemma DecimalValueAppend2(x: string, y: string)
    requires AllDigits(x) && AllDigits(y) && |y| == 2
    ensures AllDigits(x + y) && DecimalValue(x + y) == 100 * DecimalValue(x) + DecimalValue(y)
  {
    var x1 := x + [y[0]];
    DecimalValueSnoc(x, y[0]);
    DecimalValueSnoc(x1, y[1]);
    assert x1 + [y[1]] == x + y;
    DecimalValueTwo(y);
  }

  /** The four-digit, zero-padded rendering of `strftime`'s `%Y`. */
  function Pad4(n: nat): (r: string)
    ensures |r| == 4 && AllDigits(r)
    ensures n < 10000 ==> DecimalValue(r) == n
  {
    var hi, lo := Pad2(n / 100 % 100), Pad2(n % 100);
    DecimalValueAppend2(hi, lo);
    hi + lo
  }
}
