/** Text helpers the SVG back end relies on: number-to-text conversion in a
    radix, the lexicographic order used to sort selectors, ASCII case folding
    and the small substitutions applied to link titles and text content. */
module Strings {

  /** A digit of the given base, in the alphabet of Kotlin's Long.toString(radix):
      '0'..'9' and then 'a'..'z'. */
  predicate IsDigitOf(c: char, base: nat)
  {
    ('0' <= c <= '9' && (c as int) - ('0' as int) < base)
    || ('a' <= c <= 'z' && (c as int) - ('a' as int) + 10 < base)
  }

  function DigitChar(d: nat, base: nat): (c: char)
    requires d < base <= 36
    ensures IsDigitOf(c, base)
  {
    if d < 10 then (('0' as int) + d) as char else (('a' as int) + d - 10) as char
  }

  function DigitValue(c: char, base: nat): (d: nat)
    requires IsDigitOf(c, base)
    ensures d < base
  {
    if '0' <= c <= '9' then (c as int) - ('0' as int) else (c as int) - ('a' as int) + 10
  }

  /** The digits of n in the given base, most significant first, without a sign. */
  function Digits(n: nat, base: nat): (s: string)
    requires 2 <= base <= 36
    ensures |s| > 0
    ensures forall i :: 0 <= i < |s| ==> IsDigitOf(s[i], base)
    decreases n
  {
    if n < base then [DigitChar(n, base)]
    else
      QuotientShrinks(n, base);
      Digits(n / base, base) + [DigitChar(n % base, base)]
  }

  /** Dividing by a base of two or more makes a positive number smaller. */
  lemma QuotientShrinks(n: nat, base: nat)
    requires 2 <= base <= n
    ensures n / base < n && n % base < base
  {
    assert n / base * base <= n;
  }

  /** Reads back a digit string; the inverse of Digits. */
  function DigitsValue(s: string, base: nat): nat
    requires 2 <= base <= 36
    requires forall i :: 0 <= i < |s| ==> IsDigitOf(s[i], base)
  {
    if s == [] then 0
    else DigitsValue(s[..|s| - 1], base) * base + DigitValue(s[|s| - 1], base)
  }

  lemma DigitValueOfChar(d: nat, base: nat)
    requires d < base <= 36
    ensures DigitValue(DigitChar(d, base), base) == d
  {
  }

  lemma {:induction false} DigitsRoundTrip(n: nat, base: nat)
    requires 2 <= base <= 36
    ensures DigitsValue(Digits(n, base), base) == n
    decreases n
  {
    if n < base {
      DigitValueOfChar(n, base);
      assert Digits(n, base)[..0] == [];
    } else {
      DigitsRoundTrip(n / base, base);
      DigitsRoundTripStep(n, base);
    }
  }

  /** One step of the round trip: the last digit carries n % base and the
      rest carries n / base. */
  lemma DigitsRoundTripStep(n: nat, base: nat)
    requires 2 <= base <= 36 && n >= base
    requires DigitsValue(Digits(n / base, base), base) == n / base
    ensures DigitsValue(Digits(n, base), base) == n
  {
    var s := Digits(n, base);
    var q, d := n / base, n % base;
    var front := Digits(q, base);
    assert s == front + [DigitChar(d, base)];
    assert s[..|s| - 1] == front;
    DigitValueOfChar(d, base);
    var v := DigitsValue(front, base);
    assert v == q;
    assert DigitsValue(s, base) == v * base + d;
    DivModSplit(n, base);
  }

  lemma DivModSplit(n: nat, base: nat)
    requires base > 0
    ensures (n / base) * base + n % base == n
  {
  }

  /** Different numbers never share a digit string. */
  lemma DigitsInjective(m: nat, n: nat, base: nat)
    requires 2 <= base <= 36
    ensures Digits(m, base) == Digits(n, base) ==> m == n
  {
    DigitsRoundTrip(m, base);
    DigitsRoundTrip(n, base);
  }

  /** Kotlin's rendering of a non-negative Int in a string template. */
  function Decimal(n: nat): (s: string)
    ensures |s| > 0 && forall i :: 0 <= i < |s| ==> IsDecimalDigit(s[i])
  {
    Digits(n, 10)
  }

  /** Kotlin's rendering of any Int in a string template. */
  function IntText(i: int): string
  {
    if i < 0 then "-" + Decimal(-i) else Decimal(i)
  }

  predicate IsDecimalDigit(c: char)
  {
    '0' <= c <= '9'
  }

  /** A prefix in which no decimal digit occurs. */
  predicate DigitFree(p: string)
  {
    forall i :: 0 <= i < |p| ==> !IsDecimalDigit(p[i])
  }

  /** A digit-free prefix followed by a decimal number can be split back
      into its two parts, so names built that way never collide. */
  lemma NumberedNameInjective(p: string, m: nat, q: string, n: nat)
    requires DigitFree(p) && DigitFree(q)
    ensures p + Decimal(m) == q + Decimal(n) ==> p == q && m == n
  {
    var s, t := p + Decimal(m), q + Decimal(n);
    assert forall i :: 0 <= i < |p| ==> !IsDecimalDigit(s[i]);
    assert IsDecimalDigit(s[|p|]);
    assert forall i :: 0 <= i < |q| ==> !IsDecimalDigit(t[i]);
    assert IsDecimalDigit(t[|q|]);
    if s == t {
      assert |p| == |q|;
      assert p == s[..|p|] && q == t[..|q|];
      assert Decimal(m) == s[|p|..] && Decimal(n) == t[|q|..];
      DigitsInjective(m, n, 10);
    }
  }

  /** The same prefix followed by two different numbers gives two different names. */
  lemma SamePrefixNamesDiffer(p: string, m: nat, n: nat)
    ensures p + Decimal(m) == p + Decimal(n) ==> m == n
  {
    assert Decimal(m) == (p + Decimal(m))[|p|..];
    assert Decimal(n) == (p + Decimal(n))[|p|..];
    DigitsInjective(m, n, 10);
  }

  // ---------------------------------------------------------------------------
  // Seeds: abs(seed).toString(36) on a 64-bit Long

  const LongMin: int := -0x8000_0000_0000_0000
  const LongMax: int := 0x7fff_ffff_ffff_ffff

  type Long = x: int | LongMin <= x <= LongMax

  function Magnitude(x: int): nat
  {
    if x < 0 then -x else x
  }

  /** abs(seed).toString(36). For Long.MIN_VALUE, abs overflows and stays
      negative, so the text then carries a minus sign. */
  function SeedText(seed: Long): (s: string)
    ensures |s| > 0
    ensures s[0] == '-' <==> seed == LongMin
  {
    var digits := Digits(Magnitude(seed), 36);
    assert IsDigitOf(digits[0], 36);
    if seed == LongMin then "-" + digits else digits
  }

  /** Two seeds give the same identifier stem exactly when they have the same magnitude. */
  lemma SeedTextSameIffSameMagnitude(a: Long, b: Long)
    ensures SeedText(a) == SeedText(b) <==> Magnitude(a) == Magnitude(b)
  {
    var da, db := Digits(Magnitude(a), 36), Digits(Magnitude(b), 36);
    DigitsInjective(Magnitude(a), Magnitude(b), 36);
    if a == LongMin && b == LongMin {
    } else if a == LongMin {
      assert Magnitude(b) < Magnitude(a);
    } else if b == LongMin {
      assert Magnitude(a) < Magnitude(b);
    } else {
      assert SeedText(a) == da && SeedText(b) == db;
    }
  }

  // ---------------------------------------------------------------------------
  // Lexicographic order of strings (String.compareTo, character by character)

  /** a sorts strictly before b: at the first differing character a's is
      smaller, or a is a proper prefix of b. */
  predicate Below(a: string, b: string)
    decreases |a|
  {
    if a == [] then b != []
    else b != [] && (a[0] < b[0] || (a[0] == b[0] && Below(a[1..], b[1..])))
  }

  lemma {:induction false} BelowIrreflexive(a: string)
    ensures !Below(a, a)
    decreases |a|
  {
    if a != [] {
      BelowIrreflexive(a[1..]);
    }
  }

  lemma {:induction false} BelowAsymmetric(a: string, b: string)
    ensures Below(a, b) ==> !Below(b, a)
    decreases |a|
  {
    if a != [] && b != [] && a[0] == b[0] {
      BelowAsymmetric(a[1..], b[1..]);
    }
  }

  lemma {:induction false} BelowTransitive(a: string, b: string, c: string)
    ensures Below(a, b) && Below(b, c) ==> Below(a, c)
    decreases |a|
  {
    if a != [] && b != [] && c != [] && a[0] == b[0] && b[0] == c[0] {
      BelowTransitive(a[1..], b[1..], c[1..]);
    }
  }

  lemma {:induction false} BelowTotal(a: string, b: string)
    ensures a != b ==> Below(a, b) || Below(b, a)
    decreases |a|
  {
    if a != [] && b != [] && a[0] == b[0] {
      assert a == [a[0]] + a[1..] && b == [b[0]] + b[1..];
      BelowTotal(a[1..], b[1..]);
    }
  }

  predicate StrictlySorted(s: seq<string>)
  {
    forall i, j :: 0 <= i < j < |s| ==> Below(s[i], s[j])
  }

  predicate IsLeast(m: string, s: set<string>)
  {
    m in s && forall y :: y in s && y != m ==> Below(m, y)
  }

  lemma {:induction false} LeastExists(s: set<string>)
    requires s != {}
    ensures exists m :: IsLeast(m, s)
    decreases s
  {
    var x :| x in s;
    var rest := s - {x};
    if rest == {} {
      assert forall y :: y in s && y != x ==> y in rest;
      assert IsLeast(x, s);
    } else {
      LeastExists(rest);
      var m :| IsLeast(m, rest);
      BelowTotal(x, m);
      if Below(x, m) {
        forall y | y in s && y != x
          ensures Below(x, y)
        {
          BelowTransitive(x, m, y);
        }
        assert IsLeast(x, s);
      } else {
        assert IsLeast(m, s);
      }
    }
  }

  /** The elements of a finite set of strings in ascending order, each once. */
  ghost function SortedOf(s: set<string>): (r: seq<string>)
    ensures StrictlySorted(r)
    ensures |r| == |s|
    ensures forall x :: x in r <==> x in s
    decreases s
  {
    if s == {} then []
    else
      LeastExists(s);
      var m :| IsLeast(m, s);
      [m] + SortedOf(s - {m})
  }

  /** A strictly sorted sequence is determined by its elements: any two
      orderings of the same set of selectors are the same sequence. */
  lemma {:induction false} SortedUnique(a: seq<string>, b: seq<string>)
    requires StrictlySorted(a) && StrictlySorted(b)
    requires forall x :: x in a <==> x in b
    ensures a == b
    decreases |a|
  {
    if a != [] {
      assert a[0] in b;
    }
    if b != [] {
      assert b[0] in a;
    }
    if a != [] && b != [] {
      var i :| 0 <= i < |a| && a[i] == b[0];
      var j :| 0 <= j < |b| && b[j] == a[0];
      BelowAsymmetric(a[0], b[0]);
      assert i == 0 || j == 0;
      assert a[0] == b[0];
      assert a == [a[0]] + a[1..] && b == [b[0]] + b[1..];
      forall x
        ensures x in a[1..] <==> x in b[1..]
      {
        BelowIrreflexive(x);
        if x in a[1..] {
          var k :| 0 <= k < |a[1..]| && a[1..][k] == x;
          assert Below(a[0], a[k + 1]);
          assert x in b && x != b[0];
        }
        if x in b[1..] {
          var k :| 0 <= k < |b[1..]| && b[1..][k] == x;
          assert Below(b[0], b[k + 1]);
          assert x in a && x != a[0];
        }
      }
      SortedUnique(a[1..], b[1..]);
      assert a == [a[0]] + a[1..] && b == [b[0]] + b[1..];
    }
  }

  // ---------------------------------------------------------------------------
  // Prefixes, suffixes and case folding

  predicate StartsWith(s: string, p: string)
  {
    |p| <= |s| && s[..|p|] == p
  }

  predicate EndsWith(s: string, t: string)
  {
    |t| <= |s| && s[|s| - |t|..] == t
  }

  function LowerAscii(c: char): char
  {
    if 'A' <= c <= 'Z' then (c as int + 32) as char else c
  }

  function ToLowerAscii(s: string): (r: string)
  {
    seq(|s|, i requires 0 <= i < |s| => LowerAscii(s[i]))
  }

  /** joinToString(separator): the parts with the separator between each
      two neighbours. */
  function Join(parts: seq<string>, sep: string): string
  {
    if parts == [] then ""
    else if |parts| == 1 then parts[0]
    else Join(parts[..|parts| - 1], sep) + sep + parts[|parts| - 1]
  }

  predicate EqualsIgnoreCase(a: string, b: string)
  {
    ToLowerAscii(a) == ToLowerAscii(b)
  }

  /** String.replace(old, new) on single characters. */
  function ReplaceChar(s: string, from: char, to: char): (r: string)
    ensures |r| == |s|
    ensures from != to ==> from !in r
    ensures forall i :: 0 <= i < |s| && s[i] == from ==> r[i] == to
    ensures forall i :: 0 <= i < |s| && s[i] != from ==> r[i] == s[i]
  {
    seq(|s|, i requires 0 <= i < |s| => if s[i] == from then to else s[i])
  }

  // ---------------------------------------------------------------------------
  // Link titles: every backslash followed by 'n' becomes a line feed

  predicate HasEscapedNewline(s: string)
  {
    exists i :: 0 <= i < |s| - 1 && s[i] == '\\' && s[i + 1] == 'n'
  }

  /** Left-to-right, non-overlapping replacement of the two characters
      backslash and 'n' by a line feed. */
  function UnescapeNewlines(s: string): (r: string)
    ensures |r| <= |s|
    decreases |s|
  {
    if |s| < 2 then s
    else if s[0] == '\\' && s[1] == 'n' then "\n" + UnescapeNewlines(s[2..])
    else [s[0]] + UnescapeNewlines(s[1..])
  }

  /** One step of the substitution: an escaped "\n" at the front becomes a
      line feed, and any other first character is kept as it is. */
  lemma UnescapeNewlinesStep(c: char, s: string)
    ensures UnescapeNewlines(['\\', 'n'] + s) == "\n" + UnescapeNewlines(s)
    ensures !(c == '\\' && |s| > 0 && s[0] == 'n') ==> UnescapeNewlines([c] + s) == [c] + UnescapeNewlines(s)
  {
    assert (['\\', 'n'] + s)[2..] == s;
    assert ([c] + s)[1..] == s;
  }

  /** The substitution works piecewise: text that does not end in a
      backslash can be unescaped apart from what follows it. */
  lemma {:induction false} UnescapeNewlinesAppend(a: string, b: string)
    requires |a| == 0 || a[|a| - 1] != '\\'
    ensures UnescapeNewlines(a + b) == UnescapeNewlines(a) + UnescapeNewlines(b)
    decreases |a|
  {
    var ab := a + b;
    if |a| == 0 {
      assert ab == b;
    } else {
      var k := if a[0] == '\\' && |a| > 1 && a[1] == 'n' then 2 else 1;
      var out := if k == 2 then "\n" else [a[0]];
      assert |ab| >= 2 && k == 2 ==> ab[0] == '\\' && ab[1] == 'n';
      assert k == 1 && a[0] == '\\' ==> |a| > 1 && ab[1] == a[1];
      assert ab[k..] == a[k..] + b;
      assert UnescapeNewlines(ab) == out + UnescapeNewlines(ab[k..]);
      assert UnescapeNewlines(a) == out + UnescapeNewlines(a[k..]);
      UnescapeNewlinesAppend(a[k..], b);
      var u, v := UnescapeNewlines(a[k..]), UnescapeNewlines(b);
      assert out + (u + v) == out + u + v;
    }
  }

  /** After the substitution no escaped line break is left, the text never
      grows, and it is unchanged when there was nothing to replace. */
  lemma {:induction false} UnescapeNewlinesComplete(s: string)
    ensures !HasEscapedNewline(UnescapeNewlines(s))
    ensures |UnescapeNewlines(s)| <= |s|
    ensures !HasEscapedNewline(s) ==> UnescapeNewlines(s) == s
    ensures |s| > 0 ==> |UnescapeNewlines(s)| > 0
    ensures |s| > 0 && s[0] != '\\' ==> UnescapeNewlines(s)[0] == s[0]
    ensures |s| > 0 && s[0] == '\\' ==> UnescapeNewlines(s)[0] != 'n'
    decreases |s|
  {
    var r := UnescapeNewlines(s);
    if |s| < 2 {
    } else if s[0] == '\\' && s[1] == 'n' {
      var t := UnescapeNewlines(s[2..]);
      UnescapeNewlinesComplete(s[2..]);
      assert r == "\n" + t;
      forall i | 0 <= i < |r| - 1
        ensures !(r[i] == '\\' && r[i + 1] == 'n')
      {
        if i > 0 {
          assert r[i] == t[i - 1] && r[i + 1] == t[i];
        }
      }
      assert s[0] == '\\' && s[0 + 1] == 'n';
    } else {
      var t := UnescapeNewlines(s[1..]);
      UnescapeNewlinesComplete(s[1..]);
      assert r == [s[0]] + t;
      forall i | 0 <= i < |r| - 1
        ensures !(r[i] == '\\' && r[i + 1] == 'n')
      {
        if i > 0 {
          assert r[i] == t[i - 1] && r[i + 1] == t[i];
        } else if s[0] == '\\' {
          assert s[1..][0] == s[1] && s[1] != 'n';
        }
      }
      if !HasEscapedNewline(s) {
        forall i | 0 <= i < |s[1..]| - 1
          ensures !(s[1..][i] == '\\' && s[1..][i + 1] == 'n')
        {
          assert s[1..][i] == s[i + 1] && s[1..][i + 1] == s[i + 2];
        }
        assert t == s[1..];
        assert r == s;
      }
    }
  }
}
