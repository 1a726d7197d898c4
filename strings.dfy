/** The Python `str` operations the core relies on: ordering of strings, `str(int)`
    and `int(str)`, `split`, `join` and `strip`. Strings are sequences of code points. */
module Strings {
  import opened Wrappers
  import opened Seqs

  // ---------------------------------------------------------------------------
  // Ordering
  // ---------------------------------------------------------------------------

  /** Python's `a < b` on `str`: lexicographic by code point, a proper prefix
      being smaller. (Dafny's own `<` on sequences means "proper prefix".) */
  predicate Less(a: string, b: string)
    decreases |a|
  {
    if |a| == 0 then |b| > 0
    else if |b| == 0 then false
    else if a[0] != b[0] then a[0] < b[0]
    else Less(a[1..], b[1..])
  }

  lemma {:induction false} LessIrreflexive(a: string)
    ensures !Less(a, a)
  {
    if |a| > 0 {
      LessIrreflexive(a[1..]);
    }
  }

  lemma {:induction false} LessTransitive(a: string, b: string, c: string)
    requires Less(a, b) && Less(b, c)
    ensures Less(a, c)
  {
    if |a| > 0 && a[0] == b[0] && b[0] == c[0] {
      LessTransitive(a[1..], b[1..], c[1..]);
    }
  }

  /** Any two strings are equal or comparable one way. */
  lemma {:induction false} LessTotal(a: string, b: string)
    ensures a == b || Less(a, b) || Less(b, a)
  {
    if |a| > 0 && |b| > 0 && a[0] == b[0] {
      LessTotal(a[1..], b[1..]);
      if a[1..] == b[1..] {
        assert a == [a[0]] + a[1..] && b == [b[0]] + b[1..];
      }
    }
  }

  lemma LessAsymmetric(a: string, b: string)
    ensures Less(a, b) ==> !Less(b, a)
  {
    if Less(a, b) && Less(b, a) {
      LessTransitive(a, b, a);
      LessIrreflexive(a);
    }
  }

  // ---------------------------------------------------------------------------
  // Decimal digits and integers
  // ---------------------------------------------------------------------------

  /** An ASCII decimal digit. */
  predicate IsDigit(c: char)
  {
    '0' <= c <= '9'
  }

  predicate AllDigits(s: string)
  {
    forall i :: 0 <= i < |s| ==> IsDigit(s[i])
  }

  function DigitValue(c: char): nat
    requires IsDigit(c)
  {
    c as int - '0' as int
  }

  function Pow10(n: nat): (p: nat)
    ensures p >= 1
  {
    if n == 0 then 1 else 10 * Pow10(n - 1)
  }

  /** The number a string of decimal digits denotes (0 for the empty string). */
  function DigitsValue(s: string): nat
    requires AllDigits(s)
  {
    if |s| == 0 then 0 else DigitsValue(s[..|s| - 1]) * 10 + DigitValue(s[|s| - 1])
  }

  lemma {:induction false} DigitsValueBound(s: string)
    requires AllDigits(s)
    ensures DigitsValue(s) < Pow10(|s|)
  {
    if |s| > 0 {
      DigitsValueBound(s[..|s| - 1]);
    }
  }

  /** Appending one more digit `d` to `x` digits followed by `y` multiplies the place of `x` by ten. */
  lemma ShiftByOneDigit(x: int, p: int, y: int, d: int)
    ensures (x * p + y) * 10 + d == x * (p * 10) + (y * 10 + d)
  {
  }

  /** Appending digits `b` to `a` shifts `a` left by `|b|` places. */
  lemma {:induction false} DigitsValueConcat(a: string, b: string)
    requires AllDigits(a) && AllDigits(b)
    ensures AllDigits(a + b)
    ensures DigitsValue(a + b) == DigitsValue(a) * Pow10(|b|) + DigitsValue(b)
  {
    if |b| > 0 {
      var b', d := b[..|b| - 1], DigitValue(b[|b| - 1]);
      assert (a + b)[..|a + b| - 1] == a + b';
      assert (a + b)[|a + b| - 1] == b[|b| - 1];
      DigitsValueConcat(a, b');
      assert DigitsValue(a + b) == DigitsValue(a + b') * 10 + d;
      assert DigitsValue(b) == DigitsValue(b') * 10 + d;
      ShiftByOneDigit(DigitsValue(a), Pow10(|b'|), DigitsValue(b'), d);
    } else {
      assert a + b == a;
    }
  }

  function DigitChar(d: nat): (c: char)
    requires d < 10
    ensures IsDigit(c) && DigitValue(c) == d
  {
    ('0' as int + d) as char
  }

  /** `str(n)` for a natural number: its decimal digits. */
  function NatToString(n: nat): (s: string)
    ensures |s| > 0 && AllDigits(s)
  {
    if n < 10 then [DigitChar(n)] else NatToString(n / 10) + [DigitChar(n % 10)]
  }

  /** The digits of `str(n)` spell `n`. */
  lemma {:induction false} NatToStringValue(n: nat)
    ensures DigitsValue(NatToString(n)) == n
  {
    if n >= 10 {
      var s := NatToString(n);
      assert s[..|s| - 1] == NatToString(n / 10);
      NatToStringValue(n / 10);
    }
  }

  /** `str(n)`: optional minus sign, then the digits of `|n|`. */
  function IntToString(n: int): (s: string)
    ensures |s| > 0
    ensures forall i :: 0 <= i < |s| ==> IsDigit(s[i]) || s[i] == '-'
  {
    if n < 0 then "-" + NatToString(-n) else NatToString(n)
  }

  /** `int(s)` on an optionally negated string of digits; `None` stands for the
      `ValueError` Python raises on anything else. */
  function ParseInt(s: string): Option<int>
  {
    if |s| > 1 && s[0] == '-' && AllDigits(s[1..]) then Some(-(DigitsValue(s[1..]) as int))
    else if |s| > 0 && AllDigits(s) then Some(DigitsValue(s))
    else None
  }

  /** `int(str(n)) == n`. */
  lemma IntToStringParses(n: int)
    ensures ParseInt(IntToString(n)) == Some(n)
  {
    var s := IntToString(n);
    NatToStringValue(if n < 0 then -n else n);
    if n < 0 {
      assert s[1..] == NatToString(-n);
    } else {
      assert IsDigit(s[0]);
    }
  }

  lemma IntToStringInjective(m: int, n: int)
    ensures IntToString(m) == IntToString(n) ==> m == n
  {
    IntToStringParses(m);
    IntToStringParses(n);
  }

  // ---------------------------------------------------------------------------
  // Searching, splitting and joining
  // ---------------------------------------------------------------------------

  /** Index of the first occurrence of `c` (`str.find`, with `None` for -1). */
  function Find(s: string, c: char): (r: Option<nat>)
    ensures r.None? <==> c !in s
    ensures r.Some? ==> r.value < |s| && s[r.value] == c && c !in s[..r.value]
  {
    if |s| == 0 then None
    else if s[0] == c then Some(0)
    else
      match Find(s[1..], c)
      case None => None
      case Some(i) =>
        assert s[..i + 1] == [s[0]] + s[1..][..i];
        Some(i + 1)
  }

  /** `s.split(c, 1)`: the text before the first `c` and the rest, or `[s]` when `c` does not occur. */
  function SplitOnce(s: string, c: char): seq<string>
  {
    match Find(s, c)
    case None => [s]
    case Some(i) => [s[..i], s[i + 1..]]
  }

  /** `s.split(c)`: the pieces between occurrences of `c`, always at least one. */
  function Split(s: string, c: char): (r: seq<string>)
    ensures |r| > 0
    decreases |s|
  {
    if |s| == 0 then [""]
    else
      var rest := Split(s[1..], c);
      if s[0] == c then [""] + rest
      else [[s[0]] + rest[0]] + rest[1..]
  }

  /** There is one more piece than there are separators, and no piece contains one. */
  lemma {:induction false} SplitPieces(s: string, c: char)
    ensures |Split(s, c)| == multiset(s)[c] + 1
    ensures forall i :: 0 <= i < |Split(s, c)| ==> c !in Split(s, c)[i]
  {
    if |s| > 0 {
      SplitPieces(s[1..], c);
      assert s == [s[0]] + s[1..];
      var rest := Split(s[1..], c);
      if s[0] != c {
        assert forall i :: 1 <= i < |Split(s, c)| ==> Split(s, c)[i] == rest[i];
      }
    }
  }

  /** `c.join(parts)`. */
  function Join(parts: seq<string>, c: char): string
  {
    if |parts| == 0 then ""
    else if |parts| == 1 then parts[0]
    else parts[0] + [c] + Join(parts[1..], c)
  }

  lemma {:induction false} SplitWithoutSeparator(s: string, c: char)
    requires c !in s
    ensures Split(s, c) == [s]
  {
    if |s| > 0 {
      SplitWithoutSeparator(s[1..], c);
      assert s == [s[0]] + s[1..];
    }
  }

  lemma SplitCons(x: char, t: string, c: char)
    ensures Split([x] + t, c) == if x == c then [""] + Split(t, c) else [[x] + Split(t, c)[0]] + Split(t, c)[1..]
  {
    assert ([x] + t)[1..] == t;
  }

  lemma SplitConcatStep(x: char, t: string, b: string, c: char)
    requires Split(t + [c] + b, c) == Split(t, c) + Split(b, c)
    ensures Split([x] + t + [c] + b, c) == Split([x] + t, c) + Split(b, c)
  {
    var u := t + [c] + b;
    assert [x] + t + [c] + b == [x] + u;
    SplitCons(x, u, c);
    SplitCons(x, t, c);
    var rt, rb := Split(t, c), Split(b, c);
    if x == c {
      ConcatAssoc([""], rt, rb);
    } else {
      ConcatTail(rt, rb);
      ConcatAssoc([[x] + rt[0]], rt[1..], rb);
    }
  }

  /** Splitting distributes over a separator: pieces keep their order. */
  lemma {:induction false} SplitConcat(a: string, b: string, c: char)
    ensures Split(a + [c] + b, c) == Split(a, c) + Split(b, c)
  {
    if |a| == 0 {
      assert a + [c] + b == [c] + b;
      SplitCons(c, b, c);
    } else {
      SplitConcat(a[1..], b, c);
      SplitConcatStep(a[0], a[1..], b, c);
      assert a == [a[0]] + a[1..];
    }
  }

  /** Joining pieces that avoid the separator and splitting again gives the pieces back. */
  lemma {:induction false} SplitJoin(parts: seq<string>, c: char)
    requires |parts| > 0
    requires forall i :: 0 <= i < |parts| ==> c !in parts[i]
    ensures Split(Join(parts, c), c) == parts
  {
    SplitWithoutSeparator(parts[0], c);
    if |parts| > 1 {
      SplitJoin(parts[1..], c);
      SplitConcat(parts[0], Join(parts[1..], c), c);
      HeadTail(parts);
    }
  }

  // ---------------------------------------------------------------------------
  // Whitespace and strip
  // ---------------------------------------------------------------------------

  /** The characters for which Python's `str.isspace()` holds, which is what
      `str.strip()` with no argument removes. */
  predicate IsSpace(ch: char)
  {
    ('\t' <= ch <= '\r') || ('\U{1c}' <= ch <= ' ') || ch == '\U{85}' || ch == '\U{a0}'
    || ch == '\U{1680}' || ('\U{2000}' <= ch <= '\U{200a}') || ch == '\U{2028}' || ch == '\U{2029}'
    || ch == '\U{202f}' || ch == '\U{205f}' || ch == '\U{3000}'
  }

  /** `str.lstrip()`: `s` without its leading whitespace. */
  function LStrip(s: string): string
  {
    if |s| > 0 && IsSpace(s[0]) then LStrip(s[1..]) else s
  }

  /** `str.rstrip()`: `s` without its trailing whitespace. */
  function RStrip(s: string): string
  {
    if |s| > 0 && IsSpace(s[|s| - 1]) then RStrip(s[..|s| - 1]) else s
  }

  /** `str.strip()`: `s` without leading and trailing whitespace. */
  function Strip(s: string): string
  {
    RStrip(LStrip(s))
  }

  /** `str.lstrip()` removes a run of whitespace from the front and nothing else. */
  lemma {:induction false} LStripSuffix(s: string)
    ensures |LStrip(s)| <= |s| && LStrip(s) == s[|s| - |LStrip(s)|..]
    ensures forall i :: 0 <= i < |s| - |LStrip(s)| ==> IsSpace(s[i])
    ensures LStrip(s) == "" || !IsSpace(LStrip(s)[0])
  {
    if |s| > 0 && IsSpace(s[0]) {
      LStripSuffix(s[1..]);
    }
  }

  lemma LStripFacts(s: string)
    ensures var r := LStrip(s);
      && (r == "" || !IsSpace(r[0]))
      && (r == "" <==> forall i :: 0 <= i < |s| ==> IsSpace(s[i]))
      && multiset(r) <= multiset(s)
      && (|s| > 0 && !IsSpace(s[0]) ==> r == s)
  {
    LStripSuffix(s);
    var r := LStrip(s);
    var k := |s| - |r|;
    assert s == s[..k] + r;
    assert multiset(s) == multiset(s[..k]) + multiset(r);
    if r != "" {
      assert r[0] == s[k];
    } else {
      assert k == |s|;
    }
  }

  /** `str.rstrip()` removes a run of whitespace from the end and nothing else. */
  lemma {:induction false} RStripPrefix(s: string)
    ensures |RStrip(s)| <= |s| && RStrip(s) == s[..|RStrip(s)|]
    ensures forall i :: |RStrip(s)| <= i < |s| ==> IsSpace(s[i])
    ensures RStrip(s) == "" || !IsSpace(RStrip(s)[|RStrip(s)| - 1])
  {
    if |s| > 0 && IsSpace(s[|s| - 1]) {
      var t := s[..|s| - 1];
      RStripPrefix(t);
      assert t[..|RStrip(t)|] == s[..|RStrip(t)|];
    }
  }

  lemma RStripFacts(s: string)
    ensures var r := RStrip(s);
      && (r == "" || !IsSpace(r[|r| - 1]))
      && (r == "" <==> forall i :: 0 <= i < |s| ==> IsSpace(s[i]))
      && multiset(r) <= multiset(s)
      && (r != "" ==> r[0] == s[0])
      && (|s| > 0 && !IsSpace(s[|s| - 1]) ==> r == s)
  {
    RStripPrefix(s);
    var r := RStrip(s);
    assert s == r + s[|r|..];
    assert multiset(s) == multiset(r) + multiset(s[|r|..]);
    if r != "" {
      assert r[|r| - 1] == s[|r| - 1];
    }
  }

  /** A stripped string is empty exactly when `s` is all whitespace; otherwise it
      neither starts nor ends with whitespace. It keeps only characters of `s`,
      and leaves a string without surrounding whitespace as it is. */
  lemma StripFacts(s: string)
    ensures var r := Strip(s);
      && (r == "" || (!IsSpace(r[0]) && !IsSpace(r[|r| - 1])))
      && (r == "" <==> forall i :: 0 <= i < |s| ==> IsSpace(s[i]))
      && multiset(r) <= multiset(s)
      && (|s| > 0 && !IsSpace(s[0]) && !IsSpace(s[|s| - 1]) ==> r == s)
  {
    LStripFacts(s);
    RStripFacts(LStrip(s));
  }
}
