/** The service's limits and input grammars. The patterns are modelled as exact
    matches over ASCII digits (see README, "Left out", for how Python's `re` differs). */
module Config {
  import opened Strings

  /** At most this many entity ids per request. */
  const MAX_ENTITY_COUNT: nat := 100

  /** The entity kinds: item, lexeme, property, entity schema. */
  const ENTITY_PREFIXES: set<char> := {'Q', 'L', 'P', 'E'}

  /** The shape of `^[<prefixes>]\d+$`: one kind letter followed by one or more digits. */
  predicate EntityPattern(prefixes: set<char>, s: string)
  {
    |s| >= 2 && s[0] in prefixes && AllDigits(s[1..])
  }

  /** The shape of `^\d{<width>}$`: exactly `width` digits. */
  predicate DigitsPattern(width: nat, s: string)
  {
    |s| == width && AllDigits(s)
  }

  /** `ENTITY_ID_PATTERN`. */
  predicate IsEntityId(s: string)
  {
    EntityPattern(ENTITY_PREFIXES, s)
  }

  /** `DATE_ONLY_PATTERN`: a `YYYYMMDD` date. */
  predicate IsDateOnly(s: string)
  {
    DigitsPattern(8, s)
  }

  /** `TIMESTAMP_PATTERN`: a `YYYYMMDDHHMMSS` timestamp. */
  predicate IsTimestamp(s: string)
  {
    DigitsPattern(14, s)
  }

  /** The module-level values the validator reads: the entity limit, the letters
      `ENTITY_ID_PATTERN` admits and the width `TIMESTAMP_PATTERN` demands. They are
      a value so that a caller can substitute other settings, as a test suite
      patching the module does. */
  datatype Settings = Settings(maxEntityCount: nat, entityPrefixes: set<char>, timestampWidth: nat)

  /** The settings `config.py` defines. */
  const DEFAULT_SETTINGS: Settings := Settings(MAX_ENTITY_COUNT, ENTITY_PREFIXES, 14)

  lemma DefaultSettingsArePatterns(s: string)
    ensures DEFAULT_SETTINGS.maxEntityCount == 100
    ensures EntityPattern(DEFAULT_SETTINGS.entityPrefixes, s) <==> IsEntityId(s)
    ensures DigitsPattern(DEFAULT_SETTINGS.timestampWidth, s) <==> IsTimestamp(s)
  {
  }

  lemma EntityIdExamples()
    ensures IsEntityId("Q42") && IsEntityId("L1") && IsEntityId("P31") && IsEntityId("E7")
    ensures !IsEntityId("Q") && !IsEntityId("X2") && !IsEntityId("q1") && !IsEntityId("Q4a") && !IsEntityId("")
  {
    assert !IsDigit("Q4a"[2]);
  }

  lemma TimestampExamples()
    ensures IsTimestamp("20220101000000") && IsDateOnly("20230101")
    ensures !IsTimestamp("20230101") && !IsTimestamp("2023-01-01") && !IsDateOnly("2023-12-31")
  {
  }

  /** A digit string is its first digit times a power of ten plus the rest. */
  lemma LeadingDigit(a: string)
    requires |a| > 0 && AllDigits(a)
    ensures DigitsValue(a) == DigitValue(a[0]) * Pow10(|a| - 1) + DigitsValue(a[1..])
    ensures DigitsValue(a[1..]) < Pow10(|a| - 1)
  {
    var c, t := [a[0]], a[1..];
    assert c + t == a;
    assert DigitsValue(c) == DigitValue(a[0]) by {
      assert c[..0] == [];
    }
    DigitsValueConcat(c, t);
    DigitsValueBound(t);
  }

  /** Nonlinear step the solver does not find by itself: scaling by a positive whole number. */
  lemma ScaleAtLeastOnce(k: int, p: nat)
    requires k >= 1
    ensures k * p >= p
  {
  }

  /** Comparing `x * p + ra` with `y * p + rb` when both remainders are below `p`. */
  lemma ComparePositional(x: nat, y: nat, ra: nat, rb: nat, p: nat)
    requires ra < p && rb < p
    ensures x < y ==> x * p + ra < y * p + rb
    ensures x == y ==> (x * p + ra < y * p + rb <==> ra < rb) && (x * p + ra == y * p + rb <==> ra == rb)
  {
    if x < y {
      ScaleAtLeastOnce(y - x, p);
      assert y * p - x * p == (y - x) * p;
    }
  }

  /** For digit strings of equal width, string order is numeric order. */
  lemma {:induction false} FixedWidthOrder(a: string, b: string)
    requires |a| == |b| && AllDigits(a) && AllDigits(b)
    ensures Less(a, b) <==> DigitsValue(a) < DigitsValue(b)
    ensures a == b <==> DigitsValue(a) == DigitsValue(b)
  {
    if |a| > 0 {
      var p := Pow10(|a| - 1);
      var a', b' := a[1..], b[1..];
      LeadingDigit(a);
      LeadingDigit(b);
      FixedWidthOrder(a', b');
      var x, y := DigitValue(a[0]), DigitValue(b[0]);
      ComparePositional(x, y, DigitsValue(a'), DigitsValue(b'), p);
      ComparePositional(y, x, DigitsValue(b'), DigitsValue(a'), p);
      if a[0] == b[0] {
        assert Less(a, b) == Less(a', b');
        assert a == [a[0]] + a' && b == [b[0]] + b';
      } else {
        assert Less(a, b) == (x < y);
      }
    }
  }

  /** The string comparisons on digit strings of one fixed width, and so on
      timestamps, agree with comparing the numbers their digits spell. */
  lemma FixedWidthComparisons(w: nat, a: string, b: string)
    requires DigitsPattern(w, a) && DigitsPattern(w, b)
    ensures Less(a, b) <==> DigitsValue(a) < DigitsValue(b)
    ensures !Less(b, a) <==> DigitsValue(a) <= DigitsValue(b)
  {
    FixedWidthOrder(a, b);
    FixedWidthOrder(b, a);
  }

  lemma TimestampOrderIsNumeric(a: string, b: string)
    requires IsTimestamp(a) && IsTimestamp(b)
    ensures Less(a, b) <==> DigitsValue(a) < DigitsValue(b)
    ensures !Less(b, a) <==> DigitsValue(a) <= DigitsValue(b)
  {
    FixedWidthComparisons(14, a, b);
  }
}
