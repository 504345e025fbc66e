/** The two base-10 conversions `kv_store_increment` relies on, on a 64-bit
    `long`: reading a value with the C library's `strtol(s, &end, 10)` and
    writing one back with `sprintf("%ld")`. */
module Decimal {

  import opened Options

  const LongMin: int := -0x8000_0000_0000_0000
  const LongMax: int := 0x7FFF_FFFF_FFFF_FFFF

  predicate InLong(n: int) {
    LongMin <= n <= LongMax
  }

  /** `isspace` in the C locale: blank, and tab through carriage return. */
  predicate IsSpace(c: char) {
    c == ' ' || '\t' <= c <= '\r'
  }

  predicate IsDigit(c: char) {
    '0' <= c <= '9'
  }

  predicate IsSign(c: char) {
    c == '+' || c == '-'
  }

  predicate AllSpaces(t: string) {
    forall m :: 0 <= m < |t| ==> IsSpace(t[m])
  }

  predicate AllDigits(t: string) {
    forall m :: 0 <= m < |t| ==> IsDigit(t[m])
  }

  /** The number a run of decimal digits denotes, most significant first. */
  function DigitsValue(t: string): nat
    requires AllDigits(t)
  {
    if |t| == 0 then 0
    else DigitsValue(t[..|t| - 1]) * 10 + (t[|t| - 1] as int - '0' as int)
  }

  /** `strtol` saturates an out-of-range result at LONG_MIN or LONG_MAX. */
  function Clamp(n: int): (r: int)
    ensures InLong(r)
    ensures InLong(n) ==> r == n
  {
    if n < LongMin then LongMin else if n > LongMax then LongMax else n
  }

  /** Index of the first non-space character at or after `i`. */
  function SkipSpaces(s: string, i: nat): (r: nat)
    requires i <= |s|
    ensures i <= r <= |s|
    ensures AllSpaces(s[i..r])
    ensures r == |s| || !IsSpace(s[r])
    decreases |s| - i
  {
    if i < |s| && IsSpace(s[i]) then SkipSpaces(s, i + 1) else i
  }

  /** Index of the first non-digit at or after `i`. */
  function SkipDigits(s: string, i: nat): (r: nat)
    requires i <= |s|
    ensures i <= r <= |s|
    ensures AllDigits(s[i..r])
    ensures r == |s| || !IsDigit(s[r])
    decreases |s| - i
  {
    if i < |s| && IsDigit(s[i]) then SkipDigits(s, i + 1) else i
  }

  /** What `strtol(s, &end, 10)` returns and where it leaves `end`. */
  datatype Conversion = Conversion(value: int, end: nat)

  /** `strtol(s, &end, 10)`: skip leading white space, read an optional sign
      and the longest run of digits after it. Without any digit the result
      is 0 and `end` is left at the start of the string, even past spaces
      or a sign. */
  function StrToL(s: string): (c: Conversion)
    ensures c.end <= |s|
    ensures InLong(c.value)
    ensures c.end == 0 ==> c.value == 0
  {
    var i := SkipSpaces(s, 0);
    var j := if i < |s| && IsSign(s[i]) then i + 1 else i;
    var k := SkipDigits(s, j);
    if k == j then Conversion(0, 0)
    else
      var magnitude: int := DigitsValue(s[j..k]);
      Conversion(Clamp(if j > i && s[i] == '-' then -magnitude else magnitude), k)
  }

  /** The acceptance rule of `kv_store_increment`: the conversion must leave
      `end` on the terminating NUL, that is, consume the whole string. */
  function ParseLong(s: string): (r: Option<int>)
    ensures r.Some? ==> InLong(r.value)
  {
    var c := StrToL(s);
    if c.end == |s| then Some(c.value) else None
  }

  /** Reference grammar: `s[..i]` is white space, `s[i..j]` an optional sign
      and `s[j..]` a non-empty run of digits. */
  predicate Numeral(s: string, i: nat, j: nat) {
    && i <= j < |s|
    && AllSpaces(s[..i])
    && (j == i || (j == i + 1 && IsSign(s[i])))
    && AllDigits(s[j..])
  }

  /** The value a numeral denotes, saturated to the range of `long`. */
  function NumeralValue(s: string, i: nat, j: nat): int
    requires Numeral(s, i, j)
  {
    var magnitude: int := DigitsValue(s[j..]);
    Clamp(if j > i && s[i] == '-' then -magnitude else magnitude)
  }

  /** The white space before `s[i]` ends exactly where a non-space or the
      end of the string is. */
  lemma SkipSpacesStops(s: string, a: nat, i: nat)
    requires a <= i <= |s|
    requires AllSpaces(s[a..i])
    requires i == |s| || !IsSpace(s[i])
    ensures SkipSpaces(s, a) == i
  {
  }

  /** The run of digits before `s[i]` ends exactly where a non-digit or the
      end of the string is. */
  lemma SkipDigitsStops(s: string, a: nat, i: nat)
    requires a <= i <= |s|
    requires AllDigits(s[a..i])
    requires i == |s| || !IsDigit(s[i])
    ensures SkipDigits(s, a) == i
  {
  }

  /** Every numeral of the reference grammar is accepted, with its value. */
  lemma ParseLongAccepts(s: string, i: nat, j: nat)
    requires Numeral(s, i, j)
    ensures ParseLong(s) == Some(NumeralValue(s, i, j))
  {
    assert s[0..i] == s[..i];
    assert !IsSpace(s[i]) by {
      if j == i {
        assert s[j] == s[j..][0];
      }
    }
    SkipSpacesStops(s, 0, i);
    if j == i {
      assert s[j] == s[j..][0];
      assert !IsSign(s[i]);
    }
    assert s[j..|s|] == s[j..];
    SkipDigitsStops(s, j, |s|);
  }

  /** Only numerals of the reference grammar, and the empty string, are
      accepted. */
  lemma ParseLongOnlyNumerals(s: string)
    requires ParseLong(s).Some?
    ensures s == [] || exists i: nat, j: nat :: Numeral(s, i, j)
  {
    if s != [] {
      var i := SkipSpaces(s, 0);
      var j := if i < |s| && IsSign(s[i]) then i + 1 else i;
      var k := SkipDigits(s, j);
      assert k != j;
      assert k == |s|;
      assert s[..i] == s[0..i];
      assert s[j..] == s[j..k];
      assert Numeral(s, i, j);
    }
  }

  /** The acceptance rule, both directions: a string passes exactly when it
      is empty or a numeral. */
  lemma ParseLongIff(s: string)
    ensures ParseLong(s).Some? <==> s == [] || exists i: nat, j: nat :: Numeral(s, i, j)
  {
    if ParseLong(s).Some? {
      ParseLongOnlyNumerals(s);
    } else if s != [] && exists i: nat, j: nat :: Numeral(s, i, j) {
      var i: nat, j: nat :| Numeral(s, i, j);
      ParseLongAccepts(s, i, j);
    }
  }

  /** The empty string passes as 0: `strtol` finds no digit and leaves `end`
      on the terminating NUL. */
  lemma ParseLongEmpty()
    ensures ParseLong("") == Some(0)
  {
  }

  /** Characters left after the number make the conversion fail. */
  lemma ParseLongRejectsTrailing(s: string, i: nat, j: nat, rest: string)
    requires Numeral(s, i, j)
    requires |rest| > 0 && !IsDigit(rest[0])
    ensures ParseLong(s + rest) == None
  {
    var t := s + rest;
    assert t[..|s|] == s;
    assert t[0..i] == s[..i];
    assert !IsSpace(t[i]) by {
      if j == i {
        assert t[j] == s[j..][0];
      }
    }
    SkipSpacesStops(t, 0, i);
    if j == i {
      assert t[j] == s[j..][0];
      assert !IsSign(t[i]);
    }
    assert t[j..|s|] == s[j..];
    SkipDigitsStops(t, j, |s|);
    assert t[|s|] == rest[0];
  }

  /** Leading white space is skipped: putting blanks in front of a string
      that starts with a sign or a digit does not change how it reads. */
  lemma ParseLongSkipsSpaces(w: string, t: string)
    requires AllSpaces(w)
    requires |t| > 0 && (IsSign(t[0]) || IsDigit(t[0]))
    ensures ParseLong(w + t) == ParseLong(t)
  {
    var s := w + t;
    assert s[0..|w|] == w;
    assert s[|w|] == t[0];
    SkipSpacesStops(s, 0, |w|);
    SkipSpacesStops(t, 0, 0);
    var j := if IsSign(t[0]) then 1 else 0;
    var k := SkipDigits(t, j);
    assert s[|w| + j..|w| + k] == t[j..k];
    if k < |t| {
      assert s[|w| + k] == t[k];
    }
    SkipDigitsStops(s, |w| + j, |w| + k);
  }

  /** A minus sign in front of digits negates their value, saturating at
      LONG_MIN. */
  lemma ParseLongNegates(s: string)
    requires |s| > 1 && s[0] == '-' && AllDigits(s[1..])
    ensures ParseLong(s) == Some(Clamp(-(DigitsValue(s[1..]) as int)))
  {
    assert AllSpaces(s[..0]);
    assert Numeral(s, 0, 1);
    ParseLongAccepts(s, 0, 1);
  }

  /** A non-empty string with no digit in it is refused: blanks alone or a
      sign alone leave `end` at the start. */
  lemma ParseLongRefusesNoDigits(s: string)
    requires |s| > 0
    requires forall m :: 0 <= m < |s| ==> !IsDigit(s[m])
    ensures ParseLong(s) == None
  {
    ParseLongIff(s);
    forall i: nat, j: nat
      ensures !Numeral(s, i, j)
    {
      if j < |s| {
        assert s[j..][0] == s[j];
      }
    }
  }

  /** A non-empty string that does not end in a digit is refused, so a
      trailing blank is never accepted. */
  lemma ParseLongRefusesSuffix(s: string)
    requires |s| > 0 && !IsDigit(s[|s| - 1])
    ensures ParseLong(s) == None
  {
    ParseLongIff(s);
    forall i: nat, j: nat
      ensures !Numeral(s, i, j)
    {
      if j < |s| {
        assert s[j..][|s| - 1 - j] == s[|s| - 1];
      }
    }
  }

  /** A string holding any character that is neither white space, a sign
      nor a digit is refused; the `x` of a hexadecimal prefix is one. */
  lemma ParseLongRefusesForeign(s: string, m: nat)
    requires m < |s|
    requires !IsSpace(s[m]) && !IsSign(s[m]) && !IsDigit(s[m])
    ensures ParseLong(s) == None
  {
    ParseLongIff(s);
    forall i: nat, j: nat
      ensures !Numeral(s, i, j)
    {
      if m < i <= |s| {
        assert s[..i][m] == s[m];
      }
      if j <= m {
        assert s[j..][m - j] == s[m];
      }
    }
  }

  function DigitChar(d: nat): (c: char)
    requires d < 10
    ensures IsDigit(c)
  {
    ('0' as int + d) as char
  }

  /** The decimal digits of `n`, without leading zeros. */
  function NatDigits(n: nat): (t: string)
    ensures |t| > 0 && AllDigits(t)
    ensures t[0] == '0' ==> n == 0 && |t| == 1
    decreases n
  {
    if n < 10 then [DigitChar(n)] else NatDigits(n / 10) + [DigitChar(n % 10)]
  }

  /** `sprintf(buf, "%ld", n)`: a minus sign for negative numbers, then the
      digits of the magnitude. */
  function Render(n: int): (t: string)
    ensures |t| > 0
    ensures t[0] == '-' <==> n < 0
    ensures Canonical(t)
  {
    if n < 0 then "-" + NatDigits(-n) else NatDigits(n)
  }

  /** The digit part of a numeral written without blanks or a plus sign. */
  function UnsignedPart(s: string): string {
    if |s| > 0 && s[0] == '-' then s[1..] else s
  }

  /** The form `%ld` writes: an optional minus sign, then digits with no
      leading zero, and no "-0". */
  predicate Canonical(s: string) {
    var d := UnsignedPart(s);
    && |d| > 0
    && AllDigits(d)
    && (d[0] == '0' ==> d == s && |d| == 1)
  }

  /** The number a canonical numeral denotes. */
  function CanonicalValue(s: string): int
    requires Canonical(s)
  {
    var magnitude: int := DigitsValue(UnsignedPart(s));
    if |s| > 0 && s[0] == '-' then -magnitude else magnitude
  }

  lemma {:induction false} NatDigitsValue(n: nat)
    ensures DigitsValue(NatDigits(n)) == n
    decreases n
  {
    var t := NatDigits(n);
    if n >= 10 {
      assert t[..|t| - 1] == NatDigits(n / 10);
      NatDigitsValue(n / 10);
    }
  }

  /** Rendering and reading back are inverse on the range of `long`: what
      increment stores reads as the number it returned. */
  lemma ParseRender(n: int)
    requires InLong(n)
    ensures ParseLong(Render(n)) == Some(n)
  {
    var t := Render(n);
    if n < 0 {
      NatDigitsValue(-n);
      assert t[1..] == NatDigits(-n);
      assert Numeral(t, 0, 1);
      ParseLongAccepts(t, 0, 1);
    } else {
      NatDigitsValue(n);
      assert t[0..] == t;
      assert Numeral(t, 0, 0);
      ParseLongAccepts(t, 0, 0);
    }
  }

  lemma {:induction false} DigitsValuePositive(d: string)
    requires |d| > 0 && AllDigits(d) && d[0] != '0'
    ensures DigitsValue(d) >= 1
    decreases |d|
  {
    if |d| > 1 {
      assert d[..|d| - 1][0] == d[0];
      DigitsValuePositive(d[..|d| - 1]);
    }
  }

  /** Digits without a leading zero are written back unchanged. */
  lemma {:induction false} NatDigitsOfValue(d: string)
    requires |d| > 0 && AllDigits(d)
    requires d[0] == '0' ==> |d| == 1
    ensures NatDigits(DigitsValue(d)) == d
    decreases |d|
  {
    var n := |d| - 1;
    var p := d[..n];
    if n > 0 {
      assert p[0] == d[0];
      DigitsValuePositive(p);
      NatDigitsOfValue(p);
      var v := DigitsValue(d);
      assert v / 10 == DigitsValue(p);
      assert d == p + [d[n]];
    } else {
      assert p == [];
    }
  }

  /** The converse round trip: every canonical numeral in the range of
      `long` is read as its value, and `%ld` writes that value back as the
      same string. */
  lemma RenderParse(s: string)
    requires Canonical(s)
    requires InLong(CanonicalValue(s))
    ensures ParseLong(s) == Some(CanonicalValue(s))
    ensures Render(CanonicalValue(s)) == s
  {
    var d := UnsignedPart(s);
    NatDigitsOfValue(d);
    if |s| > 0 && s[0] == '-' {
      assert |d| < |s|;
      DigitsValuePositive(d);
      assert s[..0] == [];
      assert s[1..] == d;
      assert Numeral(s, 0, 1);
      ParseLongAccepts(s, 0, 1);
      assert s == "-" + d;
    } else {
      assert s[..0] == [] && s[0..] == s;
      assert Numeral(s, 0, 0);
      ParseLongAccepts(s, 0, 0);
    }
  }

  /** `strtol(...) + 1` on a `long`. At LONG_MAX the C addition overflows;
      this takes the two's-complement wrap to LONG_MIN. */
  function LongIncrement(n: int): (r: int)
    requires InLong(n)
    ensures InLong(r)
    ensures n < LongMax ==> r == n + 1
    ensures n == LongMax ==> r == LongMin
  {
    if n == LongMax then LongMin else n + 1
  }
}
