/**
 The number spellings inside a generated spec: a volume's byte size and its octal mode
 (cmd/kanea/generate.go, internal/jobspec/bytesize.go, internal/jobspec/types.go).
 */
module Numerals {
  import opened Wrappers
  import opened Text

  const INT64_MAX: int := 0x7fff_ffff_ffff_ffff
  const SIZE_CEILING: int := 0x4000_0000_0000_0000  // 1 << 62
  const MAX_MODE: nat := 511                        // 0o777

  /** Two's-complement int64, for the conversions that can leave its range. */
  function WrapInt64(x: int): (w: int)
    ensures -INT64_MAX - 1 <= w <= INT64_MAX
    ensures -INT64_MAX - 1 <= x <= INT64_MAX ==> w == x
  {
    (x + INT64_MAX + 1) % (2 * (INT64_MAX + 1)) - INT64_MAX - 1
  }

  /** Go's integer division, which truncates toward zero. */
  function TruncDiv(a: int, b: nat): int
    requires b > 0
  {
    if a >= 0 then a / b else -((-a) / b)
  }

  // ---- positional numerals ---------------------------------------------

  predicate IsDigit(base: nat, c: char) {
    '0' <= c && (c as int - '0' as int) < base
  }

  predicate AllDigits(base: nat, s: string) {
    forall i :: 0 <= i < |s| ==> IsDigit(base, s[i])
  }

  function DigitChar(d: nat): (c: char)
    requires d < 10
    ensures IsDigit(10, c) && c as int - '0' as int == d
  {
    ('0' as int + d) as char
  }

  lemma {:induction false} QuotientAndRemainder(n: nat, base: nat)
    requires base == 8 || base == 10
    ensures n / base * base + n % base == n && n % base < base
    ensures n >= base ==> n / base < n
  {
    if base == 8 {
    } else {
    }
  }

  function Digits(base: nat, n: nat): (s: string)
    requires base == 8 || base == 10
    ensures s != "" && AllDigits(base, s)
  {
    QuotientAndRemainder(n, base);
    if n < base then [DigitChar(n)] else Digits(base, n / base) + [DigitChar(n % base)]
  }

  /** The value of a digit string, most significant digit first. */
  function Value(base: nat, s: string): nat
    requires AllDigits(base, s)
  {
    if s == "" then 0
    else Value(base, s[..|s| - 1]) * base + (s[|s| - 1] as int - '0' as int)
  }

  lemma {:induction false} ValueAppend(base: nat, s: string, d: nat)
    requires AllDigits(base, s) && d < base <= 10
    ensures AllDigits(base, s + [DigitChar(d)])
    ensures Value(base, s + [DigitChar(d)]) == Value(base, s) * base + d
  {
    var t := s + [DigitChar(d)];
    assert t[..|t| - 1] == s && t[|t| - 1] == DigitChar(d);
  }

  lemma {:induction false} ValueOfDigits(base: nat, n: nat)
    requires base == 8 || base == 10
    ensures Value(base, Digits(base, n)) == n
  {
    QuotientAndRemainder(n, base);
    if n < base {
      ValueAppend(base, "", n);
      assert "" + [DigitChar(n)] == [DigitChar(n)];
    } else {
      ValueOfDigits(base, n / base);
      ValueAppend(base, Digits(base, n / base), n % base);
    }
  }

  /** strconv.ParseInt(s, 10, 64). */
  function ParseInt64(s: string): Option<int> {
    var negative := s != "" && s[0] == '-';
    var body := if s != "" && (s[0] == '-' || s[0] == '+') then s[1..] else s;
    if body == "" || !AllDigits(10, body) then None
    else
      var magnitude: int := Value(10, body);
      if negative then (if magnitude > INT64_MAX + 1 then None else Some(-magnitude))
      else if magnitude > INT64_MAX then None
      else Some(magnitude)
  }

  lemma {:induction false} ParseDecimal(n: nat)
    requires n <= INT64_MAX
    ensures ParseInt64(Digits(10, n)) == Some(n)
  {
    ValueOfDigits(10, n);
    assert IsDigit(10, Digits(10, n)[0]);
  }

  // ---- byte sizes --------------------------------------------------------

  datatype Unit = Unit(suffix: string, scale: nat)

  const KIB: nat := 0x400
  const MIB: nat := 0x10_0000
  const GIB: nat := 0x4000_0000
  const TIB: nat := 0x100_0000_0000

  /** The suffixes ParseByteSize tries, in order. */
  const BYTE_UNITS: seq<Unit> := [
    Unit("GiB", GIB), Unit("MiB", MIB), Unit("KiB", KIB), Unit("TiB", TIB), Unit("T", TIB),
    Unit("G", GIB), Unit("M", MIB), Unit("K", KIB), Unit("B", 1)]

  predicate HasSuffix(s: string, suffix: string) {
    |suffix| <= |s| && s[|s| - |suffix|..] == suffix
  }

  function ParseSuffixed(s: string, units: seq<Unit>): Option<int> {
    if units == [] then
      match ParseInt64(s)
      case None => None
      case Some(n) => if n <= 0 then None else Some(n)
    else if !HasSuffix(s, units[0].suffix) then ParseSuffixed(s, units[1..])
    else
      match ParseInt64(Trim(s[..|s| - |units[0].suffix|]))
      case None => None
      case Some(n) =>
        if n <= 0 || units[0].scale == 0 || n > SIZE_CEILING / units[0].scale then None
        else Some(n * units[0].scale)
  }

  /** jobspec.ParseByteSize. */
  function ParseByteSize(s: string): Option<int> {
    if Trim(s) == "" then None else ParseSuffixed(Trim(s), BYTE_UNITS)
  }

  /** The generator's formatByteSize: the largest binary unit that divides evenly, else plain bytes. */
  function FormatByteSize(n: nat): string {
    if n % GIB == 0 then Digits(10, n / GIB) + "GiB"
    else if n % MIB == 0 then Digits(10, n / MIB) + "MiB"
    else if n % KIB == 0 then Digits(10, n / KIB) + "KiB"
    else Digits(10, n)
  }

  /** A size the generator's spelling brings back: a caller can test it before printing. */
  predicate SizeSurvives(n: int) {
    n <= SIZE_CEILING || n % KIB != 0
  }

  /** What ParseByteSize makes of a digit string under a unit. */
  function ScaledSize(d: string, scale: nat): Option<int>
    requires scale > 0
  {
    match ParseInt64(d)
    case None => None
    case Some(n) => if n <= 0 || n > SIZE_CEILING / scale then None else Some(n * scale)
  }

  /** The first unit whose suffix matches decides the parse. */
  lemma {:induction false} FirstUnitDecides(d: string, units: seq<Unit>, k: nat)
    requires d != "" && AllDigits(10, d)
    requires k < |units| && units[k].scale > 0
    requires forall j :: 0 <= j < k ==> !HasSuffix(d + units[k].suffix, units[j].suffix)
    ensures ParseSuffixed(d + units[k].suffix, units) == ScaledSize(d, units[k].scale)
  {
    if k == 0 {
      var s := d + units[0].suffix;
      assert s[..|s| - |units[0].suffix|] == d;
      assert IsDigit(10, d[0]) && IsDigit(10, d[|d| - 1]);
      TrimKeeps(d);
    } else {
      assert !HasSuffix(d + units[k].suffix, units[0].suffix);
      FirstUnitDecides(d, units[1..], k - 1);
    }
  }

  /** A digit string matches no unit and is read as a plain count. */
  lemma {:induction false} PlainFallsThrough(d: string, units: seq<Unit>)
    requires d != "" && AllDigits(10, d)
    requires forall i :: 0 <= i < |units| ==>
               units[i].suffix != "" && !IsDigit(10, units[i].suffix[|units[i].suffix| - 1])
    ensures ParseSuffixed(d, units) ==
            match ParseInt64(d) case None => None case Some(n) => if n <= 0 then None else Some(n)
  {
    if units != [] {
      var suffix := units[0].suffix;
      assert IsDigit(10, d[|d| - 1]);
      assert |suffix| <= |d| ==> d[|d| - |suffix|..][|suffix| - 1] == d[|d| - 1];
      PlainFallsThrough(d, units[1..]);
    }
  }

  lemma {:induction false} SpelledWithUnit(d: string, k: nat)
    requires d != "" && AllDigits(10, d) && k < 3
    ensures ParseByteSize(d + BYTE_UNITS[k].suffix) == ScaledSize(d, BYTE_UNITS[k].scale)
  {
    var s := d + BYTE_UNITS[k].suffix;
    assert IsDigit(10, s[0]) && s[|s| - 1] == 'B';
    TrimKeeps(s);
    assert s[|s| - 3..] == BYTE_UNITS[k].suffix;
    FirstUnitDecides(d, BYTE_UNITS, k);
  }

  lemma {:induction false} SpelledPlain(d: string)
    requires d != "" && AllDigits(10, d)
    ensures ParseByteSize(d) ==
            match ParseInt64(d) case None => None case Some(n) => if n <= 0 then None else Some(n)
  {
    assert IsDigit(10, d[0]) && IsDigit(10, d[|d| - 1]);
    TrimKeeps(d);
    PlainFallsThrough(d, BYTE_UNITS);
  }

  /** A count spelled with a unit is read back exactly when it is within the parser's ceiling. */
  lemma {:induction false} UnitRoundTrip(q: nat, k: nat)
    requires k < 3 && 0 < q <= INT64_MAX
    ensures ParseByteSize(Digits(10, q) + BYTE_UNITS[k].suffix) ==
            if q * BYTE_UNITS[k].scale <= SIZE_CEILING then Some(q * BYTE_UNITS[k].scale) else None
  {
    ParseDecimal(q);
    SpelledWithUnit(Digits(10, q), k);
    var unit := BYTE_UNITS[k].scale;
    assert unit == GIB || unit == MIB || unit == KIB;
    assert q > SIZE_CEILING / unit <==> q * unit > SIZE_CEILING;
  }

  lemma {:induction false} PlainRoundTrip(n: nat)
    requires 0 < n <= INT64_MAX
    ensures ParseByteSize(Digits(10, n)) == Some(n)
  {
    ParseDecimal(n);
    SpelledPlain(Digits(10, n));
  }

  lemma {:induction false} Multiple(q: nat, k: nat)
    ensures q * k * KIB % KIB == 0
  {
    var m := q * k;
    assert m * KIB % KIB == 0;
  }

  /**
   formatByteSize is documented as the exact inverse of ParseByteSize. It is, except above 1 << 62:
   there a multiple of 1 KiB is printed with a unit, and the parser's overflow guard refuses it.
   */
  lemma {:induction false} ByteSizeRoundTrip(n: int)
    requires 0 < n <= INT64_MAX
    ensures ParseByteSize(FormatByteSize(n)) == (if SizeSurvives(n) then Some(n) else None)
  {
    hide ParseByteSize, Digits;
    var text := FormatByteSize(n);
    if n % GIB == 0 {
      assert text == Digits(10, n / GIB) + BYTE_UNITS[0].suffix;
      UnitRoundTrip(n / GIB, 0);
      Multiple(n / GIB, MIB);
    } else if n % MIB == 0 {
      assert text == Digits(10, n / MIB) + BYTE_UNITS[1].suffix;
      UnitRoundTrip(n / MIB, 1);
      Multiple(n / MIB, KIB);
    } else if n % KIB == 0 {
      assert text == Digits(10, n / KIB) + BYTE_UNITS[2].suffix;
      UnitRoundTrip(n / KIB, 2);
    } else {
      PlainRoundTrip(n);
    }
  }

  /** A size ParseByteSize accepts as a plain count and the generator then spells unparsably. */
  lemma {:induction false} ByteSizeInverseFails(n: int)
    requires n == SIZE_CEILING + KIB
    ensures ParseByteSize(Digits(10, n)) == Some(n)
    ensures ParseByteSize(FormatByteSize(n)) == None
  {
    hide ParseByteSize, FormatByteSize;
    PlainRoundTrip(n);
    ByteSizeRoundTrip(n);
  }

  // ---- octal modes -------------------------------------------------------

  /** jobspec.ParseMode: one to four octal digits, no bit above 0777. */
  function ParseMode(s: string): Option<nat> {
    if s == "" || |s| > 4 || !AllDigits(8, s) then None
    else if Value(8, s) > MAX_MODE then None
    else Some(Value(8, s))
  }

  function PadLeft(s: string, width: nat): string
    decreases width - |s|
  {
    if |s| < width then PadLeft("0" + s, width) else s
  }

  /** fmt.Sprintf("%04o", m). */
  function FormatMode(m: nat): string {
    PadLeft(Digits(8, m), 4)
  }

  lemma {:induction false} ValueIgnoresLeadingZero(s: string)
    requires AllDigits(8, s)
    ensures AllDigits(8, "0" + s) && Value(8, "0" + s) == Value(8, s)
  {
    if s == "" {
      assert ("0" + s)[..0] == "";
    } else {
      assert ("0" + s)[..|s|] == "0" + s[..|s| - 1];
      ValueIgnoresLeadingZero(s[..|s| - 1]);
    }
  }

  lemma {:induction false} PadKeepsValue(s: string, width: nat)
    requires AllDigits(8, s)
    ensures AllDigits(8, PadLeft(s, width)) && Value(8, PadLeft(s, width)) == Value(8, s)
    ensures |PadLeft(s, width)| == if |s| < width then width else |s|
    decreases width - |s|
  {
    if |s| < width {
      ValueIgnoresLeadingZero(s);
      PadKeepsValue("0" + s, width);
    }
  }

  lemma {:induction false} OctalWidth(m: nat)
    requires m <= MAX_MODE
    ensures |Digits(8, m)| <= 3
  {
    assert m >= 64 ==> |Digits(8, m / 8 / 8)| == 1;
    assert m >= 8 ==> |Digits(8, m)| == |Digits(8, m / 8)| + 1;
  }

  /** Printing a mode and parsing it gives it back exactly when it has no bit above 0777. */
  lemma {:induction false} ModeRoundTrip(m: nat)
    ensures ParseMode(FormatMode(m)) == if m <= MAX_MODE then Some(m) else None
  {
    ValueOfDigits(8, m);
    PadKeepsValue(Digits(8, m), 4);
    if m <= MAX_MODE {
      OctalWidth(m);
    }
  }

  // ---- what the spellings mean -------------------------------------------

  /** Every unit a size may be written with, against its meaning in bytes. */
  lemma {:induction false} SizeUnitLaw(n: nat)
    requires 0 < n <= 0x40_0000  // in range under every unit
    ensures ParseByteSize(Digits(10, n)) == Some(n) && ParseByteSize(Digits(10, n) + "B") == Some(n)
    ensures ParseByteSize(Digits(10, n) + "K") == Some(n * 1024) && ParseByteSize(Digits(10, n) + "KiB") == Some(n * 1024)
    ensures ParseByteSize(Digits(10, n) + "M") == Some(n * 1048576) && ParseByteSize(Digits(10, n) + "MiB") == Some(n * 1048576)
    ensures ParseByteSize(Digits(10, n) + "G") == Some(n * 1073741824) && ParseByteSize(Digits(10, n) + "GiB") == Some(n * 1073741824)
    ensures ParseByteSize(Digits(10, n) + "T") == Some(n * 1099511627776) && ParseByteSize(Digits(10, n) + "TiB") == Some(n * 1099511627776)
  {
    PlainRoundTrip(n);
    UnitLaw(n, 0);
    UnitLaw(n, 1);
    UnitLaw(n, 2);
    UnitLaw(n, 3);
    UnitLaw(n, 4);
    UnitLaw(n, 5);
    UnitLaw(n, 6);
    UnitLaw(n, 7);
    UnitLaw(n, 8);
  }

  lemma {:induction false} UnitLaw(n: nat, k: nat)
    requires 0 < n <= 0x40_0000 && k < |BYTE_UNITS|
    ensures ParseByteSize(Digits(10, n) + BYTE_UNITS[k].suffix) == Some(n * BYTE_UNITS[k].scale)
  {
    var d, u := Digits(10, n), BYTE_UNITS[k];
    ParseDecimal(n);
    assert IsDigit(10, d[0]);
    assert u.suffix != "" && !IsSpace(u.suffix[|u.suffix| - 1]) && 0 < u.scale <= TIB;
    TrimKeeps(d + u.suffix);
    forall j | 0 <= j < k ensures !HasSuffix(d + u.suffix, BYTE_UNITS[j].suffix) {
      UnitsDiffer(j, k);
      NotSuffix(d, BYTE_UNITS[j].suffix, u.suffix);
    }
    hide ParseSuffixed, HasSuffix, Digits, IsDigit, Trim;
    FirstUnitDecides(d, BYTE_UNITS, k);
    CeilingOver(k);
  }

  lemma {:induction false} CeilingOver(k: nat)
    requires k < |BYTE_UNITS|
    ensures SIZE_CEILING / BYTE_UNITS[k].scale >= 0x40_0000
  {
    assert SIZE_CEILING / TIB == 0x40_0000 && SIZE_CEILING / GIB == 0x1_0000_0000;
    assert SIZE_CEILING / MIB == 0x400_0000_0000 && SIZE_CEILING / KIB == 0x10_0000_0000_0000;
  }

  /** Two units never both end one text. */
  predicate Apart(a: string, b: string) {
    && a != "" && b != ""
    && (a[|a| - 1] != b[|b| - 1] || (|a| == |b| && a != b) || (|a| > |b| && !IsDigit(10, a[|a| - |b| - 1])))
  }

  lemma {:induction false} UnitsDiffer(j: nat, k: nat)
    requires j < k < |BYTE_UNITS|
    ensures Apart(BYTE_UNITS[j].suffix, BYTE_UNITS[k].suffix)
  {
  }

  lemma {:induction false} NotSuffix(d: string, a: string, b: string)
    requires d != "" && AllDigits(10, d) && Apart(a, b)
    ensures !HasSuffix(d + b, a)
  {
    var s := d + b;
    if |a| <= |s| {
      var t := s[|s| - |a|..];
      assert t[|a| - 1] == s[|s| - 1] == b[|b| - 1];
      if |a| == |b| {
        assert t == b;
      } else if |a| > |b| {
        assert t[|a| - |b| - 1] == d[|d| - 1];
      }
    }
  }

  /** Four octal digits, of nine bits. */
  lemma {:induction false} ModeLaw(m: nat)
    ensures |FormatMode(m)| >= 4 && (m <= 0x1ff ==> |FormatMode(m)| == 4)
    ensures ParseMode(FormatMode(m)).Some? <==> m <= 0x1ff
  {
    ModeRoundTrip(m);
    PadKeepsValue(Digits(8, m), 4);
    if m <= 0x1ff {
      OctalWidth(m);
    }
  }

  lemma {:induction false} ModeAcceptance(s: string)
    ensures ParseMode(s).Some? <==>
              1 <= |s| <= 4 && (forall i :: 0 <= i < |s| ==> s[i] in "01234567") && Value8(s) <= 511
    ensures ParseMode(s).Some? ==> ParseMode(s).value == Value8(s)
  {
    OctalDigits(s);
    if forall i :: 0 <= i < |s| ==> s[i] in "01234567" {
      ValueIs8(s);
    }
  }

  lemma {:induction false} OctalDigits(s: string)
    ensures AllDigits(8, s) <==> forall i :: 0 <= i < |s| ==> s[i] in "01234567"
  {
    forall c: char ensures IsDigit(8, c) <==> c in "01234567" {
    }
  }

  /** Horner's rule over octal digits. */
  function Value8(s: string): int {
    if s == "" then 0 else 8 * Value8(s[..|s| - 1]) + s[|s| - 1] as int - 48
  }

  lemma {:induction false} ValueIs8(s: string)
    requires AllDigits(8, s)
    ensures Value8(s) == Value(8, s)
  {
    if s != "" {
      ValueIs8(s[..|s| - 1]);
    }
  }

  /** Division toward zero. */
  lemma {:induction false} TruncDivLaw(a: int, b: nat)
    requires b > 0
    ensures var q := TruncDiv(a, b); var r := a - q * b;
            r < b && -r < b && (a >= 0 ==> r >= 0) && (a <= 0 ==> r <= 0)
  {
  }

  /** Wrapping moves a value by a multiple of 2^64. */
  lemma {:induction false} WrapLaw(x: int) returns (k: int)
    ensures WrapInt64(x) == x + k * 0x1_0000_0000_0000_0000
  {
    var m := 0x1_0000_0000_0000_0000;
    var y := x + INT64_MAX + 1;
    k := -(y / m);
    assert y == y / m * m + y % m;
  }

  /** strconv.ParseInt on a digit string with and without a sign, to the ends of an int64. */
  lemma {:induction false} SignedLaw(n: nat)
    ensures ParseInt64(Digits(10, n)) == if n <= 0x7fff_ffff_ffff_ffff then Some(n) else None
    ensures ParseInt64("+" + Digits(10, n)) == if n <= 0x7fff_ffff_ffff_ffff then Some(n) else None
    ensures match ParseInt64("-" + Digits(10, n))
            case Some(v) => n <= 0x8000_0000_0000_0000 && v + n == 0
            case None => n > 0x8000_0000_0000_0000
    ensures ParseInt64("") == None && ParseInt64("-") == None && ParseInt64("+") == None
  {
    var d := Digits(10, n);
    ValueOfDigits(10, n);
    assert IsDigit(10, d[0]);
    assert ("+" + d)[1..] == d && ("-" + d)[1..] == d;
    assert "-"[1..] == "" && "+"[1..] == "";
  }

  /** And refuses anything else. */
  lemma {:induction false} ParseInt64Refuses(s: string)
    ensures ParseInt64(s).Some? ==>
              var body := if s != "" && (s[0] == '-' || s[0] == '+') then s[1..] else s;
              body != "" && forall i :: 0 <= i < |body| ==> body[i] in "0123456789"
  {
    forall c: char ensures IsDigit(10, c) <==> c in "0123456789" {
    }
  }
}
