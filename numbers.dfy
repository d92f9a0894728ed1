/** Number classification of token text (femtolisp/read.c `isnumtok`) and the C library
    conversions it relies on: `strtoll`/`strtoull`/`strtol` as ISO C99 section 7.20.1.4
    describes them (optional white space, optional sign, `0x`/`0X` prefix for base 16,
    leading `0` for base 8 when the base is 0). `strtod` is not modelled: the caller
    supplies it as a `FloatScanner`. */
module Numbers {
  import opened Errors
  import opened Chars

  /** What `strtod` reports: how many characters it consumed and whether it set ERANGE. */
  datatype FloatScan = FloatScan(consumed: nat, erange: bool)
  type FloatScanner = string -> FloatScan

  /** The value a numeric token denotes. A float is kept as the text `strtod` consumed and
      a flag for the single-precision (`f` suffix) form. */
  datatype NumValue = IntVal(i: int) | FloatVal(text: string, single: bool)

  /** Outcome of `isnumtok`; `erange` is what `errno` holds afterwards. */
  datatype NumTok = NotNumber | Number(v: NumValue, erange: bool)

  /** The subject sequence of a `strto*l` call: characters consumed (0 when no
      conversion could be performed), the sign, and the magnitude of the digits. */
  datatype Conv = Conv(consumed: nat, negative: bool, magnitude: nat)

  /** A conversion result after the range check of the particular function. */
  datatype IntScan = IntScan(consumed: nat, value: int, erange: bool)

  const Two64: int := 0x1_0000_0000_0000_0000
  const Two63: int := 0x8000_0000_0000_0000

  predicate InBase(c: char, base: nat)
  {
    IsHexDigit(c) && DigitValue(c) < base
  }

  function SkipSpace(s: string, i: nat): (j: nat)
    requires i <= |s|
    ensures i <= j <= |s|
    ensures forall k :: i <= k < j ==> IsSpace(s[k])
    ensures j == |s| || !IsSpace(s[j])
    decreases |s| - i
  {
    if i < |s| && IsSpace(s[i]) then SkipSpace(s, i + 1) else i
  }

  /** End of the longest run of digits of the given base starting at `i`. */
  function DigitRunEnd(s: string, i: nat, base: nat): (j: nat)
    requires i <= |s|
    ensures i <= j <= |s|
    ensures forall k :: i <= k < j ==> InBase(s[k], base)
    ensures j == |s| || !InBase(s[j], base)
    decreases |s| - i
  {
    if i < |s| && InBase(s[i], base) then DigitRunEnd(s, i + 1, base) else i
  }

  predicate AllInBase(ds: string, base: nat)
  {
    forall k :: 0 <= k < |ds| ==> InBase(ds[k], base)
  }

  /** Positional value of a digit string. */
  function DigitsValue(ds: string, base: nat): nat
    requires AllInBase(ds, base)
  {
    if ds == [] then 0
    else
      var init, last := ds[..|ds| - 1], ds[|ds| - 1];
      assert InBase(last, base);
      assert AllInBase(init, base) by {
        forall k | 0 <= k < |init| ensures InBase(init[k], base) { assert init[k] == ds[k]; }
      }
      var d: nat := DigitValue(last);
      var v: nat := DigitsValue(init, base);
      v * base + d
  }

  predicate HexPrefixAt(s: string, j: nat)
  {
    j + 2 < |s| && s[j] == '0' && (s[j + 1] == 'x' || s[j + 1] == 'X') && IsHexDigit(s[j + 2])
  }

  function SignLength(s: string, i: nat): nat
  {
    if i < |s| && (s[i] == '+' || s[i] == '-') then 1 else 0
  }

  /** The base actually used: base 0 picks 16 after `0x`/`0X`, 8 after a leading `0`,
      otherwise 10. */
  function EffectiveBase(s: string, j: nat, base: nat): nat
  {
    if base != 0 then base
    else if HexPrefixAt(s, j) then 16
    else if j < |s| && s[j] == '0' then 8
    else 10
  }

  /** Converts the digit run at `k`; no digits means no conversion (nothing consumed). */
  function ConvertDigits(s: string, k: nat, b: nat, negative: bool): (c: Conv)
    requires k <= |s|
    ensures c.consumed <= |s|
  {
    var e := DigitRunEnd(s, k, b);
    if e == k then Conv(0, false, 0) else Conv(e, negative, DigitsValue(s[k..e], b))
  }

  /** The subject sequence of `strtol`-family functions for base 0, 8, 10 or 16. */
  function ScanInteger(s: string, base: nat): (c: Conv)
    requires base == 0 || base == 8 || base == 10 || base == 16
    ensures c.consumed <= |s|
  {
    var i := SkipSpace(s, 0);
    var j := i + SignLength(s, i);
    var k := if (base == 0 || base == 16) && HexPrefixAt(s, j) then j + 2 else j;
    ConvertDigits(s, k, EffectiveBase(s, j, base), i < |s| && s[i] == '-')
  }

  /** `strtoull(s, &end, 0)`: out-of-range magnitudes give ULLONG_MAX and ERANGE; a minus
      sign negates modulo 2^64. */
  function StrToULL(s: string): (r: IntScan)
    ensures 0 <= r.value < Two64
  {
    var c := ScanInteger(s, 0);
    if c.magnitude >= Two64 then IntScan(c.consumed, Two64 - 1, true)
    else IntScan(c.consumed, if c.negative then (Two64 - c.magnitude) % Two64 else c.magnitude, false)
  }

  /** `strtoll(s, &end, base)` (also `strtol` with a 64-bit `long`): results outside
      [-2^63, 2^63 - 1] are clamped with ERANGE. */
  function StrToLL(s: string, base: nat): (r: IntScan)
    requires base == 0 || base == 8 || base == 10 || base == 16
    ensures -Two63 <= r.value < Two63
  {
    var c := ScanInteger(s, base);
    if c.negative then
      if c.magnitude > Two63 then IntScan(c.consumed, -Two63, true) else IntScan(c.consumed, -(c.magnitude as int), false)
    else
      if c.magnitude >= Two63 then IntScan(c.consumed, Two63 - 1, true) else IntScan(c.consumed, c.magnitude, false)
  }

  /** `0x...` and `0` followed by a digit are always integer syntax. */
  predicate IntegerPrefix(tok: string)
  {
    |tok| >= 2 && tok[0] == '0' && (tok[1] == 'x' || IsDigit(tok[1]))
  }

  predicate HasFloatMarker(tok: string)
  {
    exists k :: 0 <= k < |tok| && (tok[k] == '.' || tok[k] == 'e' || tok[k] == 'E')
  }

  predicate TakesFloatPath(tok: string)
  {
    tok != [] && !IntegerPrefix(tok) && HasFloatMarker(tok)
  }

  /** `isnumtok`: classify token text as a float, an integer or not a number. */
  function IsNumTok(tok: string, strtod: FloatScanner): (r: NumTok)
    ensures tok == [] ==> r == NotNumber
    ensures r.Number? && r.v.FloatVal? ==> TakesFloatPath(tok)
    ensures r.Number? && r.v.IntVal? ==> IsDigit(tok[0]) || tok[0] == '-' || tok[0] == '+'
  {
    if tok == [] then NotNumber
    else
      var floatTried := TakesFloatPath(tok);
      var fs := strtod(tok);
      if floatTried && fs.consumed == |tok| then
        Number(FloatVal(tok, false), fs.erange)
      else if floatTried && 0 < fs.consumed && fs.consumed + 1 == |tok| && tok[fs.consumed] == 'f' then
        Number(FloatVal(tok[..fs.consumed], true), fs.erange)
      else if IsDigit(tok[0]) || tok[0] == '-' || tok[0] == '+' then
        var ic := if tok[0] == '-' then StrToLL(tok, 0) else StrToULL(tok);
        if ic.consumed == |tok| then Number(IntVal(ic.value), (floatTried && fs.erange) || ic.erange)
        else NotNumber
      else NotNumber
  }

  /** `strtol(text, &end, 10)` as the label and gensym syntax use it: the whole text must
      convert without ERANGE. */
  function DecimalLabel(text: string): (r: Option<int>)
    ensures r.Some? ==> -Two63 <= r.value < Two63
  {
    var ic := StrToLL(text, 10);
    if ic.consumed == |text| && !ic.erange then Some(ic.value) else None
  }
}
