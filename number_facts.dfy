/** What `isnumtok` promises, stated over all token texts. */
module NumberFacts {
  import opened Errors
  import opened Chars
  import opened Numbers

  /** The three ways C source writes an integer that `strtol` in base 0 recognises. */
  datatype Radix = Octal | Decimal | Hexadecimal

  function Base(r: Radix): nat
  {
    match r
    case Octal => 8
    case Decimal => 10
    case Hexadecimal => 16
  }

  /** The digit of value `d`, in lower case above 9. */
  function DigitChar(d: nat): (c: char)
    requires d < 16
    ensures IsHexDigit(c) && DigitValue(c) == d
    ensures '0' <= c <= '9' || 'a' <= c <= 'f'
  {
    if d < 10 then ('0' as int + d) as char else ('a' as int + d - 10) as char
  }

  /** Canonical digits of `n` in base `b`, most significant first, without leading zeros. */
  function DigitText(n: nat, b: nat): (s: string)
    requires 2 <= b <= 16
    ensures |s| >= 1
  {
    if n < b then [DigitChar(n)] else DigitText(n / b, b) + [DigitChar(n % b)]
  }

  /** What C source writes before the digits: nothing, `0x`, or `0`. */
  function Prefix(r: Radix): string
  {
    match r
    case Decimal => ""
    case Hexadecimal => "0x"
    case Octal => "0"
  }

  /** A numeral: decimal digits, `0x` before hexadecimal digits, `0` before octal ones. */
  function Numeral(r: Radix, n: nat): string
  {
    Prefix(r) + DigitText(n, Base(r))
  }

  lemma DigitTextDigits(n: nat, b: nat)
    requires 2 <= b <= 16
    ensures AllInBase(DigitText(n, b), b)
    ensures DigitsValue(DigitText(n, b), b) == n
    ensures forall k :: 0 <= k < |DigitText(n, b)| ==>
      var c := DigitText(n, b)[k]; ('0' <= c <= '9' || 'a' <= c <= 'f') && (b <= 10 ==> IsDigit(c))
    ensures DigitText(n, b)[0] == '0' <==> n == 0
    ensures n == 0 ==> DigitText(n, b) == "0"
  {
    DigitTextValue(n, b);
    DigitTextShape(n, b);
  }

  /** The digits are in base `b` and denote `n`. */
  lemma {:induction false} DigitTextValue(n: nat, b: nat)
    requires 2 <= b <= 16
    ensures AllInBase(DigitText(n, b), b)
    ensures DigitsValue(DigitText(n, b), b) == n
    decreases n
  {
    var s := DigitText(n, b);
    if n < b {
      assert s[..0] == [];
    } else {
      var q, m := n / b, n % b;
      DivStep(n, b);
      DigitTextValue(q, b);
      var p := DigitText(q, b);
      assert s == p + [DigitChar(m)];
      assert s[..|s| - 1] == p;
      forall k | 0 <= k < |s| ensures InBase(s[k], b) {
        if k < |p| { assert s[k] == p[k]; }
      }
      assert DigitsValue(s, b) == DigitsValue(p, b) * b + m;
    }
  }

  /** Euclidean division by a base, one digit at a time. */
  lemma DivStep(n: nat, b: nat)
    requires 2 <= b <= 16 && n >= b
    ensures 1 <= n / b < n && n % b < b && (n / b) * b + n % b == n
  {
  }

  /** Lower-case digits, with a leading zero only in the numeral of zero. */
  lemma {:induction false} DigitTextShape(n: nat, b: nat)
    requires 2 <= b <= 16
    ensures forall k :: 0 <= k < |DigitText(n, b)| ==>
      var c := DigitText(n, b)[k]; ('0' <= c <= '9' || 'a' <= c <= 'f') && (b <= 10 ==> IsDigit(c))
    ensures DigitText(n, b)[0] == '0' <==> n == 0
    ensures n == 0 ==> DigitText(n, b) == "0"
    decreases n
  {
    var s := DigitText(n, b);
    if n >= b {
      var q := n / b;
      DivStep(n, b);
      DigitTextShape(q, b);
      var p := DigitText(q, b);
      assert s == p + [DigitChar(n % b)];
      assert s[0] == p[0];
      forall k | 0 <= k < |s|
        ensures ('0' <= s[k] <= '9' || 'a' <= s[k] <= 'f') && (b <= 10 ==> IsDigit(s[k]))
      {
        if k < |p| { assert s[k] == p[k]; }
      }
    }
  }

  /** A leading zero does not change the value of a digit string. */
  lemma {:induction false} LeadingZero(t: string, b: nat)
    requires 2 <= b <= 16 && AllInBase(t, b)
    ensures AllInBase("0" + t, b) && DigitsValue("0" + t, b) == DigitsValue(t, b)
    decreases |t|
  {
    var s := "0" + t;
    forall k | 0 <= k < |s| ensures InBase(s[k], b) {
      if k > 0 { assert s[k] == t[k - 1]; }
    }
    if t == [] {
      assert s[..0] == [];
    } else {
      var init := t[..|t| - 1];
      forall k | 0 <= k < |init| ensures InBase(init[k], b) { assert init[k] == t[k]; }
      LeadingZero(init, b);
      assert s[..|s| - 1] == "0" + init;
    }
  }

  /** A digit run that reaches the end of the text is converted whole. */
  lemma RunConverts(s: string, k: nat, b: nat, negative: bool)
    requires k < |s| && 2 <= b <= 16 && AllInBase(s[k..], b)
    ensures ConvertDigits(s, k, b, negative) == Conv(|s|, negative, DigitsValue(s[k..], b))
  {
    forall i | k <= i < |s| ensures InBase(s[i], b) { assert s[i] == s[k..][i - k]; }
    assert DigitRunEnd(s, k, b) == |s|;
    assert s[k..|s|] == s[k..];
  }

  /** Lower-case digit text. */
  predicate LowerDigits(d: string)
  {
    |d| >= 1 && forall k :: 0 <= k < |d| ==> '0' <= d[k] <= '9' || 'a' <= d[k] <= 'f'
  }

  /** The sign, if any, is where `strtol` looks for it, after no white space. */
  lemma SignedStart(sign: string, rest: string, s: string)
    requires sign == [] || sign == "-" || sign == "+"
    requires |rest| >= 1 && (IsDigit(rest[0]) || 'a' <= rest[0] <= 'f') && s == sign + rest
    ensures SkipSpace(s, 0) == 0 && SignLength(s, 0) == |sign|
    ensures (0 < |s| && s[0] == '-') == (sign == "-")
  {
    assert s[0] == (if sign == [] then rest[0] else sign[0]);
  }

  /** Base 0: once the start of the digits and the base are known, a digit run reaching
      the end of the text is the whole subject sequence. */
  lemma ScanAt(s: string, j: nat, k: nat, b: nat, negative: bool)
    requires SkipSpace(s, 0) == 0 && SignLength(s, 0) == j
    requires (0 < |s| && s[0] == '-') == negative
    requires k == (if HexPrefixAt(s, j) then j + 2 else j) && EffectiveBase(s, j, 0) == b
    requires k < |s| && 2 <= b <= 16 && AllInBase(s[k..], b)
    ensures ScanInteger(s, 0) == Conv(|s|, negative, DigitsValue(s[k..], b))
  {
    RunConverts(s, k, b, negative);
  }

  lemma ScanDecimalDigits(sign: string, d: string, s: string)
    requires sign == [] || sign == "-" || sign == "+"
    requires LowerDigits(d) && AllInBase(d, 10) && (d[0] == '0' ==> d == "0")
    requires s == sign + (Prefix(Decimal) + d)
    ensures ScanInteger(s, 0) == Conv(|s|, sign == "-", DigitsValue(d, 10))
  {
    var j := |sign|;
    assert s == sign + d;
    SignedStart(sign, d, s);
    assert s[j..] == d;
    if d == "0" {
      ScanZero(sign, s);
    } else {
      assert s[j] == d[0] && !HexPrefixAt(s, j);
      ScanAt(s, j, j, 10, sign == "-");
    }
  }

  lemma ScanZero(sign: string, s: string)
    requires sign == [] || sign == "-" || sign == "+"
    requires s == sign + "0"
    ensures ScanInteger(s, 0) == Conv(|s|, sign == "-", 0)
  {
    var j := |sign|;
    SignedStart(sign, "0", s);
    assert s[j..] == "0";
    assert !HexPrefixAt(s, j);
    ScanAt(s, j, j, 8, sign == "-");
  }

  lemma ScanOctalDigits(sign: string, d: string, s: string)
    requires sign == [] || sign == "-" || sign == "+"
    requires LowerDigits(d) && AllInBase(d, 8)
    requires s == sign + (Prefix(Octal) + d)
    ensures ScanInteger(s, 0) == Conv(|s|, sign == "-", DigitsValue(d, 8))
  {
    var j := |sign|;
    var t := "0" + d;
    assert s == sign + t;
    SignedStart(sign, t, s);
    assert s[j..] == t;
    assert s[j] == '0' && s[j + 1] == d[0];
    assert !HexPrefixAt(s, j);
    LeadingZero(d, 8);
    ScanAt(s, j, j, 8, sign == "-");
  }

  lemma ScanHexDigits(sign: string, d: string, s: string)
    requires sign == [] || sign == "-" || sign == "+"
    requires LowerDigits(d) && AllInBase(d, 16)
    requires s == sign + (Prefix(Hexadecimal) + d)
    ensures ScanInteger(s, 0) == Conv(|s|, sign == "-", DigitsValue(d, 16))
  {
    var j := |sign|;
    SignedStart(sign, "0x" + d, s);
    assert s[j + 2..] == d;
    assert s[j] == '0' && s[j + 1] == 'x' && s[j + 2] == d[0];
    ScanAt(s, j, j + 2, 16, sign == "-");
  }

  /** The subject sequence of `strtol` in base 0 is a whole numeral after an optional
      sign, with the sign and the value the numeral denotes. */
  lemma ScanNumeral(sign: string, r: Radix, n: nat)
    requires sign == [] || sign == "-" || sign == "+"
    ensures var s := sign + Numeral(r, n);
      ScanInteger(s, 0) == Conv(|s|, sign == "-", n)
  {
    var d := DigitText(n, Base(r));
    DigitTextDigits(n, Base(r));
    ScanParts(sign, r, d);
  }

  lemma ScanParts(sign: string, r: Radix, d: string)
    requires sign == [] || sign == "-" || sign == "+"
    requires LowerDigits(d) && AllInBase(d, Base(r)) && (r == Decimal && d[0] == '0' ==> d == "0")
    ensures var s := sign + (Prefix(r) + d);
      ScanInteger(s, 0) == Conv(|s|, sign == "-", DigitsValue(d, Base(r)))
  {
    var s := sign + (Prefix(r) + d);
    match r
    case Decimal => ScanDecimalDigits(sign, d, s);
    case Octal => ScanOctalDigits(sign, d, s);
    case Hexadecimal => ScanHexDigits(sign, d, s);
  }

  /** `strtoull(s, &end, 0)` reads back every numeral: in range it is the value (negated
      modulo 2^64 after `-`), beyond 2^64 - 1 it is ULLONG_MAX with ERANGE. */
  lemma StrToULLNumeral(sign: string, r: Radix, n: nat)
    requires sign == [] || sign == "-" || sign == "+"
    ensures var s := sign + Numeral(r, n);
      StrToULL(s) == if n >= Two64 then IntScan(|s|, Two64 - 1, true)
                     else IntScan(|s|, if sign == "-" then (Two64 - n) % Two64 else n, false)
  {
    ScanNumeral(sign, r, n);
  }

  /** `strtoll(s, &end, 0)` reads back every numeral in [-2^63, 2^63 - 1]; outside it clamps
      to LLONG_MIN or LLONG_MAX with ERANGE. */
  lemma StrToLLNumeral(sign: string, r: Radix, n: nat)
    requires sign == [] || sign == "-" || sign == "+"
    ensures var s := sign + Numeral(r, n);
      StrToLL(s, 0) == if sign == "-" then
                         if n > Two63 then IntScan(|s|, -Two63, true) else IntScan(|s|, -(n as int), false)
                       else if n >= Two63 then IntScan(|s|, Two63 - 1, true) else IntScan(|s|, n, false)
  {
    ScanNumeral(sign, r, n);
  }

  /** Numerals stay off the float path, except signed hexadecimal ones whose digits hold
      an `e` (see `SignedHexMayFloat`). */
  lemma NumeralOffFloatPath(sign: string, r: Radix, n: nat)
    requires sign == [] || sign == "-" || sign == "+"
    requires sign == [] || r != Hexadecimal
    ensures !TakesFloatPath(sign + Numeral(r, n))
  {
    var d := DigitText(n, Base(r));
    DigitTextDigits(n, Base(r));
    PartsOffFloatPath(sign, r, d);
  }

  lemma PartsOffFloatPath(sign: string, r: Radix, d: string)
    requires sign == [] || sign == "-" || sign == "+"
    requires sign == [] || r != Hexadecimal
    requires |d| >= 1 && (r != Hexadecimal ==> forall k :: 0 <= k < |d| ==> IsDigit(d[k]))
    ensures !TakesFloatPath(sign + (Prefix(r) + d))
  {
    if r == Hexadecimal {
      assert (sign + (Prefix(r) + d))[..2] == "0x";
    } else if r == Octal && sign == [] {
      assert (Prefix(r) + d)[1] == d[0];
    } else {
      DigitsHaveNoMarker(sign, Prefix(r), d);
    }
  }

  /** Decimal digits after a sign and an optional `0` hold no `.`, `e` or `E`. */
  lemma DigitsHaveNoMarker(sign: string, prefix: string, d: string)
    requires sign == [] || sign == "-" || sign == "+"
    requires prefix == "" || prefix == "0"
    requires forall k :: 0 <= k < |d| ==> IsDigit(d[k])
    ensures !HasFloatMarker(sign + (prefix + d))
  {
    var s := sign + (prefix + d);
    forall k | 0 <= k < |s| ensures s[k] != '.' && s[k] != 'e' && s[k] != 'E' {
      if k >= |sign| + |prefix| { assert s[k] == d[k - |sign| - |prefix|]; }
      else if k >= |sign| { assert s[k] == '0'; }
    }
  }

  /** `isnumtok` on a numeral off the float path: `-` reads back -n down to -2^63 and
      clamps below with ERANGE; otherwise n reads back up to 2^64 - 1 and clamps above
      with ERANGE, which the lexer reports as overflow. */
  lemma NumeralValue(sign: string, r: Radix, n: nat, strtod: FloatScanner)
    requires sign == [] || sign == "-" || sign == "+"
    requires !TakesFloatPath(sign + Numeral(r, n))
    ensures IsNumTok(sign + Numeral(r, n), strtod)
         == if sign == "-" then
              if n <= Two63 then Number(IntVal(-(n as int)), false) else Number(IntVal(-Two63), true)
            else if n < Two64 then Number(IntVal(n), false) else Number(IntVal(Two64 - 1), true)
  {
    var s := sign + Numeral(r, n);
    DigitTextDigits(n, Base(r));
    assert s[0] == (if sign == [] then Numeral(r, n)[0] else sign[0]);
    if sign == "-" {
      NegativePath(s, strtod);
      StrToLLNumeral(sign, r, n);
    } else {
      UnsignedPath(s, strtod);
      StrToULLNumeral(sign, r, n);
    }
  }

  /** `-0x1e` contains `e`, so it goes to `strtod` first: a hexadecimal-float `strtod`
      that consumes all of it makes it a float, not the integer -30. */
  lemma SignedHexMayFloat(strtod: FloatScanner)
    requires strtod("-0x1e") == FloatScan(5, false)
    ensures IsNumTok("-0x1e", strtod) == Number(FloatVal("-0x1e", false), false)
    ensures Numeral(Hexadecimal, 30) == "0x1e"
  {
    assert "-0x1e"[4] == 'e';
    assert TakesFloatPath("-0x1e");
    assert DigitText(30, 16) == DigitText(1, 16) + [DigitChar(14)];
  }

  /** `strtol(text, &end, 10)` on any run of decimal digits, leading zeros included: a
      label is its value when that fits in a `long`, and is refused otherwise. */
  lemma DecimalLabelDigits(ds: string)
    requires |ds| >= 1 && forall k :: 0 <= k < |ds| ==> IsDigit(ds[k])
    ensures AllInBase(ds, 10)
    ensures DecimalLabel(ds) == if DigitsValue(ds, 10) < Two63 then Some(DigitsValue(ds, 10)) else None
  {
    assert SkipSpace(ds, 0) == 0;
    assert ds[0..] == ds;
    RunConverts(ds, 0, 10, false);
  }

  /** Signed decimal text reads back as a label exactly in the range of a `long`. */
  lemma DecimalLabelSigned(sign: string, n: nat)
    requires sign == [] || sign == "-" || sign == "+"
    ensures DecimalLabel(sign + DigitText(n, 10))
         == if sign == "-" then (if n <= Two63 then Some(-(n as int)) else None)
            else if n < Two63 then Some(n) else None
  {
    var d := DigitText(n, 10);
    DigitTextDigits(n, 10);
    LabelDigits(sign, d, sign + d);
  }

  lemma LabelDigits(sign: string, d: string, s: string)
    requires sign == [] || sign == "-" || sign == "+"
    requires LowerDigits(d) && AllInBase(d, 10) && s == sign + d
    ensures ScanInteger(s, 10) == Conv(|s|, sign == "-", DigitsValue(d, 10))
  {
    var j := |sign|;
    SignedStart(sign, d, s);
    assert s[j..] == d;
    RunConverts(s, j, 10, sign == "-");
  }

  /** Text that starts with neither white space, a sign nor a digit converts nothing, so
      it is never a label. */
  lemma NonDigitLabel(text: string)
    requires |text| >= 1 && !IsSpace(text[0]) && !IsDigit(text[0]) && text[0] != '+' && text[0] != '-'
    ensures DecimalLabel(text) == None
  {
    assert SkipSpace(text, 0) == 0;
  }

  /** Text off the float path that starts with a digit or `+` is converted by `strtoull`. */
  lemma UnsignedPath(tok: string, strtod: FloatScanner)
    requires tok != [] && !TakesFloatPath(tok) && (IsDigit(tok[0]) || tok[0] == '+')
    ensures var ic := StrToULL(tok);
      IsNumTok(tok, strtod) == if ic.consumed == |tok| then Number(IntVal(ic.value), ic.erange) else NotNumber
  {
  }

  /** Text off the float path that starts with `-` is converted by `strtoll`. */
  lemma NegativePath(tok: string, strtod: FloatScanner)
    requires tok != [] && !TakesFloatPath(tok) && tok[0] == '-'
    ensures var ic := StrToLL(tok, 0);
      IsNumTok(tok, strtod) == if ic.consumed == |tok| then Number(IntVal(ic.value), ic.erange) else NotNumber
  {
  }

  /** A lone sign has no digits to convert, so it is not a number (it becomes a symbol). */
  lemma LoneSignIsNotNumber(strtod: FloatScanner)
    ensures IsNumTok("+", strtod) == NotNumber
    ensures IsNumTok("-", strtod) == NotNumber
  {
    assert !HasFloatMarker("+") && !HasFloatMarker("-");
  }

  /** Text beginning with `0x` or `0` and a digit never takes the float path, even when it
      contains `.`, `e` or `E`. */
  lemma IntegerPrefixNeverFloat(tok: string, strtod: FloatScanner)
    requires IntegerPrefix(tok)
    ensures !(IsNumTok(tok, strtod).Number? && IsNumTok(tok, strtod).v.FloatVal?)
  {
  }

  /** The float path accepts the text exactly when `strtod` consumed all of it, or all but
      one trailing `f` after at least one consumed character. */
  lemma FloatAcceptance(tok: string, strtod: FloatScanner)
    ensures var r := IsNumTok(tok, strtod);
            var k := strtod(tok).consumed;
            (r.Number? && r.v.FloatVal? && !r.v.single <==> TakesFloatPath(tok) && k == |tok|)
            && (r.Number? && r.v.FloatVal? && r.v.single <==>
                TakesFloatPath(tok) && k != |tok| && 0 < k && k + 1 == |tok| && tok[k] == 'f')
  {
  }

  /** `0x1F` is the integer 31. */
  lemma {:induction false} HexExample(strtod: FloatScanner)
    ensures IsNumTok("0x1F", strtod) == Number(IntVal(31), false)
  {
    var s := "0x1F";
    assert IntegerPrefix(s);
    assert SkipSpace(s, 0) == 0;
    assert HexPrefixAt(s, 0);
    assert DigitRunEnd(s, 2, 16) == 4;
    assert s[2..4] == "1F";
    assert "1F"[..1] == "1" && "1"[..0] == [];
    assert DigitsValue("1F", 16) == 31;
  }

  /** `1.5f` is a single-precision float when `strtod` stops at the `f`. */
  lemma {:induction false} SingleFloatExample(strtod: FloatScanner)
    requires strtod("1.5f") == FloatScan(3, false)
    ensures IsNumTok("1.5f", strtod) == Number(FloatVal("1.5", true), false)
  {
    assert "1.5f"[1] == '.';
    assert TakesFloatPath("1.5f");
    assert "1.5f"[..3] == "1.5";
  }
}
