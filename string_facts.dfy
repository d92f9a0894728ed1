/** Properties of string literals: plain text is copied byte for byte, and each escape
    form expands as `read_string` defines it. */
module StringFacts {
  import opened Errors
  import opened Chars
  import opened Utf8
  import opened Numbers
  import opened ReaderState
  import opened StringLiteral

  /** The bytes of plain text. */
  function Bytes(s: string): (bs: seq<Byte>)
    ensures |bs| == |s|
  {
    if s == [] then [] else [ToByte(s[0])] + Bytes(s[1..])
  }

  /** Text without `"` and `\` up to a closing `"` is copied as is, and the cursor ends just
      after the closing quote. */
  lemma {:induction false} PlainText(st: State, acc: seq<Byte>, j: nat)
    requires Wf(st) && st.pos <= j < |st.input| && st.input[j] == '"'
    requires forall k :: st.pos <= k < j ==> st.input[k] != '"' && st.input[k] != '\\'
    ensures ReadStringLoop(st, acc).res == Ok(acc + Bytes(st.input[st.pos..j]))
    ensures ReadStringLoop(st, acc).st.pos == j + 1
    decreases j - st.pos
  {
    var (ch, s1) := Getc(st);
    if st.pos == j {
      assert st.input[st.pos..j] == [];
      assert acc + [] == acc;
    } else {
      assert ch == Char(st.input[st.pos]);
      assert ReadStringLoop(st, acc) == ReadStringLoop(s1, acc + [ToByte(ch.c)]);
      PlainText(s1, acc + [ToByte(ch.c)], j);
      assert st.input[st.pos..j] == [ch.c] + s1.input[s1.pos..j];
      assert Bytes(st.input[st.pos..j]) == [ToByte(ch.c)] + Bytes(s1.input[s1.pos..j]);
      assert acc + [ToByte(ch.c)] + Bytes(s1.input[s1.pos..j]) == acc + Bytes(st.input[st.pos..j]);
    }
  }

  /** A string that ends before its closing quote is an error. */
  lemma {:induction false} UnterminatedFails(st: State, acc: seq<Byte>)
    requires Wf(st)
    requires forall k :: st.pos <= k < |st.input| ==> st.input[k] != '"' && st.input[k] != '\\'
    ensures ReadStringLoop(st, acc).res == Err(EofInString)
    decreases |st.input| - st.pos
  {
    var (ch, s1) := Getc(st);
    if ch.Char? {
      UnterminatedFails(s1, acc + [ToByte(ch.c)]);
    }
  }

  /** The octal run `d0 d1 d2` at positions 1 to 3 of the input, after its first digit. */
  lemma ThreeOctalDigits(s2: State, d0: char, d1: char, d2: char)
    requires Wf(s2) && s2.pos == 2 && 4 < |s2.input|
    requires s2.input[1] == d0 && s2.input[2] == d1 && s2.input[3] == d2
    requires IsOctalDigit(d0) && IsOctalDigit(d1) && IsOctalDigit(d2)
    ensures OctalRun(s2, [d0]) == ([d0, d1, d2], s2.(pos := 4))
  {
    var (c2, s3) := Getc(s2);
    var (c3, s4) := Getc(s3);
    assert c2 == Char(d1) && c3 == Char(d2);
    assert [d0] + [d1] == [d0, d1] && [d0, d1] + [d2] == [d0, d1, d2];
    assert OctalRun(s4, [d0, d1, d2]) == ([d0, d1, d2], s4);
    assert OctalRun(s3, [d0, d1]) == ([d0, d1, d2], s4);
  }

  /** Octal: `\101` is `A`. */
  lemma OctalExample()
    ensures ReadString(Start("\\101\"")).res == Ok([65])
  {
    var s0 := Start("\\101\"");
    var (c0, s1) := Getc(s0);
    var (c1, s2) := Getc(s1);
    assert c1 == Char('1');
    ThreeOctalDigits(s2, '1', '0', '1');
    var s4 := s2.(pos := 4);
    assert "101"[..2] == "10" && "10"[..1] == "1" && "1"[..0] == "";
    assert DigitsValue("101", 8) == 65;
    assert Escape(s2, '1') == ([65], s4);
    var (c4, s5) := Getc(s4);
    assert c4 == Char('"');
    assert ReadStringLoop(s4, [65]) == Step(Ok([65]), s5);
    assert [] + [65] == [65];
    assert ReadStringLoop(s0, []) == ReadStringLoop(s4, [65]);
  }

  /** Octal takes at most three digits: `\1234` is `S` followed by `4`. */
  lemma OctalStopsAtThree()
    ensures ReadString(Start("\\1234\"")).res == Ok([83, 52])
  {
    var s0 := Start("\\1234\"");
    var (c0, s1) := Getc(s0);
    var (c1, s2) := Getc(s1);
    assert c1 == Char('1');
    ThreeOctalDigits(s2, '1', '2', '3');
    var s4 := s2.(pos := 4);
    assert "123"[..2] == "12" && "12"[..1] == "1" && "1"[..0] == "";
    assert DigitsValue("123", 8) == 83;
    assert Escape(s2, '1') == ([83], s4);
    assert [] + [83] == [83];
    assert ReadStringLoop(s0, []) == ReadStringLoop(s4, [83]);
    FourThenQuote(s4);
  }

  lemma FourThenQuote(s4: State)
    requires s4 == Start("\\1234\"").(pos := 4)
    ensures ReadStringLoop(s4, [83]).res == Ok([83, 52])
  {
    var (c4, s5) := Getc(s4);
    var (c5, s6) := Getc(s5);
    assert c4 == Char('4') && c5 == Char('"');
    assert ReadStringLoop(s5, [83, 52]) == Step(Ok([83, 52]), s6);
    assert [83] + [ToByte('4')] == [83, 52];
  }

  /** `\x` with no hex digit after it stands for the letter itself. */
  lemma HexWithoutDigits()
    ensures ReadString(Start("\\xg\"")).res == Ok([120, 103])
  {
    var s0 := Start("\\xg\"");
    var (c0, s1) := Getc(s0);
    var (c1, s2) := Getc(s1);
    var (c2, s3) := Getc(s2);
    var (c3, s4) := Getc(s3);
    assert c1 == Char('x') && c2 == Char('g') && c3 == Char('"');
    assert HexRun(s2, 2, []) == ([], s2);
    assert Escape(s2, 'x') == ([120], s2);
    assert ReadStringLoop(s3, [120, 103]) == Step(Ok([120, 103]), s4);
    assert [120] + [ToByte('g')] == [120, 103];
    assert ReadStringLoop(s2, [120]) == Step(Ok([120, 103]), s4);
    assert [] + [120] == [120];
  }

  lemma HexDigitsE9()
    ensures DigitsValue("00e9", 16) == 0xE9
  {
    assert "00e9"[..3] == "00e" && "00e"[..2] == "00" && "00"[..1] == "0" && "0"[..0] == "";
    assert DigitsValue("0", 16) == 0;
    assert DigitsValue("00", 16) == 0;
    assert DigitsValue("00e", 16) == 14;
  }

  lemma EncodeE9()
    ensures Encode(0xE9) == [0xC3, 0xA9]
  {
  }

  /** `\u00e9` is the two-byte UTF-8 encoding of U+00E9. */
  lemma UnicodeEscape()
    ensures ReadString(Start("\\u00e9\"")).res == Ok([0xC3, 0xA9])
  {
    var s0 := Start("\\u00e9\"");
    var (c0, s1) := Getc(s0);
    var (c1, s2) := Getc(s1);
    assert c1 == Char('u');
    var ds, s6 := UnicodeDigits(s2);
    HexDigitsE9();
    EncodeE9();
    assert Escape(s2, 'u') == ([0xC3, 0xA9], s6);
    var (c6, s7) := Getc(s6);
    assert c6 == Char('"');
    assert ReadStringLoop(s6, [0xC3, 0xA9]) == Step(Ok([0xC3, 0xA9]), s7);
    assert [] + [0xC3, 0xA9] == [0xC3, 0xA9];
    assert ReadStringLoop(s0, []) == ReadStringLoop(s6, [0xC3, 0xA9]);
  }

  lemma UnicodeDigits(s2: State) returns (ds: string, s6: State)
    requires s2 == Start("\\u00e9\"").(pos := 2)
    ensures HexRun(s2, 4, []) == ("00e9", s6) && s6 == s2.(pos := 6)
  {
    var (c2, s3) := Getc(s2);
    var (c3, s4) := Getc(s3);
    var (c4, s5) := Getc(s4);
    var (c5, s6') := Getc(s5);
    var (c6, s7) := Getc(s6');
    s6 := s6';
    ds := "00e9";
    assert c2 == Char('0') && c3 == Char('0') && c4 == Char('e') && c5 == Char('9') && c6 == Char('"');
    assert "" + ['0'] == "0" && "0" + ['0'] == "00" && "00" + ['e'] == "00e" && "00e" + ['9'] == "00e9";
    assert HexRun(s6, 4, "00e9") == ("00e9", s6);
    assert HexRun(s5, 4, "00e") == ("00e9", s6);
    assert HexRun(s4, 4, "00") == ("00e9", s6);
    assert HexRun(s3, 4, "0") == ("00e9", s6);
  }

  /** Named escapes: `\n` is byte 10, and an unknown letter stands for itself. */
  lemma NamedEscapes()
    ensures ReadString(Start("\\n\\q\"")).res == Ok([10, 113])
  {
    var s0 := Start("\\n\\q\"");
    var (c0, s1) := Getc(s0);
    var (c1, s2) := Getc(s1);
    var (c2, s3) := Getc(s2);
    var (c3, s4) := Getc(s3);
    var (c4, s5) := Getc(s4);
    assert c1 == Char('n') && c2 == Char('\\') && c3 == Char('q') && c4 == Char('"');
    assert ReadStringLoop(s4, [10, 113]) == Step(Ok([10, 113]), s5);
    assert Escape(s4, 'q') == ([113], s4) && [10] + [113] == [10, 113];
    assert ReadStringLoop(s2, [10]) == ReadStringLoop(s4, [10, 113]);
    assert Escape(s2, 'n') == ([10], s2) && [] + [10] == [10];
    assert ReadStringLoop(s0, []) == ReadStringLoop(s2, [10]);
    assert ReadStringLoop(s2, [10]) == Step(Ok([10, 113]), s5);
  }

  /** A backslash as the last character is "end of input in escape sequence". */
  lemma EofInEscapeExample()
    ensures ReadString(Start("ab\\")).res == Err(EofInEscape)
  {
    var s0 := Start("ab\\");
    var (c0, s1) := Getc(s0);
    var (c1, s2) := Getc(s1);
    var (c2, s3) := Getc(s2);
    assert c2 == Char('\\');
    assert ReadStringLoop(s2, [97, 98]) == Step(Err(EofInEscape), s3.(eof := true));
  }

  /** The octal run after the first digit takes the `k` octal digits that follow, where the
      run ends at the third digit in all, at the end of the input, or before a character
      that is not an octal digit; the cursor is left just after the run. */
  lemma {:induction false} OctalRunStops(st: State, digits: string, k: nat)
    requires Wf(st) && 1 <= |digits| <= 3 && k <= 3 - |digits|
    requires forall i :: 0 <= i < |digits| ==> IsOctalDigit(digits[i])
    requires st.pos + k <= |st.input|
    requires forall i :: st.pos <= i < st.pos + k ==> IsOctalDigit(st.input[i])
    requires k == 3 - |digits| || st.pos + k == |st.input| || !IsOctalDigit(st.input[st.pos + k])
    ensures OctalRun(st, digits)
         == (digits + st.input[st.pos..st.pos + k], st.(pos := st.pos + k, eof := st.pos + k == |st.input|))
    decreases k
  {
    var (ch, s1) := Getc(st);
    if k == 0 {
      assert digits + st.input[st.pos..st.pos] == digits;
    } else {
      assert ch == Char(st.input[st.pos]);
      OctalRunStops(s1, digits + [ch.c], k - 1);
      RunSlice(digits, st.input, st.pos, k);
    }
  }

  lemma RunSlice(digits: string, s: string, i: nat, k: nat)
    requires 1 <= k && i + k <= |s|
    ensures digits + [s[i]] + s[i + 1..i + k] == digits + s[i..i + k]
  {
    assert [s[i]] + s[i + 1..i + k] == s[i..i + k];
  }

  /** The same for the hex run of `\x`, `\u` and `\U`, capped at `ndig` digits. */
  lemma {:induction false} HexRunStops(st: State, ndig: nat, digits: string, k: nat)
    requires Wf(st) && |digits| + k <= ndig
    requires forall i :: 0 <= i < |digits| ==> IsHexDigit(digits[i])
    requires st.pos + k <= |st.input|
    requires forall i :: st.pos <= i < st.pos + k ==> IsHexDigit(st.input[i])
    requires |digits| + k == ndig || st.pos + k == |st.input| || !IsHexDigit(st.input[st.pos + k])
    ensures HexRun(st, ndig, digits)
         == (digits + st.input[st.pos..st.pos + k], st.(pos := st.pos + k, eof := st.pos + k == |st.input|))
    decreases k
  {
    var (ch, s1) := Getc(st);
    if k == 0 {
      assert digits + st.input[st.pos..st.pos] == digits;
    } else {
      assert ch == Char(st.input[st.pos]);
      HexRunStops(s1, ndig, digits + [ch.c], k - 1);
      RunSlice(digits, st.input, st.pos, k);
    }
  }

  /** An octal escape: the first digit and up to two more make one code point, written
      out in UTF-8. */
  lemma OctalEscape(st: State, c: char, k: nat)
    requires Wf(st) && IsOctalDigit(c) && k <= 2 && st.pos + k <= |st.input|
    requires forall i :: st.pos <= i < st.pos + k ==> IsOctalDigit(st.input[i])
    requires k == 2 || st.pos + k == |st.input| || !IsOctalDigit(st.input[st.pos + k])
    ensures var ds := [c] + st.input[st.pos..st.pos + k];
      && AllInBase(ds, 8)
      && Escape(st, c) == (Encode(DigitsValue(ds, 8)), st.(pos := st.pos + k, eof := st.pos + k == |st.input|))
  {
    var ds := [c] + st.input[st.pos..st.pos + k];
    forall i | 0 <= i < |ds| ensures InBase(ds[i], 8) {
      if i > 0 { assert ds[i] == st.input[st.pos + i - 1]; }
    }
    OctalRunStops(st, [c], k);
  }

  /** `\x`, `\u` and `\U`: up to 2, 4 or 8 hex digits make one code point in UTF-8; with no
      digit at all (another character or the end of the input follows), the escape stands
      for the letter itself. */
  lemma HexEscape(st: State, c: char, k: nat)
    requires Wf(st) && (c == 'x' || c == 'u' || c == 'U') && k <= HexWidth(c)
    requires st.pos + k <= |st.input|
    requires forall i :: st.pos <= i < st.pos + k ==> IsHexDigit(st.input[i])
    requires k == HexWidth(c) || st.pos + k == |st.input| || !IsHexDigit(st.input[st.pos + k])
    ensures var ds := st.input[st.pos..st.pos + k];
      && AllInBase(ds, 16)
      && Escape(st, c) == (Encode(if k == 0 then c as int else DigitsValue(ds, 16)),
                           st.(pos := st.pos + k, eof := st.pos + k == |st.input|))
  {
    var ds := st.input[st.pos..st.pos + k];
    forall i | 0 <= i < |ds| ensures InBase(ds[i], 16) {
      assert ds[i] == st.input[st.pos + i];
    }
    HexRunStops(st, HexWidth(c), [], k);
    assert [] + ds == ds;
  }

  /** Every other escape is one byte and reads nothing more: `\a \b \t \n \v \f \r` are the
      ASCII control codes 7 to 13 in that order, and any other character stands for
      itself. */
  lemma SimpleEscape(st: State, c: char)
    requires Wf(st) && !IsOctalDigit(c) && c != 'x' && c != 'u' && c != 'U'
    ensures var (bs, s) := Escape(st, c);
      && s == st && |bs| == 1
      && (c in "abtnvfr" ==> 7 <= bs[0] <= 13 && "abtnvfr"[bs[0] as int - 7] == c)
      && (c !in "abtnvfr" ==> bs[0] == ToByte(c))
  {
  }

  /** Plain text, then a backslash as the last character of the input: "end of input in
      escape sequence", whatever was read before. */
  lemma {:induction false} EofInEscapeAtEnd(st: State, acc: seq<Byte>)
    requires Wf(st) && st.pos < |st.input| && st.input[|st.input| - 1] == '\\'
    requires forall k :: st.pos <= k < |st.input| - 1 ==> st.input[k] != '"' && st.input[k] != '\\'
    ensures ReadStringLoop(st, acc) == Step(Err(EofInEscape), st.(pos := |st.input|, eof := true))
    decreases |st.input| - st.pos
  {
    var (ch, s1) := Getc(st);
    if st.pos < |st.input| - 1 {
      assert ReadStringLoop(st, acc) == ReadStringLoop(s1, acc + [ToByte(ch.c)]);
      EofInEscapeAtEnd(s1, acc + [ToByte(ch.c)]);
    }
  }

  function OctalDigit(d: nat): (c: char)
    requires d < 8
    ensures IsOctalDigit(c) && DigitValue(c) == d
  {
    ('0' as int + d) as char
  }

  /** One byte as string-literal text: `"` and `\` behind a backslash, newline as `\n`,
      the other control bytes as three octal digits, every other byte as itself. */
  function QuoteByte(b: Byte): (s: string)
    ensures 1 <= |s| <= 4
  {
    if b == 34 then "\\\""
    else if b == 92 then "\\\\"
    else if b == 10 then "\\n"
    else if b < 32 || b == 127 then
      ['\\', OctalDigit(b as int / 64), OctalDigit(b as int / 8 % 8), OctalDigit(b as int % 8)]
    else [b as int as char]
  }

  /** Bytes as the text of a string literal, without its quotes. */
  function Quote(bs: seq<Byte>): string
  {
    if bs == [] then [] else QuoteByte(bs[0]) + Quote(bs[1..])
  }

  lemma ThreeOctalValue(b: Byte)
    requires b < 128
    ensures var ds := [OctalDigit(b as int / 64), OctalDigit(b as int / 8 % 8), OctalDigit(b as int % 8)];
      AllInBase(ds, 8) && DigitsValue(ds, 8) == b as int
  {
    var x, y, z := b as int / 64, b as int / 8 % 8, b as int % 8;
    ThreeDigits(x, y, z);
    assert (x * 8 + y) * 8 + z == b as int;
  }

  /** Three octal digits denote their positional value. */
  lemma ThreeDigits(x: nat, y: nat, z: nat)
    requires x < 8 && y < 8 && z < 8
    ensures var ds := [OctalDigit(x), OctalDigit(y), OctalDigit(z)];
      AllInBase(ds, 8) && DigitsValue(ds, 8) == (x * 8 + y) * 8 + z
  {
    var ds := [OctalDigit(x), OctalDigit(y), OctalDigit(z)];
    assert ds[..2] == [OctalDigit(x), OctalDigit(y)];
    assert ds[..2][..1] == [OctalDigit(x)] && [OctalDigit(x)][..0] == [];
    assert DigitsValue([OctalDigit(x)], 8) == x;
    assert DigitsValue(ds[..2], 8) == x * 8 + y;
  }

  /** `read_string` reads the text of one quoted byte back as that byte, in one pass. */
  lemma QuoteByteRead(st: State, b: Byte)
    requires Wf(st) && st.pos + |QuoteByte(b)| < |st.input|
    requires st.input[st.pos..st.pos + |QuoteByte(b)|] == QuoteByte(b)
    ensures ReadStringStep(st) == Step(Ok(Some([b])), st.(pos := st.pos + |QuoteByte(b)|))
  {
    if b == 34 || b == 92 || b == 10 {
      NamedByteStep(st, b);
    } else if b < 32 || b == 127 {
      OctalByteStep(st, b);
    } else {
      PlainByteStep(st, b);
    }
  }

  lemma NamedByteStep(st: State, b: Byte)
    requires Wf(st) && st.pos + |QuoteByte(b)| < |st.input|
    requires st.input[st.pos..st.pos + |QuoteByte(b)|] == QuoteByte(b)
    requires b == 34 || b == 92 || b == 10
    ensures ReadStringStep(st) == Step(Ok(Some([b])), st.(pos := st.pos + |QuoteByte(b)|))
  {
    var n := |QuoteByte(b)|;
    var e := if b == 34 then '"' else if b == 92 then '\\' else 'n';
    NamedQuote(b, e);
    SliceIndex(st.input, st.pos, QuoteByte(b), 0);
    SliceIndex(st.input, st.pos, QuoteByte(b), 1);
    NamedStep(st, e, b, n);
  }

  lemma OctalByteStep(st: State, b: Byte)
    requires Wf(st) && st.pos + |QuoteByte(b)| < |st.input|
    requires st.input[st.pos..st.pos + |QuoteByte(b)|] == QuoteByte(b)
    requires b != 34 && b != 92 && b != 10 && (b < 32 || b == 127)
    ensures ReadStringStep(st) == Step(Ok(Some([b])), st.(pos := st.pos + |QuoteByte(b)|))
  {
    var n := |QuoteByte(b)|;
    var d0, d1, d2 := OctalDigit(b as int / 64), OctalDigit(b as int / 8 % 8), OctalDigit(b as int % 8);
    OctalQuote(b, d0, d1, d2);
    SliceIndex(st.input, st.pos, QuoteByte(b), 0);
    SliceIndex(st.input, st.pos, QuoteByte(b), 1);
    SliceIndex(st.input, st.pos, QuoteByte(b), 2);
    SliceIndex(st.input, st.pos, QuoteByte(b), 3);
    OctalStep(st, b, d0, d1, d2, n);
  }

  lemma PlainByteStep(st: State, b: Byte)
    requires Wf(st) && st.pos + |QuoteByte(b)| < |st.input|
    requires st.input[st.pos..st.pos + |QuoteByte(b)|] == QuoteByte(b)
    requires b != 34 && b != 92 && b != 10 && !(b < 32 || b == 127)
    ensures ReadStringStep(st) == Step(Ok(Some([b])), st.(pos := st.pos + |QuoteByte(b)|))
  {
    var n := |QuoteByte(b)|;
    var c := (b as int) as char;
    PlainQuote(b, c);
    SliceIndex(st.input, st.pos, QuoteByte(b), 0);
    PlainStep(st, c, b, n);
  }

  lemma NamedQuote(b: Byte, e: char)
    requires (b == 34 && e == '"') || (b == 92 && e == '\\') || (b == 10 && e == 'n')
    ensures QuoteByte(b) == ['\\', e]
  {
  }

  lemma OctalQuote(b: Byte, d0: char, d1: char, d2: char)
    requires b != 34 && b != 92 && b != 10 && (b < 32 || b == 127)
    requires d0 == OctalDigit(b as int / 64) && d1 == OctalDigit(b as int / 8 % 8) && d2 == OctalDigit(b as int % 8)
    ensures QuoteByte(b) == ['\\', d0, d1, d2]
  {
  }

  lemma PlainQuote(b: Byte, c: char)
    requires b != 34 && b != 92 && b != 10 && !(b < 32 || b == 127) && c == (b as int) as char
    ensures QuoteByte(b) == [c]
  {
  }

  /** A slice equal to `q` holds the characters of `q`. */
  lemma SliceIndex(s: string, i: nat, q: string, k: nat)
    requires i + |q| <= |s| && s[i..i + |q|] == q && k < |q|
    ensures s[i + k] == q[k]
  {
    assert s[i..i + |q|][k] == s[i + k];
  }

  lemma NamedStep(st: State, e: char, b: Byte, n: nat)
    requires Wf(st) && n == 2 && st.pos + n < |st.input|
    requires st.input[st.pos] == '\\' && st.input[st.pos + 1] == e
    requires (e == '"' && b == 34) || (e == '\\' && b == 92) || (e == 'n' && b == 10)
    ensures ReadStringStep(st) == Step(Ok(Some([b])), st.(pos := st.pos + n))
  {
    var (ch, s1) := Getc(st);
    var (ec, s2) := Getc(s1);
    assert ec == Char(e);
    assert Escape(s2, e) == ([b], s2);
    assert s2 == st.(pos := st.pos + n);
  }

  lemma OctalStep(st: State, b: Byte, d0: char, d1: char, d2: char, n: nat)
    requires Wf(st) && n == 4 && st.pos + n < |st.input| && b < 128
    requires d0 == OctalDigit(b as int / 64) && d1 == OctalDigit(b as int / 8 % 8) && d2 == OctalDigit(b as int % 8)
    requires st.input[st.pos] == '\\' && st.input[st.pos + 1] == d0
    requires st.input[st.pos + 2] == d1 && st.input[st.pos + 3] == d2
    ensures ReadStringStep(st) == Step(Ok(Some([b])), st.(pos := st.pos + n))
  {
    var (ch, s1) := Getc(st);
    var (ec, s2) := Getc(s1);
    assert ec == Char(d0);
    OctalEscape(s2, d0, 2);
    assert [d0] + s2.input[s2.pos..s2.pos + 2] == [d0, d1, d2];
    ThreeOctalValue(b);
    assert Escape(s2, d0) == ([b], st.(pos := st.pos + n));
  }

  lemma PlainStep(st: State, c: char, b: Byte, n: nat)
    requires Wf(st) && n == 1 && st.pos + n < |st.input| && st.input[st.pos] == c
    requires c == (b as int) as char && c != '"' && c != '\\'
    ensures ReadStringStep(st) == Step(Ok(Some([b])), st.(pos := st.pos + n))
  {
    assert ToByte(c) == b;
  }

  /** The text `t` and a closing quote stand at position `i` of `s`. */
  predicate TextAt(s: string, i: nat, t: string)
  {
    i + |t| < |s| && s[i..i + |t|] == t && s[i + |t|] == '"'
  }

  /** The quoted text of `bs` and a closing quote stand at position `i` of `s`. */
  predicate QuotedAt(s: string, i: nat, bs: seq<Byte>)
  {
    TextAt(s, i, Quote(bs))
  }

  lemma QuotedAtRest(s: string, i: nat, bs: seq<Byte>)
    requires bs != [] && QuotedAt(s, i, bs)
    ensures var q := QuoteByte(bs[0]);
      i + |q| < |s| && s[i..i + |q|] == q && QuotedAt(s, i + |q|, bs[1..])
  {
    var q := QuoteByte(bs[0]);
    var t := Quote(bs[1..]);
    assert Quote(bs) == q + t;
    TextSplit(s, i, q, t);
  }

  /** Text `q + t` before a closing quote is `q`, then `t` before that quote. */
  lemma TextSplit(s: string, i: nat, q: string, t: string)
    requires TextAt(s, i, q + t)
    ensures i + |q| < |s| && s[i..i + |q|] == q && TextAt(s, i + |q|, t)
  {
    assert s[i..i + |q|] == (q + t)[..|q|];
    assert s[i + |q|..i + |q| + |t|] == (q + t)[|q|..];
  }

  lemma ClosingQuote(st: State, acc: seq<Byte>)
    requires Wf(st) && st.pos < |st.input| && st.input[st.pos] == '"'
    ensures ReadStringLoop(st, acc) == Step(Ok(acc), st.(pos := st.pos + 1))
  {
  }

  /** At quoted text, the quoted first byte is ahead and the rest of the quoted text after
      it. */
  lemma QuoteRest(st: State, bs: seq<Byte>)
    requires Wf(st) && bs != [] && QuotedAt(st.input, st.pos, bs)
    ensures var q := QuoteByte(bs[0]);
      st.pos + |q| < |st.input| && st.input[st.pos..st.pos + |q|] == q
    ensures var st' := st.(pos := st.pos + |QuoteByte(bs[0])|);
      Wf(st') && QuotedAt(st'.input, st'.pos, bs[1..])
  {
    QuotedAtRest(st.input, st.pos, bs);
  }

  /** The cursor and bytes after the first byte and the rest add up to those after the
      whole text. */
  lemma QuoteEnd(st: State, acc: seq<Byte>, bs: seq<Byte>)
    requires bs != []
    ensures var st' := st.(pos := st.pos + |QuoteByte(bs[0])|);
      && st'.(pos := st'.pos + |Quote(bs[1..])| + 1) == st.(pos := st.pos + |Quote(bs)| + 1)
      && acc + [bs[0]] + bs[1..] == acc + bs
  {
    QuoteSplit(acc, bs);
    CursorShift(st, |QuoteByte(bs[0])|, |Quote(bs[1..])|, |Quote(bs)|);
  }

  lemma QuoteSplit(acc: seq<Byte>, bs: seq<Byte>)
    requires bs != []
    ensures |Quote(bs)| == |QuoteByte(bs[0])| + |Quote(bs[1..])|
    ensures acc + [bs[0]] + bs[1..] == acc + bs
  {
    assert [bs[0]] + bs[1..] == bs;
  }

  lemma CursorShift(st: State, n: nat, m: nat, t: nat)
    requires t == n + m
    ensures st.(pos := st.pos + n).(pos := st.pos + n + m + 1) == st.(pos := st.pos + t + 1)
  {
  }

  /** `read_string` reads back the quoted text of any byte string, up to its closing quote,
      and leaves the cursor just after that quote. */
  lemma {:induction false} QuoteRoundTrip(st: State, acc: seq<Byte>, bs: seq<Byte>)
    requires Wf(st) && QuotedAt(st.input, st.pos, bs)
    ensures ReadStringLoop(st, acc) == Step(Ok(acc + bs), st.(pos := st.pos + |Quote(bs)| + 1))
    decreases |bs|, 1
  {
    if bs == [] {
      assert Quote(bs) == [] && acc + bs == acc;
      ClosingQuote(st, acc);
    } else {
      QuoteNext(st, acc, bs);
    }
  }

  /** The inductive step of `QuoteRoundTrip`: the first byte, then the rest. */
  lemma {:induction false} QuoteNext(st: State, acc: seq<Byte>, bs: seq<Byte>)
    requires Wf(st) && bs != [] && QuotedAt(st.input, st.pos, bs)
    ensures ReadStringLoop(st, acc) == Step(Ok(acc + bs), st.(pos := st.pos + |Quote(bs)| + 1))
    decreases |bs|, 0
  {
    var n := |QuoteByte(bs[0])|;
    QuoteRest(st, bs);
    QuoteEnd(st, acc, bs);
    QuoteByteRead(st, bs[0]);
    QuoteRoundTrip(st.(pos := st.pos + n), acc + [bs[0]], bs[1..]);
    LoopChain(st, acc, [bs[0]], st.(pos := st.pos + n), bs[1..], st.(pos := st.pos + |Quote(bs)| + 1));
  }

  /** One pass that yields `piece`, then a loop that yields `rest`: the loop yields both. */
  lemma LoopChain(st: State, acc: seq<Byte>, piece: seq<Byte>, st1: State, rest: seq<Byte>, st2: State)
    requires Wf(st) && Wf(st1)
    requires ReadStringStep(st) == Step(Ok(Some(piece)), st1)
    requires ReadStringLoop(st1, acc + piece) == Step(Ok(acc + piece + rest), st2)
    ensures ReadStringLoop(st, acc) == Step(Ok(acc + piece + rest), st2)
  {
  }

  /** A string literal written by `Quote` reads back as the bytes it was written from. */
  lemma ReadQuoted(bs: seq<Byte>)
    ensures var text := Quote(bs) + "\"";
      ReadString(Start(text)) == Step(Ok(bs), Start(text).(pos := |text|))
  {
    var text := Quote(bs) + "\"";
    assert text[0..|Quote(bs)|] == Quote(bs);
    assert QuotedAt(text, 0, bs);
    QuoteRoundTrip(Start(text), [], bs);
    assert [] + bs == bs;
  }
}
