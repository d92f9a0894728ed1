/** What `peek` returns for the few token shapes the worked examples of the reader use:
    punctuation, a one-letter symbol, the dot and the label `#0=` / `#0#`, each possibly
    after blanks; and what it returns for every numeral, overflow included. */
module TokenFacts {
  import opened Errors
  import opened Chars
  import opened Numbers
  import opened ReaderState
  import opened Lexer
  import opened LexerFacts
  import opened NumberFacts

  /** `nextchar` over a run of blanks stops on the first other character. */
  lemma {:induction false} SkipBlanks(st: State, j: nat)
    requires Wf(st) && st.pos <= j < |st.input|
    requires forall k :: st.pos <= k < j ==> st.input[k] == ' '
    requires !IsSpace(st.input[j]) && st.input[j] != ';'
    ensures NextChar(st) == (st.input[j], st.(pos := j + 1))
    decreases j - st.pos
  {
    var (ch, s1) := Getc(st);
    if st.pos < j {
      SkipBlanks(s1, j);
    }
  }

  /** The token kind of a single punctuation character, `TokNone` for any other. */
  function PunctKind(c: char): TokKind
  {
    if c == '(' then TokOpen
    else if c == ')' then TokClose
    else if c == '[' then TokOpenB
    else if c == ']' then TokCloseB
    else if c == '\'' then TokQuote
    else TokNone
  }

  /** Punctuation after blanks is its token, the cursor just past it. */
  lemma PunctToken(st: State, h: Hooks, j: nat)
    requires Wf(st) && st.tok == TokNone && st.pos <= j < |st.input|
    requires forall k :: st.pos <= k < j ==> st.input[k] == ' '
    requires PunctKind(st.input[j]) != TokNone
    ensures Peek(st, h) == Step(Ok(PunctKind(st.input[j])), st.(pos := j + 1, tok := PunctKind(st.input[j])))
  {
    SkipBlanks(st, j);
  }

  /** Position `k` ends an unescaped token: the end of the input, or a character that is
      neither a constituent nor an escape. */
  predicate EndsToken(s: string, k: nat)
  {
    k == |s| || (k < |s| && !SymChar(s[k]) && s[k] != '|' && s[k] != '\\')
  }

  /** One constituent followed by the end of the input or by a character that ends the
      token: the text is that character alone, and the cursor is just past it. */
  lemma OneCharToken(st: State, j: nat)
    requires Wf(st) && j < |st.input| && st.pos == j + 1
    requires SymChar(st.input[j])
    requires EndsToken(st.input, j + 1)
    ensures ReadToken(st, st.input[j], false)
            == Step(Ok(Scanned([st.input[j]], false)), st.(eof := j + 1 == |st.input|))
  {
    var c := st.input[j];
    var (next, s2) := Getc(st);
    assert [] + [c] == [c];
    assert ReadTokenLoop(SymChar, s2, next, false, false, false, [c])
           == Step(Ok(Scanned([c], false)), st.(eof := j + 1 == |st.input|));
  }

  /** A lower-case letter other than `e` (which `strtod` may take for an exponent) is
      not a number. */
  lemma LetterIsNoNumber(c: char, strtod: FloatScanner)
    requires 'a' <= c <= 'z' && c != 'e'
    ensures IsNumTok([c], strtod) == NotNumber
  {
    assert !HasFloatMarker([c]);
  }

  /** A one-letter symbol after blanks. */
  lemma LetterToken(st: State, h: Hooks, j: nat)
    requires Wf(st) && st.tok == TokNone && st.pos <= j < |st.input|
    requires forall k :: st.pos <= k < j ==> st.input[k] == ' '
    requires 'a' <= st.input[j] <= 'z' && st.input[j] != 'e'
    requires EndsToken(st.input, j + 1)
    ensures Peek(st, h) == Step(Ok(TokSym), st.(pos := j + 1, eof := j + 1 == |st.input|,
                                                  tok := TokSym, tokval := Sym([st.input[j]])))
  {
    var c := st.input[j];
    SymCharIff(c);
    SkipBlanks(st, j);
    OneCharToken(st.(pos := j + 1), j);
    LetterIsNoNumber(c, h.strtod);
    assert [c] != ".";
  }

  /** An unescaped `.` standing alone after blanks is the dot token. */
  lemma DotToken(st: State, h: Hooks, j: nat)
    requires Wf(st) && st.tok == TokNone && st.pos <= j < |st.input|
    requires forall k :: st.pos <= k < j ==> st.input[k] == ' '
    requires st.input[j] == '.'
    requires EndsToken(st.input, j + 1)
    ensures Peek(st, h) == Step(Ok(TokDot), st.(pos := j + 1, eof := j + 1 == |st.input|, tok := TokDot))
  {
    SymCharIff('.');
    SkipBlanks(st, j);
    OneCharToken(st.(pos := j + 1), j);
    assert ['.'] == ".";
  }

  /** `strtol("0", &end, 10)` converts the whole text to 0. */
  lemma ZeroLabel()
    ensures DecimalLabel("0") == Some(0)
  {
    assert DigitRunEnd("0", 1, 10) == 1;
    assert DigitRunEnd("0", 0, 10) == 1;
    assert "0"[0..1] == "0" && "0"[..0] == "";
    assert DigitsValue("0", 10) == 0;
  }

  /** The digit run of a label: `0` followed by `=` or `#`. */
  lemma ZeroDigits(st: State, j: nat)
    requires Wf(st) && st.pos == j + 2 && j + 2 < |st.input|
    requires st.input[j + 1] == '0' && (st.input[j + 2] == '=' || st.input[j + 2] == '#')
    ensures ReadToken(st, '0', true) == Step(Ok(Scanned("0", false)), st)
  {
    SymCharIff('0');
    var (next, s2) := Getc(st);
    assert next == Char(st.input[j + 2]);
    assert [] + ['0'] == "0";
    assert ReadTokenLoop(SymChar, s2, next, true, false, false, "0") == Step(Ok(Scanned("0", false)), st);
  }

  /** The label syntax after blanks: `#0=` defines label 0 and `#0#` refers to it. */
  lemma LabelZeroToken(st: State, h: Hooks, j: nat)
    requires Wf(st) && st.tok == TokNone && st.pos <= j && j + 2 < |st.input|
    requires forall k :: st.pos <= k < j ==> st.input[k] == ' '
    requires st.input[j] == '#' && st.input[j + 1] == '0'
    requires st.input[j + 2] == '=' || st.input[j + 2] == '#'
    ensures var kind := if st.input[j + 2] == '=' then TokLabel else TokBackref;
      Peek(st, h) == Step(Ok(kind), st.(pos := j + 3, tok := kind, tokval := Fixnum(0)))
  {
    SkipBlanks(st, j);
    var s1 := st.(pos := j + 1);
    var s2 := st.(pos := j + 2);
    assert Getc(s1) == (Char('0'), s2);
    ZeroDigits(s2, j);
    ZeroLabel();
    assert Peek(st, h) == PeekSharp(s1, h);
    assert PeekSharp(s1, h) == PeekLabel(s2, '0');
  }

  /** A comma after blanks that is not followed by `@` or `.` is the comma token. The
      character after it is read and pushed back, except the byte 0xFF: that push-back
      fails, so the byte is lost and the cursor stays past it. */
  lemma CommaToken(st: State, h: Hooks, j: nat)
    requires Wf(st) && st.tok == TokNone && st.pos <= j && j + 1 < |st.input|
    requires forall k :: st.pos <= k < j ==> st.input[k] == ' '
    requires st.input[j] == ',' && st.input[j + 1] != '@' && st.input[j + 1] != '.'
    ensures Peek(st, h) == Step(Ok(TokComma), st.(pos := if st.input[j + 1] == EofChar then j + 2 else j + 1,
                                                   tok := TokComma))
  {
    SkipBlanks(st, j);
    assert Peek(st, h) == PeekComma(st.(pos := j + 1));
  }

  /** `strtol` of a single decimal digit is that digit's value. */
  lemma DigitLabel(d: char)
    requires IsDigit(d)
    ensures DecimalLabel([d]) == Some(d as int - '0' as int)
  {
    assert DigitRunEnd([d], 1, 10) == 1;
    assert DigitRunEnd([d], 0, 10) == 1;
    assert [d][0..1] == [d] && [d][..0] == "";
    assert DigitsValue([d], 10) == DigitsValue([], 10) * 10 + (d as int - '0' as int);
  }

  /** In digit mode a 0xFF after one digit ends the token with that digit; its push-back
      fails, so the cursor stays past it. */
  lemma LostByteDigit(s2: State, j: nat)
    requires Wf(s2) && s2.pos == j + 2 && j + 2 < |s2.input|
    requires IsDigit(s2.input[j + 1]) && s2.input[j + 2] == EofChar
    ensures ReadToken(s2, s2.input[j + 1], true)
            == Step(Ok(Scanned([s2.input[j + 1]], false)), s2.(pos := j + 3))
  {
    var d := s2.input[j + 1];
    var s3 := s2.(pos := j + 3);
    SymCharIff(d);
    assert Getc(s2) == (Char(EofChar), s3);
    assert [] + [d] == [d];
    assert ReadTokenLoop(SymChar, s3, Char(EofChar), true, false, false, [d]) == Step(Ok(Scanned([d], false)), s3);
  }

  /** A byte 0xFF after the digit of a label ends the digits, and its push-back fails: the
      byte is lost and the `#` or `=` after it completes the label. So `#1`, 0xFF, `#` is
      the back-reference to label 1. */
  lemma LabelAfterLostByte(st: State, h: Hooks, j: nat)
    requires Wf(st) && st.tok == TokNone && st.pos <= j && j + 3 < |st.input|
    requires forall k :: st.pos <= k < j ==> st.input[k] == ' '
    requires st.input[j] == '#' && IsDigit(st.input[j + 1]) && st.input[j + 2] == EofChar
    requires st.input[j + 3] == '=' || st.input[j + 3] == '#'
    ensures var kind := if st.input[j + 3] == '=' then TokLabel else TokBackref;
      Peek(st, h) == Step(Ok(kind), st.(pos := j + 4, tok := kind,
                                        tokval := Fixnum(st.input[j + 1] as int - '0' as int)))
  {
    var d := st.input[j + 1];
    SkipBlanks(st, j);
    var s1 := st.(pos := j + 1);
    var s2 := st.(pos := j + 2);
    assert Getc(s1) == (Char(d), s2);
    LostByteDigit(s2, j);
    DigitLabel(d);
    assert Peek(st, h) == PeekSharp(s1, h);
    assert PeekSharp(s1, h) == PeekLabel(s2, d);
  }

  /** `,` then 0xFF: the comma token, with the byte after it consumed. */
  lemma CommaLostByte(h: Hooks)
    ensures Peek(Start(",ÿ"), h) == Step(Ok(TokComma), Start(",ÿ").(pos := 2, tok := TokComma))
  {
    CommaToken(Start(",ÿ"), h, 0);
  }

  /** `#1`, 0xFF, `#`: the back-reference to label 1. */
  lemma BackrefLostByte(h: Hooks)
    ensures Peek(Start("#1ÿ#"), h) == Step(Ok(TokBackref), Start("#1ÿ#").(pos := 4, tok := TokBackref,
                                                                           tokval := Fixnum(1)))
  {
    LabelAfterLostByte(Start("#1ÿ#"), h, 0);
  }

  /** A `#` under the cursor: a digit after it starts a label, `:` a gensym label, and a
      lower-case letter the name of a constructor call. */
  lemma SharpDispatch(st: State, h: Hooks)
    requires Wf(st) && st.tok == TokNone && st.pos + 1 < |st.input| && st.input[st.pos] == '#'
    ensures var d, s2 := st.input[st.pos + 1], st.(pos := st.pos + 2);
      && (IsDigit(d) ==> Peek(st, h) == PeekLabel(s2, d))
      && (d == ':' ==> Peek(st, h) == PeekGensym(s2))
      && ('a' <= d <= 'z' ==> SymChar(d) && Peek(st, h) == PeekSharpSym(s2, d))
  {
    var d := st.input[st.pos + 1];
    var s1 := st.(pos := st.pos + 1);
    SkipBlanks(st, st.pos);
    assert Getc(s1) == (Char(d), st.(pos := st.pos + 2));
    assert Peek(st, h) == PeekSharp(s1, h);
    SymCharIff(d);
  }

  /** `PeekAtom` once `read_token` has returned escaped text: the symbol named by that text
      up to its first NUL. */
  lemma AtomSymbol(s1: State, c: char, h: Hooks, text: string, s2: State)
    requires Wf(s1) && s1.tok == TokNone && (c == '|' || c == '\\' || SymChar(c))
    requires ReadToken(s1, c, false) == Step(Ok(Scanned(text, true)), s2)
    ensures PeekAtom(s1, c, h) == Step(Ok(TokSym), s2.(tok := TokSym, tokval := Sym(CStr(text))))
  {
  }

  /** `read_token` on `|a`, NUL, `b|`: the text is `a`, NUL, `b`. */
  lemma EscapedNulSymbolText()
    ensures var st := Start("|a\0b|");
      ReadToken(st.(pos := 1), '|', false) == Step(Ok(Scanned("a\0b", true)), st.(pos := 5, eof := true))
  {
    var st := Start("|a\0b|");
    var s6 := st.(pos := 5, eof := true);
    assert ReadTokenLoop(SymChar, s6, Eof, false, false, true, "a\0b") == Step(Ok(Scanned("a\0b", true)), s6);
    assert ReadTokenLoop(SymChar, st.(pos := 5), Char('|'), false, true, true, "a\0b")
        == Step(Ok(Scanned("a\0b", true)), s6);
    assert "a\0" + ['b'] == "a\0b" && "a" + ['\0'] == "a\0" && "" + ['a'] == "a";
    assert ReadTokenLoop(SymChar, st.(pos := 4), Char('b'), false, true, true, "a\0")
        == Step(Ok(Scanned("a\0b", true)), s6);
    assert ReadTokenLoop(SymChar, st.(pos := 3), Char('\0'), false, true, true, "a")
        == Step(Ok(Scanned("a\0b", true)), s6);
    assert ReadTokenLoop(SymChar, st.(pos := 2), Char('a'), false, true, true, "")
        == Step(Ok(Scanned("a\0b", true)), s6);
  }

  /** `|a`, NUL, `b|`: the escaped NUL is kept in the buffer, but `symbol(buf)` reads the
      buffer as a C string, so the symbol is `a`. */
  lemma EscapedNulEndsSymbol()
    ensures Peek(Start("|a\0b|"), NoHooks)
            == Step(Ok(TokSym), Start("|a\0b|").(pos := 5, eof := true, tok := TokSym, tokval := Sym("a")))
  {
    var st := Start("|a\0b|");
    var (c, s1) := NextChar(st);
    assert c == '|' && s1 == st.(pos := 1);
    EscapedNulSymbolText();
    CStrUnique("a\0b", "a");
    AtomSymbol(s1, '|', NoHooks, "a\0b", st.(pos := 5, eof := true));
  }

  /** `#n=` and `#n#` once `read_token` has returned its text: the label is the number
      `strtol` reads from that text up to its first NUL. */
  lemma LabelFromToken(s2: State, d: char, text: string, issym: bool, s4: State, x: int)
    requires Wf(s2) && s2.tok == TokNone && IsDigit(d)
    requires ReadToken(s2, d, true) == Step(Ok(Scanned(text, issym)), s4)
    requires s4.pos < |s4.input| && (s4.input[s4.pos] == '=' || s4.input[s4.pos] == '#')
    requires DecimalLabel(CStr(text)) == Some(x)
    ensures var kind := if s4.input[s4.pos] == '=' then TokLabel else TokBackref;
      PeekLabel(s2, d) == Step(Ok(kind), s4.(pos := s4.pos + 1, tok := kind, tokval := Fixnum(x)))
  {
  }

  /** `#:n` once `read_token` has returned its text: the label is the number `strtol`
      reads from that text up to its first NUL, which must not be empty. */
  lemma GensymFromToken(s2: State, d: char, text: string, issym: bool, s5: State, x: int)
    requires Wf(s2) && s2.tok == TokNone && s2.pos < |s2.input| && s2.input[s2.pos] == d && d != 'g'
    requires ReadToken(s2.(pos := s2.pos + 1), d, false) == Step(Ok(Scanned(text, issym)), s5)
    requires CStr(text) != [] && DecimalLabel(CStr(text)) == Some(x)
    ensures PeekGensym(s2) == Step(Ok(TokGensym), s5.(tok := TokGensym, tokval := Fixnum(x)))
  {
  }

  /** `#name(` once `read_token` has returned its text: the name is that text up to its
      first NUL. */
  lemma SharpSymFromToken(s2: State, c: char, text: string, issym: bool, s5: State, s6: State)
    requires Wf(s2) && s2.tok == TokNone && SymChar(c)
    requires ReadToken(s2, c, false) == Step(Ok(Scanned(text, issym)), s5)
    requires NextChar(s5.(tok := TokSharpSym, tokval := Sym(CStr(text)))) == ('(', s6)
    ensures PeekSharpSym(s2, c) == Step(Ok(TokSharpSym), s6)
  {
  }

  /** `read_token` on `1`, `\`, NUL, `=` in digit mode: the text is `1` and NUL. */
  lemma EscapedNulLabelText()
    ensures var st := Start("#1\\\0=");
      ReadToken(st.(pos := 2), '1', true) == Step(Ok(Scanned("1\0", true)), st.(pos := 4))
  {
    var st := Start("#1\\\0=");
    var s4 := st.(pos := 4);
    assert ReadTokenLoop(SymChar, st.(pos := 5), Char('='), true, false, true, "1\0") == Step(Ok(Scanned("1\0", true)), s4);
    assert "1" + ['\0'] == "1\0" && [] + ['1'] == "1";
    assert ReadTokenLoop(SymChar, st.(pos := 3), Char('\\'), true, false, false, "1")
        == Step(Ok(Scanned("1\0", true)), s4);
  }

  /** `#1`, `\`, NUL, `=`: the buffer holds `1` and NUL, `strtol` stops at the NUL with
      nothing after it in the C string, so this is label 1. */
  lemma EscapedNulEndsLabel()
    ensures Peek(Start("#1\\\0="), NoHooks)
            == Step(Ok(TokLabel), Start("#1\\\0=").(pos := 5, tok := TokLabel, tokval := Fixnum(1)))
  {
    var st := Start("#1\\\0=");
    SharpDispatch(st, NoHooks);
    EscapedNulLabelText();
    CStrUnique("1\0", "1");
    DigitLabel('1');
    LabelFromToken(st.(pos := 2), '1', "1\0", true, st.(pos := 4), 1);
  }

  /** `read_token` on `1`, `\`, NUL at the end of the input: the text is `1` and NUL. */
  lemma EscapedNulGensymText()
    ensures var st := Start("#:1\\\0");
      ReadToken(st.(pos := 3), '1', false) == Step(Ok(Scanned("1\0", true)), st.(pos := 5, eof := true))
  {
    var st := Start("#:1\\\0");
    var s5 := st.(pos := 5, eof := true);
    assert ReadTokenLoop(SymChar, s5, Eof, false, false, true, "1\0") == Step(Ok(Scanned("1\0", true)), s5);
    assert "1" + ['\0'] == "1\0" && [] + ['1'] == "1";
    assert ReadTokenLoop(SymChar, st.(pos := 4), Char('\\'), false, false, false, "1")
        == Step(Ok(Scanned("1\0", true)), s5);
  }

  /** `#:1`, `\`, NUL: gensym label 1. */
  lemma EscapedNulEndsGensym()
    ensures Peek(Start("#:1\\\0"), NoHooks)
            == Step(Ok(TokGensym), Start("#:1\\\0").(pos := 5, eof := true, tok := TokGensym, tokval := Fixnum(1)))
  {
    var st := Start("#:1\\\0");
    SharpDispatch(st, NoHooks);
    EscapedNulGensymText();
    CStrUnique("1\0", "1");
    DigitLabel('1');
    GensymFromToken(st.(pos := 2), '1', "1\0", true, st.(pos := 5, eof := true), 1);
  }

  /** `read_token` on `a`, `\`, NUL, `b(`: the text is `a`, NUL, `b`, and `(` is pushed back. */
  lemma EscapedNulNameText()
    ensures var st := Start("#a\\\0b(");
      ReadToken(st.(pos := 2), 'a', false) == Step(Ok(Scanned("a\0b", true)), st.(pos := 5))
  {
    var st := Start("#a\\\0b(");
    assert SymChar('a') && SymChar('b') && !SymChar('(') by {
      assert Special == ['(', ')', '[', ']', '\'', '"', ';', '`', ',', '\\', '|'];
    }
    var s5 := st.(pos := 5);
    assert ReadTokenLoop(SymChar, st.(pos := 6), Char('('), false, false, true, "a\0b") == Step(Ok(Scanned("a\0b", true)), s5);
    assert "a\0" + ['b'] == "a\0b" && "a" + ['\0'] == "a\0" && [] + ['a'] == "a";
    assert ReadTokenLoop(SymChar, s5, Char('b'), false, false, true, "a\0")
        == Step(Ok(Scanned("a\0b", true)), s5);
    assert ReadTokenLoop(SymChar, st.(pos := 3), Char('\\'), false, false, false, "a")
        == Step(Ok(Scanned("a\0b", true)), s5);
  }

  /** `#a`, `\`, NUL, `b(`: a constructor call named `a`. */
  lemma EscapedNulEndsConstructorName()
    ensures Peek(Start("#a\\\0b("), NoHooks)
            == Step(Ok(TokSharpSym), Start("#a\\\0b(").(pos := 6, tok := TokSharpSym, tokval := Sym("a")))
  {
    var st := Start("#a\\\0b(");
    SharpDispatch(st, NoHooks);
    EscapedNulNameText();
    CStrUnique("a\0b", "a");
    var s5 := st.(pos := 5, tok := TokSharpSym, tokval := Sym("a"));
    assert NextChar(s5) == ('(', s5.(pos := 6));
    SharpSymFromToken(st.(pos := 2), 'a', "a\0b", true, st.(pos := 5), s5.(pos := 6));
  }

  /** An unescaped token after blanks whose text, read as a C string, `isnumtok` classifies
      as a number: the cursor ends just past the whole token and the value is cached; a
      conversion that set ERANGE is "overflow in numeric constant", any other is the number
      token. */
  lemma NumberToken(st: State, h: Hooks, j: nat, e: nat)
    requires Wf(st) && st.tok == TokNone && st.pos <= j < e <= |st.input|
    requires forall k :: st.pos <= k < j ==> st.input[k] == ' '
    requires forall k :: j <= k < e ==> SymChar(st.input[k])
    requires st.input[j] != '#' && CStr(st.input[j..e]) != "."
    requires EndsToken(st.input, e) && e - j <= MaxTokenLength
    requires IsNumTok(CStr(st.input[j..e]), h.strtod).Number?
    ensures var n := IsNumTok(CStr(st.input[j..e]), h.strtod);
            var r := Peek(st, h);
      && r.res == (if n.erange then Err(NumericOverflow) else Ok(TokNum))
      && r.st.pos == e && r.st.tokval == NumToValue(n.v)
  {
    var c := st.input[j];
    var s1 := st.(pos := j + 1);
    SymCharIff(c);
    SkipBlanks(st, j);
    assert Peek(st, h) == PeekAtom(s1, c, h);
    PlainRun(s1, c, [], e);
    assert [] + [c] + st.input[j + 1..e] == st.input[j..e];
    AtomNumber(s1, c, h, ReadToken(s1, c, false));
  }

  /** `PeekAtom` once `read_token` has returned unescaped text whose C string is a number. */
  lemma AtomNumber(s1: State, c: char, h: Hooks, t: Step<Scanned>)
    requires Wf(s1) && s1.tok == TokNone && SymChar(c)
    requires t == ReadToken(s1, c, false) && t.res.Ok? && !t.res.value.issym
    requires CStr(t.res.value.text) != "." && IsNumTok(CStr(t.res.value.text), h.strtod).Number?
    ensures var n := IsNumTok(CStr(t.res.value.text), h.strtod);
            var r := PeekAtom(s1, c, h);
      && r.res == (if n.erange then Err(NumericOverflow) else Ok(TokNum))
      && r.st.pos == t.st.pos && r.st.tokval == NumToValue(n.v)
  {
  }

  /** `NumberToken` for a text without NUL (its own C string) written at `j`. */
  lemma NulFreeNumberTokenAt(st: State, h: Hooks, j: nat, text: string)
    requires Wf(st) && st.tok == TokNone && st.pos <= j && 1 <= |text| <= MaxTokenLength
    requires j + |text| <= |st.input| && st.input[j..j + |text|] == text
    requires forall k :: st.pos <= k < j ==> st.input[k] == ' '
    requires forall k :: 0 <= k < |text| ==> SymChar(text[k]) && text[k] != '\0'
    requires text[0] != '#' && text != "."
    requires EndsToken(st.input, j + |text|)
    requires IsNumTok(text, h.strtod).Number?
    ensures var n := IsNumTok(text, h.strtod);
            var r := Peek(st, h);
      && r.res == (if n.erange then Err(NumericOverflow) else Ok(TokNum))
      && r.st.pos == j + |text| && r.st.tokval == NumToValue(n.v)
  {
    var e := j + |text|;
    SliceChars(st.input, j, text);
    assert CStr(st.input[j..e]) == text;
    NumberToken(st, h, j, e);
    assert IsNumTok(CStr(st.input[j..e]), h.strtod) == IsNumTok(text, h.strtod);
  }

  /** The characters numerals are written with. */
  predicate NumeralChar(c: char)
  {
    '0' <= c <= '9' || 'a' <= c <= 'f' || c == 'x' || c == '+' || c == '-'
  }

  lemma NumeralCharIsConstituent(c: char)
    requires NumeralChar(c)
    ensures SymChar(c) && c != '#' && c != '.' && c != '\0'
  {
    SymCharIff(c);
  }

  lemma NumeralText(sign: string, r: Radix, n: nat)
    requires sign == [] || sign == "-" || sign == "+"
    ensures var text := sign + Numeral(r, n);
      forall k :: 0 <= k < |text| ==> NumeralChar(text[k])
  {
    var d := DigitText(n, Base(r));
    DigitTextShape(n, Base(r));
    var prefix := if r == Decimal then "" else if r == Octal then "0" else "0x";
    assert Numeral(r, n) == prefix + d;
    PrefixedDigits(sign, prefix, d);
  }

  lemma PrefixedDigits(sign: string, prefix: string, d: string)
    requires sign == [] || sign == "-" || sign == "+"
    requires prefix == "" || prefix == "0" || prefix == "0x"
    requires forall k :: 0 <= k < |d| ==> '0' <= d[k] <= '9' || 'a' <= d[k] <= 'f'
    ensures var text := sign + (prefix + d);
      forall k :: 0 <= k < |text| ==> NumeralChar(text[k])
  {
    var text := sign + (prefix + d);
    forall k | 0 <= k < |text| ensures NumeralChar(text[k]) {
      if k >= |sign| + |prefix| { assert text[k] == d[k - |sign| - |prefix|]; }
      else if k >= |sign| { assert text[k] == prefix[k - |sign|]; }
    }
  }

  /** Every character of a numeral is a token constituent; none starts a read macro and
      none is NUL. */
  lemma NumeralChars(sign: string, r: Radix, n: nat)
    requires sign == [] || sign == "-" || sign == "+"
    ensures var text := sign + Numeral(r, n);
      && (forall k :: 0 <= k < |text| ==> SymChar(text[k]))
      && (forall k :: 0 <= k < |text| ==> text[k] != '\0')
      && text[0] != '#' && text != "."
  {
    var text := sign + Numeral(r, n);
    NumeralText(sign, r, n);
    forall k | 0 <= k < |text| ensures SymChar(text[k]) && text[k] != '#' && text[k] != '.' && text[k] != '\0' {
      NumeralCharIsConstituent(text[k]);
    }
  }

  /** A numeral after an optional sign, as a whole token after blanks: `-` reads back down
      to -2^63, anything else up to 2^64 - 1, and beyond that the lexer reports overflow
      (the cached value is the clamped one). */
  lemma NumeralToken(st: State, h: Hooks, j: nat, sign: string, r: Radix, n: nat)
    requires sign == [] || sign == "-" || sign == "+"
    requires !TakesFloatPath(sign + Numeral(r, n))
    requires Wf(st) && st.tok == TokNone && st.pos <= j
    requires var e := j + |sign + Numeral(r, n)|;
      e <= |st.input| && st.input[j..e] == sign + Numeral(r, n)
      && EndsToken(st.input, e) && e - j <= MaxTokenLength
    requires forall k :: st.pos <= k < j ==> st.input[k] == ' '
    ensures var e := j + |sign + Numeral(r, n)|;
            var over := if sign == "-" then n > Two63 else n >= Two64;
            var v := if sign == "-" then (if n <= Two63 then -(n as int) else -Two63)
                     else if n < Two64 then n else Two64 - 1;
            var p := Peek(st, h);
      && p.res == (if over then Err(NumericOverflow) else Ok(TokNum))
      && p.st.pos == e && p.st.tokval == Fixnum(v)
  {
    var text := sign + Numeral(r, n);
    NumeralChars(sign, r, n);
    NumeralOutcome(sign, r, n, h.strtod);
    NulFreeNumberTokenAt(st, h, j, text);
    var over := if sign == "-" then n > Two63 else n >= Two64;
    var v := if sign == "-" then (if n <= Two63 then -(n as int) else -Two63)
             else if n < Two64 then n else Two64 - 1;
    PeekOutcome(Peek(st, h), IsNumTok(text, h.strtod), j + |text|, over, v);
  }

  /** `peek`'s outcome for a number token, given its overflow flag and its value. */
  lemma PeekOutcome(p: Step<TokKind>, m: NumTok, e: nat, over: bool, v: int)
    requires m.Number? && m.erange == over && NumToValue(m.v) == Fixnum(v)
    requires p.res == (if m.erange then Err(NumericOverflow) else Ok(TokNum))
    requires p.st.pos == e && p.st.tokval == NumToValue(m.v)
    ensures p.res == (if over then Err(NumericOverflow) else Ok(TokNum))
    ensures p.st.pos == e && p.st.tokval == Fixnum(v)
  {
  }

  /** What `isnumtok` makes of a numeral after an optional sign, in the terms `peek` uses. */
  lemma NumeralOutcome(sign: string, r: Radix, n: nat, strtod: FloatScanner)
    requires sign == [] || sign == "-" || sign == "+"
    requires !TakesFloatPath(sign + Numeral(r, n))
    ensures var m := IsNumTok(sign + Numeral(r, n), strtod);
      && m.Number?
      && m.erange == (if sign == "-" then n > Two63 else n >= Two64)
      && NumToValue(m.v) == Fixnum(if sign == "-" then (if n <= Two63 then -(n as int) else -Two63)
                                   else if n < Two64 then n else Two64 - 1)
  {
    NumeralValue(sign, r, n, strtod);
  }

  /** Constituents copied into the input at `j` are constituents there. */
  lemma SliceChars(s: string, j: nat, text: string)
    requires |text| >= 1 && j + |text| <= |s| && s[j..j + |text|] == text
    requires forall k :: 0 <= k < |text| ==> SymChar(text[k])
    ensures forall k :: j <= k < j + |text| ==> SymChar(s[k])
    ensures s[j] == text[0]
  {
    forall k | j <= k < j + |text| ensures SymChar(s[k]) {
      assert s[k] == text[k - j];
    }
  }
}
