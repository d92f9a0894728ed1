/** The lexer of femtolisp/read.c as functions of the reader state: `nextchar`,
    `read_token` (with `accumchar`), the `u8_fgetc` character-constant read, and `peek`
    with its one-token cache. */
module Lexer {
  import opened Errors
  import opened Chars
  import opened Utf8
  import opened Numbers
  import opened ReaderState

  /** `sizeof(buf)`: the token buffer holds at most 254 characters and the NUL. */
  const BufSize: nat := 256
  const MaxTokenLength: nat := BufSize - 2

  /** Only the cursor and the end-of-file indicator may differ. */
  ghost predicate SameButCursor(st: State, st': State)
  {
    Wf(st') && st' == st.(pos := st'.pos, eof := st'.eof)
  }

  /** Skip the rest of a line comment: `true` when it stopped at a newline, `false` at the
      end of the input. */
  function SkipLine(st: State): (r: (bool, State))
    requires Wf(st)
    ensures SameButCursor(st, r.1) && r.1.pos >= st.pos
    ensures !r.0 ==> r.1.eof
    decreases |st.input| - st.pos
  {
    var (ch, s1) := Getc(st);
    if ch.Eof? then (false, s1)
    else if ch.c == '\n' then (true, s1)
    else SkipLine(s1)
  }

  /** `nextchar`: the next character that is not white space and not inside a `;` comment;
      `'\0'` with the end-of-file indicator set when there is none. */
  function NextChar(st: State): (r: (char, State))
    requires Wf(st)
    ensures SameButCursor(st, r.1) && r.1.pos >= st.pos
    ensures r.1.eof ==> r.0 == '\0'
    ensures !r.1.eof ==> r.1.pos > st.pos && r.0 == st.input[r.1.pos - 1]
                         && !IsSpace(r.0) && r.0 != ';'
    decreases |st.input| - st.pos
  {
    var (ch, s1) := Getc(st);
    if ch.Eof? then ('\0', s1)
    else if ch.c == ';' then
      var (newline, s2) := SkipLine(s1);
      if !newline then ('\0', s2) else NextChar(s2)
    else if IsSpace(ch.c) then NextChar(s1)
    else (ch.c, s1)
  }

  /** Text gathered by `read_token` and whether an escape forced it to be a symbol. */
  datatype Scanned = Scanned(text: string, issym: bool)

  /** Whether `c`, outside an escaped region, ends a token: it is not a constituent or, in
      digit mode, not a digit. */
  predicate StopsToken(sym: char -> bool, c: char, digits: bool, escaped: bool)
  {
    !escaped && !(sym(c) && (!digits || IsDigit(c)))
  }

  /** The loop of `read_token`. `cur` is the character to examine (EOF ends the token);
      `|` toggles the escaped region, `\` takes the next character verbatim, both set
      `issym`; outside an escaped region a character that is not a constituent (or, in
      digit mode, not a digit) ends the token and is pushed back (a push-back that fails
      for the byte 0xFF). `accumchar` fails once
      the text reaches 255 characters. */
  function ReadTokenLoop(sym: char -> bool, st: State, cur: Ch, digits: bool, escaped: bool,
                         issym: bool, text: string): (r: Step<Scanned>)
    requires Wf(st) && |text| <= MaxTokenLength && (escaped ==> issym)
    ensures SameButCursor(st, r.st)
    decreases |st.input| - st.pos, if cur.Char? then 1 else 0
  {
    match cur
    case Eof => Step(Ok(Scanned(text, issym)), st)
    case Char(c) =>
      if c == '|' then
        var (next, s1) := Getc(st);
        ReadTokenLoop(sym, s1, next, digits, !escaped, true, text)
      else if c == '\\' then
        var (quoted, s1) := Getc(st);
        if quoted.Eof? then Step(Ok(Scanned(text, true)), s1)
        else if |text| + 1 > MaxTokenLength then Step(Err(TokenTooLong), s1)
        else
          var (next, s2) := Getc(s1);
          ReadTokenLoop(sym, s2, next, digits, escaped, true, text + [quoted.c])
      else if !escaped && !(sym(c) && (!digits || IsDigit(c))) then
        Step(Ok(Scanned(text, issym)), UngetcChar(st, c))
      else if |text| + 1 > MaxTokenLength then Step(Err(TokenTooLong), st)
      else
        var (next, s1) := Getc(st);
        ReadTokenLoop(sym, s1, next, digits, escaped, issym, text + [c])
  }

  /** Where the token loop leaves the cursor: back at most one place, and not back at all
      when the current character is taken. */
  lemma {:induction false} TokenLoopCursor(sym: char -> bool, st: State, cur: Ch, digits: bool,
                                           escaped: bool, issym: bool, text: string)
    requires Wf(st) && |text| <= MaxTokenLength && (escaped ==> issym)
    ensures var r := ReadTokenLoop(sym, st, cur, digits, escaped, issym, text);
      && r.st.pos + 1 >= st.pos
      && ((cur.Char? && (cur.c == '|' || cur.c == '\\' || escaped
                         || (sym(cur.c) && (!digits || IsDigit(cur.c))))) ==> r.st.pos >= st.pos)
    decreases |st.input| - st.pos, if cur.Char? then 1 else 0
  {
    match cur
    case Eof =>
    case Char(c) =>
      if c == '|' {
        var (next, s1) := Getc(st);
        TokenLoopCursor(sym, s1, next, digits, !escaped, true, text);
      } else if c == '\\' {
        var (quoted, s1) := Getc(st);
        if quoted.Char? && |text| + 1 <= MaxTokenLength {
          var (next, s2) := Getc(s1);
          TokenLoopCursor(sym, s2, next, digits, escaped, true, text + [quoted.c]);
        }
      } else if !escaped && !(sym(c) && (!digits || IsDigit(c))) {
      } else if |text| + 1 <= MaxTokenLength {
        var (next, s1) := Getc(st);
        TokenLoopCursor(sym, s1, next, digits, escaped, issym, text + [c]);
      }
  }

  /** What the token loop reads: the text stays within the buffer and extends what was read
      so far, an escape keeps the token a symbol, and an unescaped token holds only
      constituents (only digits in digit mode). */
  lemma {:induction false} TokenLoopText(sym: char -> bool, st: State, cur: Ch, digits: bool,
                                         escaped: bool, issym: bool, text: string)
    requires Wf(st) && |text| <= MaxTokenLength && (escaped ==> issym)
    ensures var r := ReadTokenLoop(sym, st, cur, digits, escaped, issym, text);
      && (r.res.Ok? ==> |r.res.value.text| <= MaxTokenLength && text <= r.res.value.text)
      && (r.res.Ok? && issym ==> r.res.value.issym)
      && (r.res.Ok? && !r.res.value.issym ==>
            forall k :: |text| <= k < |r.res.value.text| ==>
              sym(r.res.value.text[k]) && (digits ==> IsDigit(r.res.value.text[k])))
    decreases |st.input| - st.pos, if cur.Char? then 1 else 0
  {
    match cur
    case Eof =>
    case Char(c) =>
      if c == '|' {
        var (next, s1) := Getc(st);
        TokenLoopText(sym, s1, next, digits, !escaped, true, text);
      } else if c == '\\' {
        var (quoted, s1) := Getc(st);
        if quoted.Char? && |text| + 1 <= MaxTokenLength {
          var (next, s2) := Getc(s1);
          TokenLoopText(sym, s2, next, digits, escaped, true, text + [quoted.c]);
        }
      } else if !escaped && !(sym(c) && (!digits || IsDigit(c))) {
      } else if |text| + 1 <= MaxTokenLength {
        var (next, s1) := Getc(st);
        TokenLoopText(sym, s1, next, digits, escaped, issym, text + [c]);
      }
  }

  /** `read_token(f, c, digits)`: `c` has already been read. */
  function ReadToken(st: State, c: char, digits: bool): (r: Step<Scanned>)
    requires Wf(st)
    ensures SameButCursor(st, r.st) && r.st.pos + 1 >= st.pos
    ensures (c == '|' || c == '\\' || (SymChar(c) && (!digits || IsDigit(c)))) ==> r.st.pos >= st.pos
    ensures r.res.Ok? ==> |r.res.value.text| <= MaxTokenLength
    ensures r.res.Ok? && !r.res.value.issym ==>
      forall k :: 0 <= k < |r.res.value.text| ==>
        SymChar(r.res.value.text[k]) && (digits ==> IsDigit(r.res.value.text[k]))
  {
    TokenLoopCursor(SymChar, st, Char(c), digits, false, false, []);
    TokenLoopText(SymChar, st, Char(c), digits, false, false, []);
    ReadTokenLoop(SymChar, st, Char(c), digits, false, false, [])
  }

  /** `read_token` with the constituent test exactly as the C `symchar` computes it, where
      NUL is not a constituent. */
  function ReadTokenAsWritten(st: State, c: char, digits: bool): (r: Step<Scanned>)
    requires Wf(st)
    ensures SameButCursor(st, r.st) && r.st.pos + 1 >= st.pos
  {
    TokenLoopCursor(SymCharAsWritten, st, Char(c), digits, false, false, []);
    TokenLoopText(SymCharAsWritten, st, Char(c), digits, false, false, []);
    ReadTokenLoop(SymCharAsWritten, st, Char(c), digits, false, false, [])
  }

  /** Reads the continuation bytes of a UTF-8 sequence; `None` at the end of the input. */
  function GatherBytes(st: State, acc: seq<Byte>, more: nat): (r: (Option<seq<Byte>>, State))
    requires Wf(st)
    ensures SameButCursor(st, r.1) && r.1.pos >= st.pos
    ensures r.0.Some? ==> |r.0.value| == |acc| + more
    decreases more
  {
    if more == 0 then (Some(acc), st)
    else
      var (ch, s1) := Getc(st);
      if ch.Eof? then (None, s1) else GatherBytes(s1, acc + [ToByte(ch.c)], more - 1)
  }

  /** `u8_fgetc`: one code point, or `None` when the input ends inside it. */
  function U8Getc(st: State): (r: (Option<nat>, State))
    requires Wf(st)
    ensures SameButCursor(st, r.1) && r.1.pos >= st.pos
  {
    var (ch, s1) := Getc(st);
    if ch.Eof? then (None, s1)
    else
      var lead := ToByte(ch.c);
      var (bs, s2) := GatherBytes(s1, [lead], SequenceLength(lead) - 1);
      if bs.None? then (None, s2) else (Some(Decode(bs.value)), s2)
  }

  /** The rest of a `#| ... |#` block comment; `cur` is the character just read. */
  function SkipBlock(st: State, cur: Ch): (r: Step<()>)
    requires Wf(st)
    ensures SameButCursor(st, r.st) && r.st.pos >= st.pos
    decreases |st.input| - st.pos, if cur.Char? then 1 else 0
  {
    match cur
    case Eof => Step(Err(EofWithinComment), st)
    case Char(c) =>
      var (next, s1) := Getc(st);
      if c == '|' && AsChar(next) == '#' then Step(Ok(()), s1)
      else if c == '|' then SkipBlock(s1, next)
      else SkipBlock(s1, next)
  }

  /** What every token-producing step guarantees: only the cursor, the end-of-file
      indicator and the token cache change; the cursor never moves back; a success
      caches the token it returns; `TokNone` is returned only at the end of the input. */
  ghost predicate LexPost(st: State, r: Step<TokKind>)
  {
    && Wf(r.st)
    && r.st == st.(pos := r.st.pos, eof := r.st.eof, tok := r.st.tok, tokval := r.st.tokval)
    && r.st.pos >= st.pos
    && (r.res.Ok? ==> r.st.tok == r.res.value)
    && (r.res.Err? ==> r.st.tok == TokNone || r.st.tok == TokLabel || r.st.tok == TokBackref)
    && (r.res == Ok(TokNone) ==> r.st.eof)
  }

  function SetTok(st: State, t: TokKind): (r: Step<TokKind>)
  {
    Step(Ok(t), st.(tok := t))
  }

  function SetTokVal(st: State, t: TokKind, v: Value): (r: Step<TokKind>)
  {
    Step(Ok(t), st.(tok := t, tokval := v))
  }

  function NumToValue(n: NumValue): Value
  {
    match n
    case IntVal(i) => Fixnum(i)
    case FloatVal(text, single) => Flonum(text, single)
  }

  /** `peek`: the cached token if there is one; otherwise lex the next token and cache it. */
  function Peek(st: State, h: Hooks): (r: Step<TokKind>)
    requires Wf(st)
    ensures LexPost(st, r)
    ensures st.tok != TokNone ==> r == Step(Ok(st.tok), st)
    ensures st.tok == TokNone && r.st.tok != TokNone ==> r.st.pos > st.pos
    decreases |st.input| - st.pos, 1
  {
    if st.tok != TokNone then Step(Ok(st.tok), st)
    else
      var (c, s1) := NextChar(st);
      if s1.eof then Step(Ok(TokNone), s1)
      else if c == '(' then SetTok(s1, TokOpen)
      else if c == ')' then SetTok(s1, TokClose)
      else if c == '[' then SetTok(s1, TokOpenB)
      else if c == ']' then SetTok(s1, TokCloseB)
      else if c == '\'' then SetTok(s1, TokQuote)
      else if c == '`' then SetTok(s1, TokBackquote)
      else if c == '"' then SetTok(s1, TokDoubleQuote)
      else if c == '#' then PeekSharp(s1, h)
      else if c == ',' then PeekComma(s1)
      else
        assert c == '|' || c == '\\' || SymChar(c) by {
          assert Special == ['(', ')', '[', ']', '\'', '"', ';', '`', ',', '\\', '|'];
        }
        PeekAtom(s1, c, h)
  }

  /** The token after `#`: read macros, labels, gensyms, comments. */
  function PeekSharp(st: State, h: Hooks): (r: Step<TokKind>)
    requires Wf(st) && st.tok == TokNone && st.pos > 0
    ensures LexPost(st, r)
    decreases |st.input| - st.pos, 0
  {
    var (ch, s1) := Getc(st);
    match ch
    case Eof => Step(Err(InvalidReadMacro), s1)
    case Char(c) =>
      if c == '.' then SetTok(s1, TokSharpDot)
      else if c == '\'' then SetTok(s1, TokSharpQuote)
      else if c == '\\' then
        var (cp, s2) := U8Getc(s1);
        if cp.None? then Step(Err(EofInCharConstant), s2)
        else SetTokVal(s2, TokNum, Character(cp.value, cp.value > 0x7f))
      else if c == '(' then SetTok(s1, TokSharpOpen)
      else if c == '<' then Step(Err(UnreadableObject), s1)
      else if IsDigit(c) then PeekLabel(s1, c)
      else if c == '!' then
        var (_, s2) := SkipLine(s1);
        Peek(s2, h)
      else if c == '|' then
        var (next, s2) := Getc(s1);
        var skipped := SkipBlock(s2, next);
        if skipped.res.Err? then Step(Err(skipped.res.error), skipped.st)
        else Peek(skipped.st, h)
      else if c == ':' then PeekGensym(s1)
      else if SymChar(c) then PeekSharpSym(s1, c)
      else Step(Err(UnknownReadMacro), s1)
  }

  /** `#n#` and `#n=`: digits, then `#` or `=`, then a decimal label `strtol` accepts. */
  function PeekLabel(st: State, c: char): (r: Step<TokKind>)
    requires Wf(st) && st.tok == TokNone && IsDigit(c)
    ensures LexPost(st, r)
  {
    var t := ReadToken(st, c, true);
    if t.res.Err? then Step(Err(t.res.error), t.st)
    else
      var (next, s1) := Getc(t.st);
      var k := AsChar(next);
      if k != '#' && k != '=' then Step(Err(InvalidLabel), s1)
      else
        var kind := if k == '#' then TokBackref else TokLabel;
        match DecimalLabel(CStr(t.res.value.text))
        case None => Step(Err(InvalidLabel), s1.(tok := kind))
        case Some(x) => SetTokVal(s1, kind, Fixnum(x))
  }

  /** `#:n` and `#:gn`: a gensym label. */
  function PeekGensym(st: State): (r: Step<TokKind>)
    requires Wf(st) && st.tok == TokNone
    ensures LexPost(st, r)
  {
    var (c1, s1) := Getc(st);
    var (c2, s2) := if AsChar(c1) == 'g' then Getc(s1) else (c1, s1);
    var t := ReadToken(s2, AsChar(c2), false);
    if t.res.Err? then Step(Err(t.res.error), t.st)
    else if CStr(t.res.value.text) == [] then Step(Err(InvalidGensymLabel), t.st)
    else
      match DecimalLabel(CStr(t.res.value.text))
      case None => Step(Err(InvalidGensymLabel), t.st)
      case Some(x) => SetTokVal(t.st, TokGensym, Fixnum(x))
  }

  /** `#name(`: a constructor call; the open parenthesis must follow at once (after white
      space and comments) and is consumed here. */
  function PeekSharpSym(st: State, c: char): (r: Step<TokKind>)
    requires Wf(st) && st.tok == TokNone && SymChar(c)
    ensures LexPost(st, r)
  {
    var t := ReadToken(st, c, false);
    if t.res.Err? then Step(Err(t.res.error), t.st)
    else
      var name := CStr(t.res.value.text);
      var s1 := t.st.(tok := TokSharpSym, tokval := Sym(name));
      var (next, s2) := NextChar(s1);
      if next != '(' then Step(Err(ExpectedArgumentList(name)), s2.(tok := TokNone))
      else Step(Ok(TokSharpSym), s2)
  }

  /** `,` `,@` `,.` */
  function PeekComma(st: State): (r: Step<TokKind>)
    requires Wf(st) && st.tok == TokNone
    ensures LexPost(st, r)
  {
    var (ch, s1) := Getc(st);
    if ch.Eof? then SetTok(s1, TokComma)
    else if ch.c == '@' then SetTok(s1, TokCommaAt)
    else if ch.c == '.' then SetTok(s1, TokCommaDot)
    else SetTok(UngetcChar(s1, ch.c), TokComma)
  }

  /** A symbol, a number or the dot. The buffer is read as a C string, so everything from
      an escaped NUL on is dropped. Escaped text is always a symbol; unescaped `.` is the
      dot token; otherwise `isnumtok` decides, and ERANGE is "overflow in numeric constant". */
  function PeekAtom(st: State, c: char, h: Hooks): (r: Step<TokKind>)
    requires Wf(st) && st.tok == TokNone
    requires c == '|' || c == '\\' || SymChar(c)
    ensures LexPost(st, r)
  {
    var t := ReadToken(st, c, false);
    if t.res.Err? then Step(Err(t.res.error), t.st)
    else
      var text, issym := CStr(t.res.value.text), t.res.value.issym;
      if !issym && text == "." then SetTok(t.st, TokDot)
      else if !issym && IsNumTok(text, h.strtod).Number? then
        var n := IsNumTok(text, h.strtod);
        var s1 := t.st.(tokval := NumToValue(n.v));
        if n.erange then Step(Err(NumericOverflow), s1) else SetTok(s1, TokNum)
      else SetTokVal(t.st, TokSym, Sym(text))
  }
}
