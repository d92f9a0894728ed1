/** The reader as the C code runs it: one object holding the input stream, the token
    buffer `buf`, the one-token cache (`toktype`, `tokval`), the heap, the current read
    session and the gensym counter. Each method is proved to give the result and leave the
    object in the state that a function of `ReaderState`, `Lexer`, `StringLiteral` or
    `Parser` computes, most often the function of the same name. The methods for one pass
    of a loop (`ListElement`, `ListTail`, `ListDot`, `VectorElement`, `VectorNext`) stop at
    the next loop test and agree with their function only up to it. The helpers
    `VectorLoop`, `FinishVector`, `AllocVector`, `Grow`, `Put`, `EscapeBytes`,
    `OctalDigits`, `HexDigits`, `Escape` and `Terminate` have no function of the same
    name; they state their effect directly or name the function they agree with. */
module Reading {
  import opened Errors
  import opened Chars
  import opened Utf8
  import opened Numbers
  import opened ReaderState
  import opened Lexer
  import opened StringLiteral
  import opened Parser

  class Reader {
    const input: string
    var pos: nat
    var eof: bool
    var tok: TokKind
    var tokval: Value
    /** `static char buf[256]`: the text of the token last read. */
    const buf: array<char>
    var heap: seq<Cell>
    var session: Session
    var gensymCount: nat
    const hooks: Hooks

    /** The reader's state as the functions of the model see it. */
    ghost function Snapshot(): State
      reads this
    {
      State(input, pos, eof, tok, tokval, heap, session, gensymCount)
    }

    ghost predicate Valid()
      reads this
    {
      buf.Length == BufSize && Wf(Snapshot())
    }

    constructor (input: string, hooks: Hooks)
      ensures Valid() && fresh(buf)
      ensures Snapshot() == State(input, 0, false, TokNone, Nil, [], EmptySession, 0)
      ensures this.hooks == hooks
    {
      this.input := input;
      this.hooks := hooks;
      pos := 0;
      eof := false;
      tok := TokNone;
      tokval := Nil;
      buf := new char[BufSize];
      heap := [];
      session := EmptySession;
      gensymCount := 0;
    }

    /** `fgetc`. */
    method Getc() returns (ch: Ch)
      requires Valid()
      modifies this
      ensures Valid() && (ch, Snapshot()) == ReaderState.Getc(old(Snapshot()))
    {
      if pos < |input| {
        ch := Char(input[pos]);
        pos := pos + 1;
      } else {
        ch := Eof;
        eof := true;
      }
    }

    /** `ungetc` of a `char` just read: nothing happens for the byte 0xFF, which is
        `(char)EOF`. */
    method UngetcChar(c: char)
      requires Valid()
      modifies this
      ensures Valid() && Snapshot() == ReaderState.UngetcChar(old(Snapshot()), c)
    {
      if c != EofChar {
        Ungetc();
      }
    }

    /** `ungetc` of the character just read. */
    method Ungetc()
      requires Valid()
      modifies this
      ensures Valid() && Snapshot() == ReaderState.Ungetc(old(Snapshot()))
    {
      if pos > 0 {
        pos := pos - 1;
      }
      eof := false;
    }

    /** `take`. */
    method Take()
      modifies this
      ensures Snapshot() == ReaderState.Take(old(Snapshot()))
    {
      tok := TokNone;
    }

    /** `nextchar`. */
    method NextChar() returns (c: char)
      requires Valid()
      modifies this
      ensures Valid() && (c, Snapshot()) == Lexer.NextChar(old(Snapshot()))
    {
      ghost var goal := Lexer.NextChar(Snapshot());
      while true
        invariant Valid() && Lexer.NextChar(Snapshot()) == goal
        decreases |input| - pos
      {
        var ch := Getc();
        if ch.Eof? {
          return '\0';
        }
        c := ch.c;
        if c == ';' {
          while true
            invariant Valid() && old(pos) <= pos
            invariant goal == (var (newline, s2) := SkipLine(Snapshot());
                               if !newline then ('\0', s2) else Lexer.NextChar(s2))
            decreases |input| - pos
          {
            ch := Getc();
            if ch.Eof? {
              return '\0';
            }
            if ch.c == '\n' {
              break;
            }
          }
          c := ch.c;
        }
        if !IsSpace(c) {
          return c;
        }
      }
    }

    /** `accumchar`: store `c` at `buf[i]`; the 255th character is "token too long". */
    method AccumChar(c: char, i: nat) returns (r: Result<nat>)
      requires Valid() && i <= MaxTokenLength
      modifies buf
      ensures buf[..i] == old(buf[..i]) && buf[i] == c
      ensures r == if i + 1 > MaxTokenLength then Err(TokenTooLong) else Ok(i + 1)
    {
      buf[i] := c;
      if i + 1 >= BufSize - 1 {
        return Err(TokenTooLong);
      }
      return Ok(i + 1);
    }

    /** `read_token`: the text goes to `buf[..n]`, NUL-terminated; the result says whether an
        escape forced a symbol. */
    method ReadToken(c: char, digits: bool) returns (r: Result<bool>, n: nat)
      requires Valid()
      modifies this, buf
      ensures Valid()
      ensures Snapshot() == Lexer.ReadToken(old(Snapshot()), c, digits).st
      ensures r.Err? ==> Lexer.ReadToken(old(Snapshot()), c, digits).res == Err(r.error)
      ensures r.Ok? ==> n < BufSize && buf[n] == '\0'
                        && Lexer.ReadToken(old(Snapshot()), c, digits).res == Ok(Scanned(buf[..n], r.value))
    {
      ghost var goal := Lexer.ReadToken(Snapshot(), c, digits);
      var i: nat := 0;
      var escaped, issym := false, false;
      var ch := Char(c);
      while true
        invariant Valid() && i <= MaxTokenLength && (escaped ==> issym)
        invariant ReadTokenLoop(SymChar, Snapshot(), ch, digits, escaped, issym, buf[..i]) == goal
        decreases |input| - pos, if ch.Char? then 1 else 0
      {
        ghost var st0, text0, escaped0, issym0 := Snapshot(), buf[..i], escaped, issym;
        if ch.Eof? {
          r, n := Terminate(issym, i);
          return;
        }
        var k := ch.c;
        if k == '|' {
          issym := true;
          escaped := !escaped;
          ch := Getc();
        } else if k == '\\' {
          var done;
          done, r, n, ch := Escape(digits, escaped, issym, i);
          if done {
            return;
          }
          issym := true;
          i := n;
        } else if !escaped && !(SymChar(k) && (!digits || IsDigit(k))) {
          UngetcChar(k);
          assert goal == Step(Ok(Scanned(text0, issym0)), Snapshot());
          r, n := Terminate(issym, i);
          return;
        } else {
          var a := AccumChar(k, i);
          if a.Err? {
            assert goal == Step(Err(TokenTooLong), Snapshot());
            return Err(a.error), 0;
          }
          assert buf[..a.value] == text0 + [k];
          i := a.value;
          ch := Getc();
        }
      }
    }

    /** The `\\` case of `read_token`: the next character is taken literally, and the token
        becomes a symbol. Either the token ends here (`done`, with the outcome in `r` and
        `n`), or the loop goes on with `ch` after the text `buf[..n]`. */
    method Escape(ghost digits: bool, ghost escaped: bool, ghost issym: bool, i: nat)
      returns (done: bool, r: Result<bool>, n: nat, ch: Ch)
      requires Valid() && i <= MaxTokenLength && (escaped ==> issym)
      modifies this, buf
      ensures Valid()
      ensures var goal := ReadTokenLoop(SymChar, old(Snapshot()), Char('\\'), digits, escaped, issym,
                                        old(buf[..i]));
        if done then
          && goal.st == Snapshot()
          && (r.Err? ==> goal.res == Err(r.error))
          && (r.Ok? ==> n < BufSize && buf[n] == '\0' && goal.res == Ok(Scanned(buf[..n], r.value)))
        else
          && n <= MaxTokenLength && pos > old(pos)
          && goal == ReadTokenLoop(SymChar, Snapshot(), ch, digits, escaped, true, buf[..n])
    {
      ghost var st0, text0 := Snapshot(), buf[..i];
      EscapeStep(st0, digits, escaped, issym, text0);
      var quoted := Getc();
      if quoted.Eof? {
        done, ch := true, Eof;
        r, n := Terminate(true, i);
        return;
      }
      var a := AccumChar(quoted.c, i);
      if a.Err? {
        return true, Err(a.error), 0, Eof;
      }
      assert buf[..a.value] == text0 + [quoted.c];
      done, r, n := false, Ok(true), a.value;
      ch := Getc();
    }

    /** `u8_fgetc`: the lead byte says how many continuation bytes follow. */
    method U8Getc() returns (cp: Option<nat>)
      requires Valid()
      modifies this
      ensures Valid() && (cp, Snapshot()) == Lexer.U8Getc(old(Snapshot()))
    {
      var ch := Getc();
      if ch.Eof? {
        return None;
      }
      var lead := ToByte(ch.c);
      ghost var goal := GatherBytes(Snapshot(), [lead], SequenceLength(lead) - 1);
      var bytes := [lead];
      var more: nat := SequenceLength(lead) - 1;
      while more > 0
        invariant Valid() && GatherBytes(Snapshot(), bytes, more) == goal
        decreases more
      {
        ch := Getc();
        if ch.Eof? {
          return None;
        }
        bytes := bytes + [ToByte(ch.c)];
        more := more - 1;
      }
      return Some(Decode(bytes));
    }

    /** The rest of a `#| ... |#` comment, from the character `ch` just read. */
    method SkipBlock(ch: Ch) returns (r: Result<()>)
      requires Valid()
      modifies this
      ensures Valid() && Step(r, Snapshot()) == Lexer.SkipBlock(old(Snapshot()), ch)
    {
      ghost var goal := Lexer.SkipBlock(Snapshot(), ch);
      var cur := ch;
      while true
        invariant Valid() && Lexer.SkipBlock(Snapshot(), cur) == goal
        decreases |input| - pos, if cur.Char? then 1 else 0
      {
        if cur.Eof? {
          return Err(EofWithinComment);
        }
        var c := cur.c;
        cur := Getc();
        if c == '|' && AsChar(cur) == '#' {
          return Ok(());
        }
      }
    }

    /** `peek`. */
    method Peek() returns (r: Result<TokKind>)
      requires Valid()
      modifies this, buf
      ensures Valid() && Step(r, Snapshot()) == Lexer.Peek(old(Snapshot()), hooks)
      decreases |input| - pos, 1
    {
      if tok != TokNone {
        return Ok(tok);
      }
      var c := NextChar();
      if eof {
        return Ok(TokNone);
      }
      if c == '(' {
        tok := TokOpen;
      } else if c == ')' {
        tok := TokClose;
      } else if c == '[' {
        tok := TokOpenB;
      } else if c == ']' {
        tok := TokCloseB;
      } else if c == '\'' {
        tok := TokQuote;
      } else if c == '`' {
        tok := TokBackquote;
      } else if c == '"' {
        tok := TokDoubleQuote;
      } else if c == '#' {
        r := PeekSharp();
        return;
      } else if c == ',' {
        r := PeekComma();
        return;
      } else {
        assert c == '|' || c == '\\' || SymChar(c) by {
          assert Special == ['(', ')', '[', ']', '\'', '"', ';', '`', ',', '\\', '|'];
        }
        r := PeekAtom(c);
        return;
      }
      return Ok(tok);
    }

    /** The `#` branch of `peek`. */
    method PeekSharp() returns (r: Result<TokKind>)
      requires Valid() && tok == TokNone && pos > 0
      modifies this, buf
      ensures Valid() && Step(r, Snapshot()) == Lexer.PeekSharp(old(Snapshot()), hooks)
      decreases |input| - pos, 0
    {
      var ch := Getc();
      if ch.Eof? {
        return Err(InvalidReadMacro);
      }
      var c := ch.c;
      if c == '.' {
        tok := TokSharpDot;
      } else if c == '\'' {
        tok := TokSharpQuote;
      } else if c == '\\' {
        var cp := U8Getc();
        if cp.None? {
          return Err(EofInCharConstant);
        }
        tok, tokval := TokNum, Character(cp.value, cp.value > 0x7f);
      } else if c == '(' {
        tok := TokSharpOpen;
      } else if c == '<' {
        return Err(UnreadableObject);
      } else if IsDigit(c) {
        r := PeekLabel(c);
        return;
      } else if c == '!' {
        while true
          invariant Valid() && tok == TokNone && pos > old(pos)
          invariant Lexer.PeekSharp(old(Snapshot()), hooks)
                    == Lexer.Peek(SkipLine(Snapshot()).1, hooks)
          decreases |input| - pos
        {
          ch := Getc();
          if ch.Eof? || ch.c == '\n' {
            break;
          }
        }
        r := Peek();
        return;
      } else if c == '|' {
        ch := Getc();
        var skipped := SkipBlock(ch);
        if skipped.Err? {
          return Err(skipped.error);
        }
        r := Peek();
        return;
      } else if c == ':' {
        r := PeekGensym();
        return;
      } else if SymChar(c) {
        r := PeekSharpSym(c);
        return;
      } else {
        return Err(UnknownReadMacro);
      }
      return Ok(tok);
    }

    /** `#n#` and `#n=`. */
    method PeekLabel(c: char) returns (r: Result<TokKind>)
      requires Valid() && tok == TokNone && IsDigit(c)
      modifies this, buf
      ensures Valid() && Step(r, Snapshot()) == Lexer.PeekLabel(old(Snapshot()), c)
    {
      var t, n := ReadToken(c, true);
      if t.Err? {
        return Err(t.error);
      }
      var next := Getc();
      var k := AsChar(next);
      if k == '#' {
        tok := TokBackref;
      } else if k == '=' {
        tok := TokLabel;
      } else {
        return Err(InvalidLabel);
      }
      var x := DecimalLabel(CStr(buf[..n]));
      if x.None? {
        return Err(InvalidLabel);
      }
      tokval := Fixnum(x.value);
      return Ok(tok);
    }

    /** `#:n` and `#:gn`. */
    method PeekGensym() returns (r: Result<TokKind>)
      requires Valid() && tok == TokNone
      modifies this, buf
      ensures Valid() && Step(r, Snapshot()) == Lexer.PeekGensym(old(Snapshot()))
    {
      var ch := Getc();
      if AsChar(ch) == 'g' {
        ch := Getc();
      }
      var t, n := ReadToken(AsChar(ch), false);
      if t.Err? {
        return Err(t.error);
      }
      var text := CStr(buf[..n]);
      if text == [] {
        return Err(InvalidGensymLabel);
      }
      var x := DecimalLabel(text);
      if x.None? {
        return Err(InvalidGensymLabel);
      }
      tok, tokval := TokGensym, Fixnum(x.value);
      return Ok(tok);
    }

    /** `#name(`. */
    method PeekSharpSym(c: char) returns (r: Result<TokKind>)
      requires Valid() && tok == TokNone && SymChar(c)
      modifies this, buf
      ensures Valid() && Step(r, Snapshot()) == Lexer.PeekSharpSym(old(Snapshot()), c)
    {
      var t, n := ReadToken(c, false);
      if t.Err? {
        return Err(t.error);
      }
      tok, tokval := TokSharpSym, Sym(CStr(buf[..n]));
      var next := NextChar();
      if next != '(' {
        Take();
        return Err(ExpectedArgumentList(tokval.name));
      }
      return Ok(tok);
    }

    /** The `,` branch of `peek`. */
    method PeekComma() returns (r: Result<TokKind>)
      requires Valid() && tok == TokNone
      modifies this
      ensures Valid() && Step(r, Snapshot()) == Lexer.PeekComma(old(Snapshot()))
    {
      tok := TokComma;
      var ch := Getc();
      if ch.Eof? {
        return Ok(tok);
      }
      if ch.c == '@' {
        tok := TokCommaAt;
      } else if ch.c == '.' {
        tok := TokCommaDot;
      } else {
        UngetcChar(ch.c);
      }
      return Ok(tok);
    }

    /** The last branch of `peek`: a symbol, a number or the dot. */
    method PeekAtom(c: char) returns (r: Result<TokKind>)
      requires Valid() && tok == TokNone
      requires c == '|' || c == '\\' || SymChar(c)
      modifies this, buf
      ensures Valid() && Step(r, Snapshot()) == Lexer.PeekAtom(old(Snapshot()), c, hooks)
    {
      var t, n := ReadToken(c, false);
      if t.Err? {
        return Err(t.error);
      }
      if !t.value {
        if n >= 1 && buf[0] == '.' && (n == 1 || buf[1] == '\0') {
          DotText(buf[..n]);
          tok := TokDot;
          return Ok(tok);
        }
        DotText(buf[..n]);
        var num := IsNumTok(CStr(buf[..n]), hooks.strtod);
        if num.Number? {
          tokval := NumToValue(num.v);
          if num.erange {
            return Err(NumericOverflow);
          }
          tok := TokNum;
          return Ok(tok);
        }
      }
      tok, tokval := TokSym, Sym(CStr(buf[..n]));
      return Ok(tok);
    }

    /** `read_string`, after the opening `"`: the bytes go to a buffer of 64 that doubles
        before each pass in which at most four bytes (the longest UTF-8 sequence) are free. */
    method ReadString() returns (r: Result<seq<Byte>>)
      requires Valid()
      modifies this
      ensures Valid() && Step(r, Snapshot()) == StringLiteral.ReadString(old(Snapshot()))
    {
      ghost var goal := StringLiteral.ReadString(Snapshot());
      var b := new Byte[64];
      var i: nat := 0;
      while true
        invariant Valid() && fresh(b) && 64 <= b.Length && i < b.Length
        invariant ReadStringLoop(Snapshot(), b[..i]) == goal
        decreases |input| - pos
      {
        if i >= b.Length - 4 {
          b := Grow(b, i);
        }
        var ch := Getc();
        if ch.Eof? {
          return Err(EofInString);
        }
        if ch.c == '"' {
          return Ok(b[..i]);
        } else if ch.c == '\\' {
          var e := Getc();
          if e.Eof? {
            return Err(EofInEscape);
          }
          var bs := EscapeBytes(e.c);
          i := Put(b, i, bs);
        } else {
          i := Put(b, i, [ToByte(ch.c)]);
        }
      }
    }

    /** `realloc` to twice the size, keeping the first `i` bytes. */
    static method Grow(b: array<Byte>, i: nat) returns (b2: array<Byte>)
      requires i <= b.Length
      ensures fresh(b2) && b2.Length == 2 * b.Length && b2[..i] == b[..i]
    {
      b2 := new Byte[2 * b.Length];
      var k := 0;
      while k < b.Length
        invariant k <= b.Length && b2[..k] == b[..k]
      {
        b2[k] := b[k];
        k := k + 1;
      }
      assert b2[..i] == b2[..b.Length][..i];
    }

    /** Stores `bs` at `b[i..]`, as `buf[i++] = c` and `u8_wc_toutf8(&buf[i], wc)` do. */
    static method Put(b: array<Byte>, i: nat, bs: seq<Byte>) returns (j: nat)
      requires i + |bs| <= b.Length
      modifies b
      ensures j == i + |bs| && b[..j] == old(b[..i]) + bs
    {
      j := i;
      while j < i + |bs|
        invariant i <= j <= i + |bs| && b[..j] == old(b[..i]) + bs[..j - i]
      {
        b[j] := bs[j - i];
        j := j + 1;
      }
    }

    /** The bytes of the escape whose letter `c` follows the backslash. */
    method EscapeBytes(c: char) returns (bs: seq<Byte>)
      requires Valid()
      modifies this
      ensures Valid() && (bs, Snapshot()) == StringLiteral.Escape(old(Snapshot()), c)
    {
      if IsOctalDigit(c) {
        var ds := OctalDigits(c);
        bs := Encode(DigitsValue(ds, 8));
      } else if c == 'x' || c == 'u' || c == 'U' {
        var ds := HexDigits(HexWidth(c));
        bs := Encode(if ds == [] then c as int else DigitsValue(ds, 16));
      } else {
        bs := [NamedEscape(c)];
      }
    }

    /** The `do ... while` over at most three octal digits, the first being `c`. */
    method OctalDigits(c: char) returns (ds: string)
      requires Valid() && IsOctalDigit(c)
      modifies this
      ensures Valid() && (ds, Snapshot()) == OctalRun(old(Snapshot()), [c])
    {
      ds := [c];
      ghost var prev := Snapshot();
      var ch := Getc();
      while ch.Char? && IsOctalDigit(ch.c) && |ds| < 3
        invariant Valid() && Wf(prev) && (ch, Snapshot()) == ReaderState.Getc(prev)
        invariant 1 <= |ds| <= 3 && forall k :: 0 <= k < |ds| ==> IsOctalDigit(ds[k])
        invariant OctalRun(prev, ds) == OctalRun(old(Snapshot()), [c])
        decreases 3 - |ds|
      {
        ds := ds + [ch.c];
        prev := Snapshot();
        ch := Getc();
      }
      if ch.Char? {
        Ungetc();
      }
    }

    /** Up to `ndig` hex digits after `\x`, `\u` or `\U`. */
    method HexDigits(ndig: nat) returns (ds: string)
      requires Valid()
      modifies this
      ensures Valid() && (ds, Snapshot()) == HexRun(old(Snapshot()), ndig, [])
    {
      ds := [];
      ghost var prev := Snapshot();
      var ch := Getc();
      while ch.Char? && IsHexDigit(ch.c) && |ds| < ndig
        invariant Valid() && Wf(prev) && (ch, Snapshot()) == ReaderState.Getc(prev)
        invariant |ds| <= ndig && forall k :: 0 <= k < |ds| ==> IsHexDigit(ds[k])
        invariant HexRun(prev, ndig, ds) == HexRun(old(Snapshot()), ndig, [])
        decreases ndig - |ds|
      {
        ds := ds + [ch.c];
        prev := Snapshot();
        ch := Getc();
      }
      if ch.Char? {
        Ungetc();
      }
    }

    /** `do_read_sexpr(f, label)`: one datum, with `pending` the `#n=` label to bind to it. */
    method DoReadSexpr(pending: Option<Value>) returns (r: Result<Value>)
      requires Valid() && Unbound(Snapshot(), pending)
      modifies this, buf
      ensures Valid() && Step(r, Snapshot()) == Parser.DoRead(old(Snapshot()), hooks, pending)
      decreases Measure(Snapshot()), 3
    {
      var t := Peek();
      if t.Err? {
        return Err(t.error);
      }
      Take();
      if t.value == TokNone {
        return Ok(Nil);
      }
      r := Dispatch(pending, t.value);
    }

    /** The `switch` of `do_read_sexpr` on the token `t` just taken. */
    method Dispatch(pending: Option<Value>, t: TokKind) returns (r: Result<Value>)
      requires Valid() && Unbound(Snapshot(), pending) && tok == TokNone
      modifies this, buf
      ensures Valid()
      ensures Step(r, Snapshot()) == Parser.Dispatch(old(Snapshot()), hooks, pending, t, old(tokval))
      decreases Measure(Snapshot()), 15
    {
      match Immediate(t, tokval)
      case Some(res) => r := res;
      case None => r := Nested(pending, t);
    }

    /** The cases of the `switch` that read a datum inside the one being built. */
    method Nested(pending: Option<Value>, t: TokKind) returns (r: Result<Value>)
      requires Valid() && Unbound(Snapshot(), pending) && tok == TokNone
      modifies this, buf
      ensures Valid()
      ensures Step(r, Snapshot()) == Parser.Nested(old(Snapshot()), hooks, pending, t, old(tokval))
      decreases Measure(Snapshot()), 14
    {
      match SugarHead(t)
      case Some(head) => r := QuoteForm(pending, head);
      case None => r := Reference(pending, t);
    }

    /** Back-references and gensyms. */
    method Reference(pending: Option<Value>, t: TokKind) returns (r: Result<Value>)
      requires Valid() && Unbound(Snapshot(), pending) && tok == TokNone
      modifies this, buf
      ensures Valid()
      ensures Step(r, Snapshot()) == Parser.Reference(old(Snapshot()), hooks, pending, t, old(tokval))
      decreases Measure(Snapshot()), 13
    {
      match t
      case TokBackref => r := BackrefForm(tokval);
      case TokGensym => r := GensymForm(tokval);
      case _ => r := Literal(pending, t);
    }

    /** String literals and `#'`. */
    method Literal(pending: Option<Value>, t: TokKind) returns (r: Result<Value>)
      requires Valid() && Unbound(Snapshot(), pending) && tok == TokNone
      modifies this, buf
      ensures Valid()
      ensures Step(r, Snapshot()) == Parser.Literal(old(Snapshot()), hooks, pending, t, old(tokval))
      decreases Measure(Snapshot()), 12
    {
      match t
      case TokDoubleQuote => r := StringForm();
      case TokSharpQuote => r := DoReadSexpr(pending);
      case _ => r := Compound(pending, t);
    }

    /** `#.`, `#name(...)` and labelled data. */
    method Compound(pending: Option<Value>, t: TokKind) returns (r: Result<Value>)
      requires Valid() && Unbound(Snapshot(), pending) && tok == TokNone
      modifies this, buf
      ensures Valid()
      ensures Step(r, Snapshot()) == Parser.Compound(old(Snapshot()), hooks, pending, t, old(tokval))
      decreases Measure(Snapshot()), 11
    {
      match t
      case TokSharpDot => r := SharpDotForm();
      case TokSharpSym => r := SharpSymForm(tokval);
      case TokLabel => r := LabelForm(tokval);
      case _ => r := Aggregate(pending, t);
    }

    /** Lists and vectors. */
    method Aggregate(pending: Option<Value>, t: TokKind) returns (r: Result<Value>)
      requires Valid() && Unbound(Snapshot(), pending) && tok == TokNone
      modifies this, buf
      ensures Valid()
      ensures Step(r, Snapshot()) == Parser.Aggregate(old(Snapshot()), hooks, pending, t)
      decreases Measure(Snapshot()), 10
    {
      match t
      case TokOpen => r := ReadList(pending);
      case TokOpenB => r := ReadVector(pending, TokCloseB);
      case TokSharpOpen => r := ReadVector(pending, TokClose);
      case _ => r := Ok(Nil);
    }

    /** The `listwith` code: `(head . (NIL . NIL))` reserved at once, the label bound to the
        first cons, and the datum read into the car of the second. */
    method QuoteForm(pending: Option<Value>, head: string) returns (r: Result<Value>)
      requires Valid() && Unbound(Snapshot(), pending)
      modifies this, buf
      ensures Valid() && Step(r, Snapshot()) == Parser.QuoteForm(old(Snapshot()), hooks, pending, head)
      decreases Measure(Snapshot()), 4
    {
      var a := |heap|;
      heap := heap + [Cons(Sym(head), Ref(a + 1)), Cons(Nil, Nil)];
      if pending.Some? {
        session := session.(backrefs := session.backrefs[pending.value := Ref(a)]);
      }
      var x := DoReadSexpr(None);
      if x.Err? {
        return Err(x.error);
      }
      heap := SetCar(heap, Ref(a + 1), x.value);
      return Ok(Ref(a));
    }

    /** `#n=`: refuse a label already bound, read the datum with the label pending, bind. */
    method LabelForm(n: Value) returns (r: Result<Value>)
      requires Valid()
      modifies this, buf
      ensures Valid() && Step(r, Snapshot()) == Parser.LabelForm(old(Snapshot()), hooks, n)
      decreases Measure(Snapshot()), 4
    {
      if n in session.backrefs {
        return Err(LabelRedefined(LabelNumber(n)));
      }
      r := DoReadSexpr(Some(n));
      if r.Ok? {
        session := session.(backrefs := session.backrefs[n := r.value]);
      }
    }

    /** `"..."`: read a string literal. */
    method StringForm() returns (r: Result<Value>)
      requires Valid() && tok == TokNone
      modifies this, buf
      ensures Valid() && Step(r, Snapshot()) == Parser.StringForm(old(Snapshot()))
    {
      var q := ReadString();
      if q.Err? {
        return Err(q.error);
      }
      return Ok(Str(q.value));
    }

    /** `#n#`: look the label up. */
    method BackrefForm(n: Value) returns (r: Result<Value>)
      requires Valid()
      ensures Step(r, Snapshot()) == Parser.BackrefForm(Snapshot(), n)
    {
      if n in session.backrefs {
        return Ok(session.backrefs[n]);
      }
      return Err(UndefinedLabel(LabelNumber(n)));
    }

    /** `#:n`: the gensym already made for `n` in this session, or a new one. */
    method GensymForm(n: Value) returns (r: Result<Value>)
      requires Valid()
      modifies this
      ensures Valid() && Step(r, Snapshot()) == Parser.GensymForm(old(Snapshot()), n)
    {
      if n !in session.gensyms {
        session := session.(gensyms := session.gensyms[n := GenSym(gensymCount)]);
        gensymCount := gensymCount + 1;
      }
      return Ok(session.gensyms[n]);
    }

    /** `#.x`: read `x`, then evaluate it. */
    method SharpDotForm() returns (r: Result<Value>)
      requires Valid()
      modifies this, buf
      ensures Valid() && Step(r, Snapshot()) == Parser.SharpDotForm(old(Snapshot()), hooks)
      decreases Measure(Snapshot()), 4
    {
      var x := DoReadSexpr(None);
      if x.Err? {
        return x;
      }
      var v := hooks.eval(heap, x.value);
      if v.None? {
        return Err(EvaluationFailed);
      }
      return Ok(v.value);
    }

    /** `#name(args)`: read the arguments as a list, then apply the constructor. */
    method SharpSymForm(name: Value) returns (r: Result<Value>)
      requires Valid()
      modifies this, buf
      ensures Valid() && Step(r, Snapshot()) == Parser.SharpSymForm(old(Snapshot()), hooks, name)
      decreases Measure(Snapshot()), 9
    {
      var args := ReadList(None);
      if args.Err? {
        return args;
      }
      var v := hooks.apply(heap, name, args.value);
      if v.None? {
        return Err(EvaluationFailed);
      }
      return Ok(v.value);
    }

    /** `read_sexpr`: a fresh session for one datum, the previous one put back afterwards. */
    method ReadSexpr() returns (r: Result<Value>)
      requires Valid()
      modifies this, buf
      ensures Valid() && Step(r, Snapshot()) == Parser.ReadSexpr(old(Snapshot()), hooks)
    {
      var prev := session;
      session := EmptySession;
      r := DoReadSexpr(None);
      if r.Ok? {
        session := prev;
      }
    }

    /** `read_list`, after the opening parenthesis: `pc` is the last cons so far (`Nil`
        before the first), `first` the head of the list. */
    method ReadList(pending: Option<Value>) returns (r: Result<Value>)
      requires Valid() && Unbound(Snapshot(), pending)
      modifies this, buf
      ensures Valid() && Step(r, Snapshot()) == Parser.ReadList(old(Snapshot()), hooks, pending)
      decreases Measure(Snapshot()), 8
    {
      ghost var st0 := Snapshot();
      var t := Peek();
      if t.Err? {
        return Err(t.error);
      }
      var tt := t.value;
      var pc, first := Nil, Nil;
      ghost var goal := ReadListLoop(Snapshot(), hooks, tt, pc, first, pending);
      while tt != TokClose
        invariant Valid() && tok == tt && (tt == TokNone ==> eof)
        invariant Measure(Snapshot()) <= Measure(st0)
        invariant pc.Nil? || pc.Ref?
        invariant pc.Nil? ==> first.Nil? && Unbound(Snapshot(), pending)
        invariant pc.Ref? ==> ListSoFar(Snapshot(), pc, first)
        invariant ReadListLoop(Snapshot(), hooks, tt, pc, first, if pc.Nil? then pending else None) == goal
        decreases Measure(Snapshot())
      {
        if eof {
          return Err(UnexpectedEof);
        }
        var a := |heap|;
        var next;
        next, first := ListElement(pc, first, if pc.Nil? then pending else None);
        if next.Err? {
          return Err(next.error);
        }
        pc, tt := Ref(a), next.value;
      }
      Take();
      return Ok(first);
    }

    /** One pass of the `read_list` loop: a new cons linked after `pc` (or made the head,
        with the label bound to it), its car read, then the next token peeked; after a dot
        the tail is read and the closing parenthesis required. `next` is the token that
        decides whether the loop goes on. */
    method ListElement(pc: Value, first: Value, pending: Option<Value>) returns (next: Result<TokKind>, first': Value)
      requires Valid() && tok != TokNone && !eof
      requires pc.Nil? || pc.Ref?
      requires pc.Nil? ==> first.Nil? && Unbound(Snapshot(), pending)
      requires pc.Ref? ==> ListSoFar(Snapshot(), pc, first)
      modifies this, buf
      ensures Valid()
      ensures next.Err? ==> ListCell(old(Snapshot()), hooks, pc, first, pending) == Step(Err(next.error), Snapshot())
      ensures next.Ok? ==>
        && Measure(Snapshot()) < Measure(old(Snapshot()))
        && tok == next.value && (next.value == TokNone ==> eof)
        && ListSoFar(Snapshot(), Ref(old(|heap|)), first')
        && ListCell(old(Snapshot()), hooks, pc, first, pending)
           == ReadListLoop(Snapshot(), hooks, next.value, Ref(old(|heap|)), first', None)
      decreases Measure(Snapshot()), 4
    {
      ghost var s0 := Snapshot();
      var a := |heap|;
      heap := heap + [Cons(Nil, Nil)];
      first' := first;
      if pc.Ref? {
        heap := SetCdr(heap, pc, Ref(a));
      } else {
        first' := Ref(a);
        if pending.Some? {
          session := session.(backrefs := session.backrefs[pending.value := first']);
        }
      }
      ghost var s1 := Snapshot();
      LinkFacts(s0, s1, pc, first, pending);
      var c := DoReadSexpr(None);
      if c.Err? {
        return Err(c.error), first';
      }
      ghost var x := Snapshot();
      heap := SetCar(heap, Ref(a), c.value);
      CellFacts(s0, s1, x, Snapshot(), c.value, first, first', pending);
      ghost var s2 := Snapshot();
      assert ListCell(s0, hooks, pc, first, pending) == Parser.ListTail(s2, hooks, a, first');
      next := ListTail(a, first');
    }

    /** What follows an element of a list: a dotted tail and `)`, or the next token. */
    method ListTail(a: nat, first: Value) returns (next: Result<TokKind>)
      requires Valid() && ListSoFar(Snapshot(), Ref(a), first)
      modifies this, buf
      ensures Valid()
      ensures next.Err? ==> Parser.ListTail(old(Snapshot()), hooks, a, first) == Step(Err(next.error), Snapshot())
      ensures next.Ok? ==>
        && Measure(Snapshot()) <= Measure(old(Snapshot()))
        && tok == next.value && (next.value == TokNone ==> eof)
        && ListSoFar(Snapshot(), Ref(a), first)
        && Parser.ListTail(old(Snapshot()), hooks, a, first)
           == ReadListLoop(Snapshot(), hooks, next.value, Ref(a), first, None)
      decreases Measure(Snapshot()), 6
    {
      next := Peek();
      if next.Err? || next.value != TokDot {
        return;
      }
      Take();
      next := ListDot(a, first);
    }

    /** The dotted tail: one datum stored as the last cdr, then `)` required. */
    method ListDot(a: nat, first: Value) returns (next: Result<TokKind>)
      requires Valid() && ListSoFar(Snapshot(), Ref(a), first)
      modifies this, buf
      ensures Valid()
      ensures next.Err? ==> Parser.ListDot(old(Snapshot()), hooks, a, first) == Step(Err(next.error), Snapshot())
      ensures next.Ok? ==>
        && next.value == TokClose && tok == TokClose
        && Measure(Snapshot()) <= Measure(old(Snapshot()))
        && ListSoFar(Snapshot(), Ref(a), first)
        && Parser.ListDot(old(Snapshot()), hooks, a, first) == Step(Ok(first), ReaderState.Take(Snapshot()))
      decreases Measure(Snapshot()), 4
    {
      ghost var s2 := Snapshot();
      var d := DoReadSexpr(None);
      if d.Err? {
        return Err(d.error);
      }
      ghost var y := Snapshot();
      heap := SetCdr(heap, Ref(a), d.value);
      DotFacts(s2, y, Snapshot(), d.value, a, first);
      next := Peek();
      if next.Err? {
        return;
      }
      if eof {
        return Err(UnexpectedEof);
      }
      if next.value != TokClose {
        return Err(ExpectedClose);
      }
    }

    /** `read_vector`, after the opening bracket: `i` elements so far in the vector at `a`;
        only `closer` ends it. */
    method ReadVector(pending: Option<Value>, closer: TokKind) returns (r: Result<Value>)
      requires Valid() && Unbound(Snapshot(), pending)
      modifies this, buf
      ensures Valid() && Step(r, Snapshot()) == Parser.ReadVector(old(Snapshot()), hooks, pending, closer)
      decreases Measure(Snapshot()), 8
    {
      ghost var st0 := Snapshot();
      var a := AllocVector(pending);
      ghost var s1 := Snapshot();
      var t := VectorNext(closer, a, 0);
      assert Parser.ReadVector(st0, hooks, pending, closer) == Parser.VectorNext(s1, hooks, closer, a, 0);
      if t.Err? {
        return Err(t.error);
      }
      r := VectorLoop(closer, a, t.value);
    }

    /** The `while` loop of `read_vector`, from its first test to the closer. */
    method VectorLoop(closer: TokKind, a: nat, t0: TokKind) returns (r: Result<Value>)
      requires Valid() && tok == t0 && (t0 == TokNone ==> eof) && VectorSoFar(Snapshot(), a, 0)
      modifies this, buf
      ensures Valid() && Step(r, Snapshot()) == ReadVectorLoop(old(Snapshot()), hooks, t0, closer, a, 0)
      decreases Measure(Snapshot()), 7
    {
      ghost var st0 := Snapshot();
      var i: nat := 0;
      var tt := t0;
      while tt != closer
        invariant Valid() && tok == tt && (tt == TokNone ==> eof)
        invariant Measure(Snapshot()) <= Measure(st0)
        invariant VectorSoFar(Snapshot(), a, i)
        invariant ReadVectorLoop(Snapshot(), hooks, tt, closer, a, i) == ReadVectorLoop(st0, hooks, t0, closer, a, 0)
        decreases Measure(Snapshot())
      {
        if eof {
          return Err(UnexpectedEof);
        }
        var t := VectorElement(closer, a, i);
        if t.Err? {
          return Err(t.error);
        }
        i, tt := i + 1, t.value;
      }
      FinishVector(a, i);
      return Ok(Ref(a));
    }

    /** The closer taken and the vector trimmed to the `i` elements read. */
    method FinishVector(a: nat, i: nat)
      requires Valid() && VectorSoFar(Snapshot(), a, i)
      modifies this
      ensures Valid()
      ensures Snapshot() == ReaderState.Take(old(Snapshot())).(heap := old(heap)[a := Vector(old(heap)[a].elts[..i])])
    {
      Take();
      heap := heap[a := Vector(heap[a].elts[..i])];
    }

    /** `alloc_vector(4, 1)` and the binding of the pending label to the new vector. */
    method AllocVector(pending: Option<Value>) returns (a: nat)
      requires Valid() && Unbound(Snapshot(), pending)
      modifies this
      ensures Valid() && a == old(|heap|) && Extends(old(Snapshot()), Snapshot())
      ensures Snapshot() == Bind(old(Snapshot()).(heap := old(heap) + [Vector(FreshSlots)]), pending, Ref(a))
    {
      BindFresh(Snapshot(), [Vector(FreshSlots)], pending, Ref(|heap|));
      a := |heap|;
      heap := heap + [Vector(FreshSlots)];
      if pending.Some? {
        session := session.(backrefs := session.backrefs[pending.value := Ref(a)]);
      }
    }


    /** One pass of the `read_vector` loop: read an element into slot `i`, peek at the
        next token. */
    method VectorElement(closer: TokKind, a: nat, i: nat) returns (next: Result<TokKind>)
      requires Valid() && tok != TokNone && VectorSoFar(Snapshot(), a, i)
      modifies this, buf
      ensures Valid()
      ensures next.Err? ==>
        Parser.VectorElement(old(Snapshot()), hooks, closer, a, i) == Step(Err(next.error), Snapshot())
      ensures next.Ok? ==>
        && Measure(Snapshot()) < Measure(old(Snapshot()))
        && tok == next.value && (next.value == TokNone ==> eof)
        && VectorSoFar(Snapshot(), a, i + 1)
        && Parser.VectorElement(old(Snapshot()), hooks, closer, a, i)
           == ReadVectorLoop(Snapshot(), hooks, next.value, closer, a, i + 1)
      decreases Measure(Snapshot()), 5
    {
      var x := ReadElement(a, i);
      if x.Err? {
        return Err(x.error);
      }
      next := VectorNext(closer, a, i + 1);
    }

    /** Grow the vector when full, read a datum, store it in slot `i`. */
    method ReadElement(a: nat, i: nat) returns (x: Result<Value>)
      requires Valid() && tok != TokNone && VectorSoFar(Snapshot(), a, i)
      modifies this, buf
      ensures Valid() && Step(x, Snapshot()) == Parser.ReadElement(old(Snapshot()), hooks, a, i)
      decreases Measure(Snapshot()), 4
    {
      ghost var s0 := Snapshot();
      if i >= |heap[a].elts| {
        heap := Parser.Grow(heap, a);
      }
      ghost var s1 := Snapshot();
      assert s1.heap[..a] == s0.heap[..a];
      x := DoReadSexpr(None);
      if x.Err? {
        return;
      }
      heap := heap[a := Vector(heap[a].elts[i := x.value])];
    }

    /** The `peek` that ends one pass of the `read_vector` loop. */
    method VectorNext(closer: TokKind, a: nat, i: nat) returns (next: Result<TokKind>)
      requires Valid() && VectorSoFar(Snapshot(), a, i)
      modifies this, buf
      ensures Valid()
      ensures next.Err? ==>
        Parser.VectorNext(old(Snapshot()), hooks, closer, a, i) == Step(Err(next.error), Snapshot())
      ensures next.Ok? ==>
        && Measure(Snapshot()) <= Measure(old(Snapshot()))
        && tok == next.value && (next.value == TokNone ==> eof)
        && VectorSoFar(Snapshot(), a, i)
        && Parser.VectorNext(old(Snapshot()), hooks, closer, a, i)
           == ReadVectorLoop(Snapshot(), hooks, next.value, closer, a, i)
    {
      next := Peek();
    }

    /** One `\\` step of the token loop, spelt out. */
    static lemma EscapeStep(st: State, digits: bool, escaped: bool, issym: bool, text: string)
      requires Wf(st) && |text| <= MaxTokenLength && (escaped ==> issym)
      ensures var (quoted, s1) := ReaderState.Getc(st);
        ReadTokenLoop(SymChar, st, Char('\\'), digits, escaped, issym, text)
        == if quoted.Eof? then Step(Ok(Scanned(text, true)), s1)
           else if |text| + 1 > MaxTokenLength then Step(Err(TokenTooLong), s1)
           else ReadTokenLoop(SymChar, ReaderState.Getc(s1).1, ReaderState.Getc(s1).0,
                              digits, escaped, true, text + [quoted.c])
    {
    }

    /** The `terminate` label of `read_token`: the NUL after the text. */
    method Terminate(issym: bool, i: nat) returns (r: Result<bool>, n: nat)
      requires Valid() && i <= MaxTokenLength
      modifies buf
      ensures r == Ok(issym) && n == i && buf[..n] == old(buf[..i]) && buf[n] == '\0'
    {
      buf[i] := '\0';
      return Ok(issym), i;
    }
  }
}
