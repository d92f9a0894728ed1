/** Properties of the lexer: the token cache, the token-length limit, escapes forcing
    symbols wherever they occur, the dot token, and the stall the C `symchar` causes on a NUL byte. */
module LexerFacts {
  import opened Errors
  import opened Chars
  import opened Numbers
  import opened ReaderState
  import opened Lexer

  /** While a token is cached, peeking again changes nothing and returns it again. */
  lemma PeekIdempotent(st: State, h: Hooks)
    requires Wf(st)
    requires Peek(st, h).res.Ok?
    ensures Peek(Peek(st, h).st, h) == Peek(st, h)
  {
    var r := Peek(st, h);
    if r.res.value == TokNone {
      var (ch, s1) := Getc(r.st);
      assert ch.Eof? && s1 == r.st;
    }
  }

  /** Only `take` clears the cache: after it, the next peek lexes afresh from the cursor. */
  lemma TakeThenPeekLexes(st: State, h: Hooks)
    requires Wf(st) && st.tok != TokNone
    ensures Peek(st, h) == Step(Ok(st.tok), st)
    ensures Peek(Take(st), h) == Peek(st.(tok := TokNone), h)
  {
  }

  /** `skip_line`: no newline before where it stops, which is just past a newline or the
      end of the input. */
  lemma {:induction false} SkipLineStops(st: State)
    requires Wf(st)
    ensures var (nl, s) := SkipLine(st);
      && (forall k :: st.pos <= k < (if nl then s.pos - 1 else |st.input|) ==> st.input[k] != '\n')
      && (nl ==> s.pos > st.pos && st.input[s.pos - 1] == '\n')
      && (!nl ==> s.pos == |st.input|)
    decreases |st.input| - st.pos
  {
    var (ch, s1) := Getc(st);
    if ch.Char? && ch.c != '\n' {
      SkipLineStops(s1);
    }
  }

  /** Position `k` lies in a `;` comment that starts at or after `lo`. */
  predicate InComment(s: string, lo: nat, k: nat)
    requires k < |s|
  {
    exists j :: lo <= j <= k && s[j] == ';' && forall m :: j <= m < k ==> s[m] != '\n'
  }

  /** What `nextchar` may pass over: white space and comment text. */
  predicate Blank(s: string, lo: nat, k: nat)
    requires k < |s|
  {
    IsSpace(s[k]) || InComment(s, lo, k)
  }

  predicate AllBlank(s: string, lo: nat, hi: nat)
    requires hi <= |s|
  {
    forall k :: lo <= k < hi ==> Blank(s, lo, k)
  }

  /** Blank stretches join. */
  lemma BlankJoin(s: string, lo: nat, mid: nat, hi: nat)
    requires lo <= mid <= hi <= |s|
    requires AllBlank(s, lo, mid) && AllBlank(s, mid, hi)
    ensures AllBlank(s, lo, hi)
  {
    forall k | mid <= k < hi ensures Blank(s, lo, k) {
      assert Blank(s, mid, k);
      if !IsSpace(s[k]) {
        var j :| mid <= j <= k && s[j] == ';' && forall m :: j <= m < k ==> s[m] != '\n';
      }
    }
  }

  /** A comment starting before `mid` cannot reach past the end of a line at `mid - 1`, and
      neither can one starting at a blank that is not `;`. */
  lemma CommentEnds(s: string, lo: nat, mid: nat, q: nat)
    requires lo < mid <= q < |s| && !InComment(s, mid, q)
    requires s[mid - 1] == '\n' || (mid == lo + 1 && s[lo] != ';')
    ensures !InComment(s, lo, q)
  {
    forall j | lo <= j < mid && s[j] == ';' ensures exists m :: j <= m < q && s[m] == '\n' {
      assert s[mid - 1] == '\n';
    }
  }

  /** `s` is where a scan for the first non-blank character from `lo` may stop: past
      only blanks, on a character not in a comment, or at the end of the input. */
  predicate StopsOnFirst(input: string, lo: nat, s: State)
  {
    && s.pos <= |input| && (s.eof ==> s.pos == |input|) && (!s.eof ==> lo < s.pos)
    && AllBlank(input, lo, if s.eof then |input| else s.pos - 1)
    && (!s.eof ==> !InComment(input, lo, s.pos - 1))
  }

  /** The step over a white-space character. */
  lemma SpaceStep(input: string, lo: nat, s: State)
    requires lo < |input| && IsSpace(input[lo]) && StopsOnFirst(input, lo + 1, s)
    ensures StopsOnFirst(input, lo, s)
  {
    assert AllBlank(input, lo, lo + 1);
    BlankJoin(input, lo, lo + 1, if s.eof then |input| else s.pos - 1);
    if !s.eof {
      CommentEnds(input, lo, lo + 1, s.pos - 1);
    }
  }

  /** The step over a comment that ends with a newline at `nl`. */
  lemma CommentStep(input: string, lo: nat, nl: nat, s: State)
    requires lo < nl < |input| && input[lo] == ';' && input[nl] == '\n'
    requires forall k :: lo < k < nl ==> input[k] != '\n'
    requires StopsOnFirst(input, nl + 1, s)
    ensures StopsOnFirst(input, lo, s)
  {
    forall k | lo <= k < nl ensures InComment(input, lo, k) {
    }
    assert AllBlank(input, lo, nl + 1);
    BlankJoin(input, lo, nl + 1, if s.eof then |input| else s.pos - 1);
    if !s.eof {
      CommentEnds(input, lo, nl + 1, s.pos - 1);
    }
  }

  /** A comment that runs to the end of the input. */
  lemma CommentToEnd(input: string, lo: nat)
    requires lo < |input| && input[lo] == ';'
    requires forall k :: lo < k < |input| ==> input[k] != '\n'
    ensures AllBlank(input, lo, |input|)
  {
    forall k | lo <= k < |input| ensures InComment(input, lo, k) {
    }
  }

  /** `nextchar` returns the FIRST character that is neither white space nor in a comment:
      everything it passed over is blank, and what it returns is not in a comment. At the
      end of the input, all the rest was blank. */
  lemma {:induction false} NextCharFirst(st: State)
    requires Wf(st)
    ensures StopsOnFirst(st.input, st.pos, NextChar(st).1)
    decreases |st.input| - st.pos, 1
  {
    var input := st.input;
    var (ch, s1) := Getc(st);
    if ch.Char? && ch.c == ';' {
      CommentFirst(st);
    } else if ch.Char? && IsSpace(ch.c) {
      assert NextChar(st) == NextChar(s1);
      NextCharFirst(s1);
      SpaceStep(input, st.pos, NextChar(s1).1);
    } else if ch.Char? {
      assert NextChar(st).1 == s1;
    }
  }

  /** `NextCharFirst` when the next character opens a comment. */
  lemma {:induction false} CommentFirst(st: State)
    requires Wf(st) && st.pos < |st.input| && st.input[st.pos] == ';'
    ensures StopsOnFirst(st.input, st.pos, NextChar(st).1)
    decreases |st.input| - st.pos, 0
  {
    var (ch, s1) := Getc(st);
    var (nl, s2) := SkipLine(s1);
    SkipLineStops(s1);
    if nl {
      assert NextChar(st) == NextChar(s2);
      NextCharFirst(s2);
      CommentStep(st.input, st.pos, s2.pos - 1, NextChar(s2).1);
    } else {
      CommentToEnd(st.input, st.pos);
    }
  }

  /** A plain run of constituents becomes the token text, unescaped, and the cursor stops
      on the first character after the run (pushed back when one was read). */
  lemma {:induction false} PlainRun(st: State, c: char, text: string, j: nat)
    requires Wf(st) && !st.eof && SymChar(c) && st.pos <= j <= |st.input|
    requires |text| + 1 + (j - st.pos) <= MaxTokenLength
    requires forall k :: st.pos <= k < j ==> SymChar(st.input[k])
    requires j < |st.input| ==> !SymChar(st.input[j]) && st.input[j] != '|' && st.input[j] != '\\'
    ensures ReadTokenLoop(SymChar, st, Char(c), false, false, false, text).res
            == Ok(Scanned(text + [c] + st.input[st.pos..j], false))
    ensures ReadTokenLoop(SymChar, st, Char(c), false, false, false, text).st.pos == j
    decreases j - st.pos
  {
    assert c != '|' && c != '\\' by { assert Special == ['(', ')', '[', ']', '\'', '"', ';', '`', ',', '\\', '|']; }
    var (next, s1) := Getc(st);
    assert ReadTokenLoop(SymChar, st, Char(c), false, false, false, text)
        == ReadTokenLoop(SymChar, s1, next, false, false, false, text + [c]);
    if st.pos == j {
      assert text + [c] + st.input[st.pos..j] == text + [c];
      assert ReadTokenLoop(SymChar, s1, next, false, false, false, text + [c]).res == Ok(Scanned(text + [c], false));
    } else {
      PlainRun(s1, next.c, text + [c], j);
      assert text + [c] + [next.c] + s1.input[s1.pos..j] == text + [c] + st.input[st.pos..j];
    }
  }

  /** `accumchar` refuses the 255th character: a run of 255 constituents is "token too long". */
  lemma {:induction false} LongRunFails(st: State, c: char, text: string)
    requires Wf(st) && SymChar(c) && |text| <= MaxTokenLength
    requires st.pos + (MaxTokenLength - |text|) <= |st.input|
    requires forall k :: st.pos <= k < st.pos + (MaxTokenLength - |text|) ==> SymChar(st.input[k])
    ensures ReadTokenLoop(SymChar, st, Char(c), false, false, false, text).res == Err(TokenTooLong)
    decreases MaxTokenLength - |text|
  {
    assert c != '|' && c != '\\' by { assert Special == ['(', ')', '[', ']', '\'', '"', ';', '`', ',', '\\', '|']; }
    if |text| + 1 <= MaxTokenLength {
      var (next, s1) := Getc(st);
      assert next == Char(st.input[st.pos]);
      LongRunFails(s1, next.c, text + [c]);
    }
  }

  /** The token text `result` is `text` followed by the characters `taken`, or, when `lost`
      is allowed, by all of them but a last 0xFF: the character that ended the token and
      whose push-back failed. */
  predicate Took(text: string, taken: string, lost: bool, result: string)
  {
    || result == text + taken
    || (lost && |taken| > 0 && taken[|taken| - 1] == EofChar && result == text + taken[..|taken| - 1])
  }

  /** A non-empty slice is its first character followed by the rest. */
  lemma SliceFront(s: string, i: nat, j: nat)
    requires i < j <= |s|
    ensures s[i..j] == [s[i]] + s[i + 1..j]
  {
  }

  /** Taking one more character in front keeps `Took`. */
  lemma TookOneMore(text: string, c: char, rest: string, lost: bool, result: string)
    requires Took(text + [c], rest, lost, result)
    ensures Took(text, [c] + rest, lost, result)
  {
    if result != text + [c] + rest {
      assert ([c] + rest)[..|rest|] == [c] + rest[..|rest| - 1];
    }
    assert text + [c] + rest == text + ([c] + rest);
  }

  /** A token the loop returns as not a symbol saw no escape: not in the current
      character, not in any input character it consumed, and it started unescaped. */
  lemma {:induction false} UnescapedLoop(sym: char -> bool, st: State, cur: Ch, digits: bool,
                                         escaped: bool, issym: bool, text: string)
    requires Wf(st) && |text| <= MaxTokenLength && (escaped ==> issym)
    ensures var r := ReadTokenLoop(sym, st, cur, digits, escaped, issym, text);
      r.res.Ok? && !r.res.value.issym ==>
        && !issym && (cur.Char? ==> cur.c != '|' && cur.c != '\\')
        && (forall k :: st.pos <= k < r.st.pos ==> st.input[k] != '|' && st.input[k] != '\\')
    decreases |st.input| - st.pos, if cur.Char? then 1 else 0
  {
    TokenLoopText(sym, st, cur, digits, escaped, issym, text);
    match cur
    case Eof =>
    case Char(c) =>
      if c == '|' {
        var (next, s1) := Getc(st);
        TokenLoopText(sym, s1, next, digits, !escaped, true, text);
      } else if c == '\\' {
        var (quoted, s1) := Getc(st);
        if quoted.Char? && |text| + 1 <= MaxTokenLength {
          var (next, s2) := Getc(s1);
          TokenLoopText(sym, s2, next, digits, escaped, true, text + [quoted.c]);
        }
      } else if !escaped && !(sym(c) && (!digits || IsDigit(c))) {
      } else if |text| + 1 <= MaxTokenLength {
        var (next, s1) := Getc(st);
        UnescapedLoop(sym, s1, next, digits, escaped, issym, text + [c]);
      }
  }

  /** The text of a token the loop returns as not a symbol is exactly the characters it
      took, but for a 0xFF that ends the token: that one is consumed, since its push-back
      fails, and is not in the text. */
  lemma {:induction false} UnescapedText(sym: char -> bool, st: State, cur: Ch, digits: bool,
                                         escaped: bool, issym: bool, text: string)
    requires Wf(st) && |text| <= MaxTokenLength && (escaped ==> issym)
    requires cur.Char? ==> st.pos > 0
    ensures var r := ReadTokenLoop(sym, st, cur, digits, escaped, issym, text);
      r.res.Ok? && !r.res.value.issym ==>
        && (r.st.pos < st.pos ==> r.res.value.text == text)
        && (r.st.pos >= st.pos ==> Took(text, (if cur.Char? then [cur.c] else []) + st.input[st.pos..r.st.pos],
                                        StopsToken(sym, EofChar, digits, false), r.res.value.text))
    decreases |st.input| - st.pos, if cur.Char? then 1 else 0
  {
    var r := ReadTokenLoop(sym, st, cur, digits, escaped, issym, text);
    match cur
    case Eof =>
      assert st.input[st.pos..r.st.pos] == [];
    case Char(c) =>
      if c == '|' || c == '\\' {
        UnescapedLoop(sym, st, cur, digits, escaped, issym, text);
      } else if !escaped && !(sym(c) && (!digits || IsDigit(c))) {
      } else if |text| + 1 <= MaxTokenLength {
        TakenText(sym, st, c, digits, escaped, issym, text);
      }
  }

  /** `UnescapedText` when the loop takes the current character `c` into the text. */
  lemma {:induction false} TakenText(sym: char -> bool, st: State, c: char, digits: bool,
                                     escaped: bool, issym: bool, text: string)
    requires Wf(st) && |text| + 1 <= MaxTokenLength && (escaped ==> issym) && st.pos > 0
    requires c != '|' && c != '\\' && !StopsToken(sym, c, digits, escaped)
    ensures var r := ReadTokenLoop(sym, st, Char(c), digits, escaped, issym, text);
      r.res.Ok? && !r.res.value.issym ==>
        && r.st.pos >= st.pos
        && Took(text, [c] + st.input[st.pos..r.st.pos], StopsToken(sym, EofChar, digits, false), r.res.value.text)
    decreases |st.input| - st.pos, 0
  {
    var (next, s1) := Getc(st);
    var r := ReadTokenLoop(sym, s1, next, digits, escaped, issym, text + [c]);
    assert r == ReadTokenLoop(sym, st, Char(c), digits, escaped, issym, text);
    if next.Eof? {
      assert st.input[st.pos..r.st.pos] == [];
    } else if r.res.Ok? && !r.res.value.issym {
      UnescapedText(sym, s1, next, digits, escaped, issym, text + [c]);
      TokenLoopCursor(sym, s1, next, digits, escaped, issym, text + [c]);
      TookFromRest(st.input, st.pos, r.st.pos, c, text, StopsToken(sym, EofChar, digits, false), r.res.value.text);
    }
  }

  /** The text relation for the characters from `p` on follows from the one for the
      characters from `p + 1` on, once the character at `p` is taken; a cursor back at `p`
      means nothing more was taken. */
  lemma TookFromRest(s: string, p: nat, e: nat, c: char, text: string, lost: bool, result: string)
    requires p < |s| && p <= e <= |s|
    requires e < p + 1 ==> result == text + [c]
    requires e >= p + 1 ==> Took(text + [c], [s[p]] + s[p + 1..e], lost, result)
    ensures Took(text, [c] + s[p..e], lost, result)
  {
    if e >= p + 1 {
      SliceFront(s, p, e);
      TookOneMore(text, c, [s[p]] + s[p + 1..e], lost, result);
    } else {
      assert s[p..e] == [];
      assert text + ([c] + s[p..e]) == text + [c];
    }
  }

  /** An escape anywhere in a token forces a symbol: when the first character or any input
      character `read_token` consumed is `|` or `\`, the token is a symbol. Otherwise the
      text is the first character followed by exactly the characters consumed, except that in
      digit mode a 0xFF ends the token and its push-back fails: it is consumed but not part of
      the text. As the first character it leaves the text empty and the stream where it was. */
  lemma EscapeForcesSymbol(st: State, c: char, digits: bool)
    requires Wf(st) && st.pos > 0
    ensures var r := ReadToken(st, c, digits);
      && (r.res.Ok? && (c == '|' || c == '\\'
                        || exists k :: st.pos <= k < r.st.pos && (st.input[k] == '|' || st.input[k] == '\\'))
          ==> r.res.value.issym)
      && (digits && c == EofChar ==> r == Step(Ok(Scanned([], false)), st))
      && (r.res.Ok? && !r.res.value.issym && r.st.pos >= st.pos ==>
            Took([], [c] + st.input[st.pos..r.st.pos], digits, r.res.value.text))
  {
    UnescapedLoop(SymChar, st, Char(c), digits, false, false, []);
    UnescapedText(SymChar, st, Char(c), digits, false, false, []);
  }

  const NoHooks := Hooks(_ => FloatScan(0, false), (_, _) => None, (_, _, _) => None)

  /** An unescaped lone `.` is the dot token. */
  lemma LoneDot()
    ensures Peek(Start(" . "), NoHooks).res == Ok(TokDot)
  {
    var st := Start(" . ");
    var (c, s1) := NextChar(st);
    assert c == '.' && s1.pos == 2;
    assert SymChar('.') by {
      assert Special == ['(', ')', '[', ']', '\'', '"', ';', '`', ',', '\\', '|'];
    }
    DotThenSpace(s1);
  }

  /** The token that starts with the `.` of `" . "` ends at the space after it. */
  lemma DotThenSpace(s1: State)
    requires s1 == Start(" . ").(pos := 2)
    ensures ReadToken(s1, '.', false).res == Ok(Scanned(".", false))
  {
    assert !SymChar(' ') by {
      assert Special == ['(', ')', '[', ']', '\'', '"', ';', '`', ',', '\\', '|'];
    }
    var (n, s2) := Getc(s1);
    assert n == Char(' ');
    assert ReadTokenLoop(SymChar, s2, n, false, false, false, ".") == Step(Ok(Scanned(".", false)), Ungetc(s2));
    assert [] + ['.'] == ".";
    assert ReadToken(s1, '.', false) == ReadTokenLoop(SymChar, s2, n, false, false, false, ".");
  }

  /** An escaped dot is the symbol `.`. */
  lemma EscapedDotIsSymbol()
    ensures Peek(Start("|.|"), NoHooks) == Step(Ok(TokSym), Start("|.|").(pos := 3, eof := true, tok := TokSym, tokval := Sym(".")))
  {
    var st := Start("|.|");
    var (c, s1) := NextChar(st);
    assert c == '|' && s1.pos == 1;
    var (n1, s2) := Getc(s1);
    var (n2, s3) := Getc(s2);
    var (n3, s4) := Getc(s3);
    assert n1 == Char('.') && n2 == Char('|') && n3 == Eof;
    assert ReadTokenLoop(SymChar, s4, n3, false, false, true, ".") == Step(Ok(Scanned(".", true)), s4);
    assert ReadTokenLoop(SymChar, s3, n2, false, true, true, ".") == Step(Ok(Scanned(".", true)), s4);
    assert [] + ['.'] == ".";
    assert ReadTokenLoop(SymChar, s2, n1, false, true, true, "") == Step(Ok(Scanned(".", true)), s4);
    assert ReadToken(s1, '|', false) == Step(Ok(Scanned(".", true)), s4);
  }

  /** What a NUL does to the C `symchar`: the token read on it is empty and the cursor is
      back exactly where the peek started, so taking the token and peeking again repeats
      the same step forever. */
  lemma NulStallsAsWritten(st: State)
    requires Wf(st) && st.pos < |st.input| && st.input[st.pos] == '\0'
    ensures NextChar(st) == ('\0', st.(pos := st.pos + 1))
    ensures ReadTokenAsWritten(NextChar(st).1, '\0', false) == Step(Ok(Scanned([], false)), st.(eof := false))
  {
    var s1 := st.(pos := st.pos + 1);
    assert Getc(st) == (Char('\0'), s1);
    assert UngetcChar(s1, '\0') == st.(eof := false);
    assert ReadTokenLoop(SymCharAsWritten, s1, Char('\0'), false, false, false, [])
           == Step(Ok(Scanned([], false)), st.(eof := false));
  }

  /** With NUL a constituent, the same input is consumed: the token holds the NUL. */
  lemma NulIsConsumed(st: State, h: Hooks)
    requires Wf(st) && st.tok == TokNone && st.pos < |st.input| && st.input[st.pos] == '\0'
    ensures Peek(st, h).res.Ok? ==> Peek(st, h).st.pos > st.pos
    ensures ReadToken(NextChar(st).1, '\0', false).st.pos > st.pos
  {
  }
}
