/** Worked examples of `read_sexpr` on short inputs: the quote sugar, a datum that
    refers to itself through its own label, a second dot in a list, and a list cut off
    by the end of the input. The hooks are arbitrary: none of these inputs reaches them. */
module ParserExamples {
  import opened Errors
  import opened Numbers
  import opened ReaderState
  import opened Lexer
  import opened Parser
  import opened TokenFacts

  /** `do_read_sexpr` on a token other than the end of the input: the `switch` on it. */
  lemma DoReadStep(st: State, h: Hooks, pending: Option<Value>)
    requires Wf(st) && Unbound(st, pending)
    requires Peek(st, h).res.Ok? && Peek(st, h).res.value != TokNone
    ensures DoRead(st, h, pending)
            == Dispatch(Take(Peek(st, h).st), h, pending, Peek(st, h).res.value, Peek(st, h).st.tokval)
  {
  }

  /** The `switch` cases that build a compound datum reach `Compound`. */
  lemma DispatchCompound(s: State, h: Hooks, pending: Option<Value>, t: TokKind, v: Value)
    requires Wf(s) && Unbound(s, pending) && s.tok == TokNone && s.tokval == v
    requires t in {TokOpen, TokOpenB, TokSharpOpen, TokLabel, TokSharpDot, TokSharpSym}
    ensures Dispatch(s, h, pending, t, v) == Compound(s, h, pending, t, v)
  {
    assert Dispatch(s, h, pending, t, v) == Nested(s, h, pending, t, v);
    assert Nested(s, h, pending, t, v) == Reference(s, h, pending, t, v);
    assert Reference(s, h, pending, t, v) == Literal(s, h, pending, t, v);
  }

  /** A symbol token just peeked is the datum itself. */
  lemma AtomDatum(st: State, h: Hooks, pending: Option<Value>)
    requires Wf(st) && Unbound(st, pending) && Peek(st, h).res == Ok(TokSym)
    ensures DoRead(st, h, pending) == Step(Ok(Peek(st, h).st.tokval), Take(Peek(st, h).st))
  {
  }

  /** A one-letter symbol after blanks, read as a datum. */
  lemma LetterDatum(st: State, h: Hooks, j: nat)
    requires Wf(st) && st.tok == TokNone && st.pos <= j < |st.input|
    requires forall k :: st.pos <= k < j ==> st.input[k] == ' '
    requires 'a' <= st.input[j] <= 'z' && st.input[j] != 'e'
    requires EndsToken(st.input, j + 1)
    ensures DoRead(st, h, None)
            == Step(Ok(Sym([st.input[j]])), st.(pos := j + 1, eof := j + 1 == |st.input|, tokval := Sym([st.input[j]])))
  {
    LetterToken(st, h, j);
    AtomDatum(st, h, None);
  }

  /** A symbol token already peeked is the datum, and is taken. */
  lemma CachedSymbol(st: State, h: Hooks)
    requires Wf(st) && st.tok == TokSym
    ensures DoRead(st, h, None) == Step(Ok(st.tokval), Take(st))
  {
    AtomDatum(st, h, None);
  }

  /** `#n#` for a bound label is the value bound. */
  lemma BackrefDatum(st: State, h: Hooks, pending: Option<Value>, n: Value)
    requires Wf(st) && Unbound(st, pending) && Peek(st, h).res == Ok(TokBackref)
    requires Peek(st, h).st.tokval == n && n in st.session.backrefs
    ensures DoRead(st, h, pending) == Step(Ok(st.session.backrefs[n]), Take(Peek(st, h).st))
  {
    DoReadStep(st, h, pending);
    BackrefCase(Take(Peek(st, h).st), h, pending, n);
  }

  lemma BackrefCase(s: State, h: Hooks, pending: Option<Value>, n: Value)
    requires Wf(s) && Unbound(s, pending) && s.tok == TokNone && s.tokval == n
    requires n in s.session.backrefs
    ensures Dispatch(s, h, pending, TokBackref, n) == Step(Ok(s.session.backrefs[n]), s)
  {
    assert Dispatch(s, h, pending, TokBackref, n) == Nested(s, h, pending, TokBackref, n);
    assert Nested(s, h, pending, TokBackref, n) == Reference(s, h, pending, TokBackref, n);
  }

  /** `(` starts a list, which receives the pending label. */
  lemma OpenDatum(st: State, h: Hooks, pending: Option<Value>)
    requires Wf(st) && Unbound(st, pending) && Peek(st, h).res == Ok(TokOpen)
    ensures DoRead(st, h, pending) == ReadList(Take(Peek(st, h).st), h, pending)
  {
    var p := Peek(st, h);
    DoReadStep(st, h, pending);
    DispatchCompound(Take(p.st), h, pending, TokOpen, p.st.tokval);
    assert Compound(Take(p.st), h, pending, TokOpen, p.st.tokval) == Aggregate(Take(p.st), h, pending, TokOpen);
  }

  /** `#n=` reads the labelled datum. */
  lemma LabelDatum(st: State, h: Hooks, pending: Option<Value>)
    requires Wf(st) && Unbound(st, pending) && Peek(st, h).res == Ok(TokLabel)
    ensures DoRead(st, h, pending) == LabelForm(Take(Peek(st, h).st), h, Peek(st, h).st.tokval)
  {
    var p := Peek(st, h);
    DoReadStep(st, h, pending);
    DispatchCompound(Take(p.st), h, pending, TokLabel, p.st.tokval);
  }

  /** A label token still cached from an earlier read is keyed on whatever `tokval` holds,
      as the hash table in C is: when that value is not a fixnum (a later token replaced it),
      a second use of the same stale value is a redefinition reported without a number. */
  lemma StaleLabelKey(st: State, h: Hooks, pending: Option<Value>)
    requires Wf(st) && Unbound(st, pending) && st.tok == TokLabel
    ensures DoRead(st, h, pending) == LabelForm(Take(st), h, st.tokval)
    ensures st.tokval in st.session.backrefs && !st.tokval.Fixnum?
            ==> DoRead(st, h, pending) == Step(Err(LabelRedefined(None)), Take(st))
  {
    LabelDatum(st, h, pending);
  }

  /** `'` reads the quote form. */
  lemma QuoteDatum(st: State, h: Hooks, pending: Option<Value>)
    requires Wf(st) && Unbound(st, pending) && Peek(st, h).res == Ok(TokQuote)
    ensures DoRead(st, h, pending) == QuoteForm(Take(Peek(st, h).st), h, pending, QuoteHead)
  {
    var p := Peek(st, h);
    DoReadStep(st, h, pending);
    assert Dispatch(Take(p.st), h, pending, TokQuote, p.st.tokval) == Nested(Take(p.st), h, pending, TokQuote, p.st.tokval);
  }

  /** The quote form without a pending label, once the quoted datum is known. */
  lemma QuoteFormOk(st: State, h: Hooks, head: string, v: Value, s': State)
    requires Wf(st) && st.tok == TokNone
    requires var a := |st.heap|;
      DoRead(st.(heap := st.heap + [Cons(Sym(head), Ref(a + 1)), Cons(Nil, Nil)]), h, None) == Step(Ok(v), s')
    ensures QuoteForm(st, h, None, head)
            == Step(Ok(Ref(|st.heap|)), s'.(heap := SetCar(s'.heap, Ref(|st.heap| + 1), v)))
  {
  }

  /** The `a` of `'a`, read into the arena that already holds the two conses. */
  lemma QuotedA(st: State, h: Hooks)
    requires st == Start("'a").(pos := 1, heap := [Cons(Sym("quote"), Ref(1)), Cons(Nil, Nil)])
    ensures DoRead(st, h, None) == Step(Ok(Sym("a")), st.(pos := 2, eof := true, tokval := Sym("a")))
  {
    LetterDatum(st, h, 1);
  }

  /** `'a` reads as the two conses of `(quote a)`. */
  lemma QuoteExample(h: Hooks)
    ensures var r := ReadSexpr(Start("'a"), h);
      r.res == Ok(Ref(0)) && r.st.heap == [Cons(Sym("quote"), Ref(1)), Cons(Sym("a"), Nil)]
  {
    var s0 := Start("'a");
    PunctToken(s0, h, 0);
    QuoteDatum(s0, h, None);
    QuoteOfA(s0.(pos := 1), h);
  }

  lemma QuoteOfA(st: State, h: Hooks)
    requires st == Start("'a").(pos := 1)
    ensures var r := QuoteForm(st, h, None, QuoteHead);
      r.res == Ok(Ref(0)) && r.st.heap == [Cons(Sym("quote"), Ref(1)), Cons(Sym("a"), Nil)]
  {
    var s1 := st.(heap := [Cons(Sym("quote"), Ref(1)), Cons(Nil, Nil)]);
    assert st.(heap := st.heap + [Cons(Sym(QuoteHead), Ref(1)), Cons(Nil, Nil)]) == s1;
    QuotedA(s1, h);
    QuoteFormOk(st, h, QuoteHead, Sym("a"), s1.(pos := 2, eof := true, tokval := Sym("a")));
    QuoteCells();
  }

  lemma QuoteCells()
    ensures SetCar([Cons(Sym("quote"), Ref(1)), Cons(Nil, Nil)], Ref(1), Sym("a"))
            == [Cons(Sym("quote"), Ref(1)), Cons(Sym("a"), Nil)]
  {
  }

  /** `(a`: after the token `a` the input is exhausted, so the list loop stops with
      "unexpected end of input" before it allocates a cell. */
  lemma EofExample(h: Hooks)
    ensures ReadSexpr(Start("(a"), h).res == Err(UnexpectedEof)
  {
    var s0 := Start("(a");
    PunctToken(s0, h, 0);
    OpenDatum(s0, h, None);
    LetterToken(s0.(pos := 1), h, 1);
  }

  /** The reader part way through `(a . b . c)`. */
  function Dotted(pos: nat, tok: TokKind, tokval: Value, heap: seq<Cell>): State
  {
    State("(a . b . c)", pos, false, tok, tokval, heap, EmptySession, 0)
  }

  /** The dot rule: once the datum after a dot is read, any token but `)` is "expected ')'". */
  lemma DotNotClosed(st: State, h: Hooks, a: nat, first: Value, v: Value, s': State, t: TokKind, q: State)
    requires Wf(st) && ListSoFar(st, Ref(a), first)
    requires DoRead(st, h, None) == Step(Ok(v), s')
    requires Wf(s') && Peek(s'.(heap := SetCdr(s'.heap, Ref(a), v)), h) == Step(Ok(t), q)
    requires !q.eof && t != TokClose
    ensures ListDot(st, h, a, first).res == Err(ExpectedClose)
  {
  }

  /** The first element of a list: its cell is allocated, the pending label bound to it,
      its car read, and the list goes on with what follows it. */
  lemma FirstCell(st: State, h: Hooks, pending: Option<Value>, v: Value, s': State)
    requires Wf(st) && Unbound(st, pending) && st.tok != TokNone && st.tok != TokClose && !st.eof
    requires DoRead(Bind(st.(heap := st.heap + [Cons(Nil, Nil)]), pending, Ref(|st.heap|)), h, None)
             == Step(Ok(v), s')
    requires Wf(s') && |st.heap| < |s'.heap| && s'.heap[|st.heap|].Cons?
    ensures ReadListLoop(st, h, st.tok, Nil, Nil, pending)
            == ListTail(s'.(heap := SetCar(s'.heap, Ref(|st.heap|), v)), h, |st.heap|, Ref(|st.heap|))
  {
    assert SetCdr(st.heap + [Cons(Nil, Nil)], Nil, Ref(|st.heap|)) == st.heap + [Cons(Nil, Nil)];
  }

  /** A dot after an element hands the rest of the list to the dotted tail. */
  lemma TailDot(st: State, h: Hooks, a: nat, first: Value, q: State)
    requires Wf(st) && ListSoFar(st, Ref(a), first) && Peek(st, h) == Step(Ok(TokDot), q)
    ensures Wf(Take(q)) && ListSoFar(Take(q), Ref(a), first)
    ensures ListTail(st, h, a, first) == ListDot(Take(q), h, a, first)
  {
  }

  /** The dot rule, the accepting side: the datum after the dot, then `)`, ends the list. */
  lemma DotClosed(st: State, h: Hooks, a: nat, first: Value, v: Value, s': State, q: State)
    requires Wf(st) && ListSoFar(st, Ref(a), first)
    requires DoRead(st, h, None) == Step(Ok(v), s')
    requires Wf(s') && Peek(s'.(heap := SetCdr(s'.heap, Ref(a), v)), h) == Step(Ok(TokClose), q)
    requires !q.eof
    ensures ListDot(st, h, a, first) == Step(Ok(first), Take(q))
  {
  }

  lemma DottedCells()
    ensures SetCdr([Cons(Sym("a"), Nil)], Ref(0), Sym("b")) == [Cons(Sym("a"), Sym("b"))]
    ensures SetCar([Cons(Nil, Nil)], Ref(0), Sym("a")) == [Cons(Sym("a"), Nil)]
  {
  }

  /** The `b` after `(a .`. */
  lemma DottedB(h: Hooks)
    ensures DoRead(Dotted(4, TokNone, Sym("a"), [Cons(Sym("a"), Nil)]), h, None)
            == Step(Ok(Sym("b")), Dotted(6, TokNone, Sym("b"), [Cons(Sym("a"), Nil)]))
  {
    LetterDatum(Dotted(4, TokNone, Sym("a"), [Cons(Sym("a"), Nil)]), h, 5);
  }

  /** The second dot, once `b` is the last cdr. */
  lemma DotAfterB(h: Hooks)
    ensures var s' := Dotted(6, TokNone, Sym("b"), [Cons(Sym("a"), Nil)]);
      Peek(s'.(heap := SetCdr(s'.heap, Ref(0), Sym("b"))), h)
      == Step(Ok(TokDot), Dotted(8, TokDot, Sym("b"), [Cons(Sym("a"), Sym("b"))]))
  {
    DottedCells();
    DotToken(Dotted(6, TokNone, Sym("b"), [Cons(Sym("a"), Sym("b"))]), h, 7);
  }

  /** After `(a .`: the dotted datum `b` is read into the cdr, and the next token is a
      second dot instead of `)`. */
  lemma SecondDot(h: Hooks)
    ensures ListDot(Dotted(4, TokNone, Sym("a"), [Cons(Sym("a"), Nil)]), h, 0, Ref(0)).res
            == Err(ExpectedClose)
  {
    DottedB(h);
    DotAfterB(h);
    DotNotClosed(Dotted(4, TokNone, Sym("a"), [Cons(Sym("a"), Nil)]), h, 0, Ref(0), Sym("b"),
                 Dotted(6, TokNone, Sym("b"), [Cons(Sym("a"), Nil)]),
                 TokDot, Dotted(8, TokDot, Sym("b"), [Cons(Sym("a"), Sym("b"))]));
  }

  /** After `(a`: the first dot starts the dotted tail. */
  lemma FirstDot(h: Hooks)
    ensures ListTail(Dotted(2, TokNone, Sym("a"), [Cons(Sym("a"), Nil)]), h, 0, Ref(0)).res
            == Err(ExpectedClose)
  {
    DotToken(Dotted(2, TokNone, Sym("a"), [Cons(Sym("a"), Nil)]), h, 3);
    SecondDot(h);
  }

  /** The first element `a` becomes the car of the list's first cell. */
  lemma FirstElement(h: Hooks)
    ensures ReadListLoop(Dotted(2, TokSym, Sym("a"), []), h, TokSym, Nil, Nil, None).res == Err(ExpectedClose)
  {
    var s1 := Dotted(2, TokSym, Sym("a"), [Cons(Nil, Nil)]);
    CachedSymbol(s1, h);
    assert Dotted(2, TokSym, Sym("a"), []).(heap := [] + [Cons(Nil, Nil)]) == s1;
    DottedCells();
    FirstCell(Dotted(2, TokSym, Sym("a"), []), h, None, Sym("a"), Take(s1));
    FirstDot(h);
  }

  /** `read_list` starts with the token after `(`. */
  lemma ListStart(st: State, h: Hooks, pending: Option<Value>, t: TokKind, q: State)
    requires Wf(st) && Unbound(st, pending) && Peek(st, h) == Step(Ok(t), q)
    ensures Wf(q) && q.tok == t && (t == TokNone ==> q.eof) && Unbound(q, pending)
    ensures ReadList(st, h, pending) == ReadListLoop(q, h, t, Nil, Nil, pending)
  {
  }

  /** `(a . b . c)` inside its parenthesis. */
  lemma DottedList(h: Hooks)
    ensures ReadList(Dotted(1, TokNone, Nil, []), h, None).res == Err(ExpectedClose)
  {
    LetterToken(Dotted(1, TokNone, Nil, []), h, 1);
    ListStart(Dotted(1, TokNone, Nil, []), h, None, TokSym, Dotted(2, TokSym, Sym("a"), []));
    FirstElement(h);
  }

  /** `(a . b . c)`: a second dot in a list is "expected ')'". */
  lemma TwoDotsExample(h: Hooks)
    ensures ReadSexpr(Start("(a . b . c)"), h).res == Err(ExpectedClose)
  {
    var s0 := Start("(a . b . c)");
    PunctToken(s0, h, 0);
    OpenDatum(s0, h, None);
    DottedList(h);
  }

  /** `#n=` once the labelled datum is known: the label is bound to it as well. */
  lemma LabelFormOk(st: State, h: Hooks, n: Value, v: Value, s': State)
    requires Wf(st) && n !in st.session.backrefs
    requires DoRead(st, h, Some(n)) == Step(Ok(v), s')
    ensures LabelForm(st, h, n) == Step(Ok(v), Bind(s', Some(n), v))
  {
  }

  /** `read_sexpr` once the datum read with fresh tables is known: the caller's tables
      come back. */
  lemma ReadSexprOk(st: State, h: Hooks, v: Value, s': State)
    requires Wf(st) && DoRead(st.(session := EmptySession), h, None) == Step(Ok(v), s')
    ensures ReadSexpr(st, h) == Step(Ok(v), s'.(session := st.session))
  {
  }

  /** A list whose tail is itself. */
  const SelfRef := "#0=(a . #0#)"

  /** The reader part way through `SelfRef`, with label 0 bound as `backrefs` says. */
  function R(pos: nat, tok: TokKind, tokval: Value, heap: seq<Cell>, backrefs: map<Value, Value>): State
  {
    State(SelfRef, pos, false, tok, tokval, heap, Session(backrefs, map[]), 0)
  }

  /** The state once the whole of `SelfRef` is read: one cons, its cdr itself. */
  function Closed(): State
  {
    R(12, TokNone, Fixnum(0), [Cons(Sym("a"), Ref(0))], map[Fixnum(0) := Ref(0)])
  }

  lemma SelfCells()
    ensures SetCar([Cons(Nil, Nil)], Ref(0), Sym("a")) == [Cons(Sym("a"), Nil)]
    ensures SetCdr([Cons(Sym("a"), Nil)], Ref(0), Ref(0)) == [Cons(Sym("a"), Ref(0))]
  {
  }

  /** `#0#` after the dot is the list's own first cell. */
  lemma SelfBackref(h: Hooks)
    ensures DoRead(R(7, TokNone, Sym("a"), [Cons(Sym("a"), Nil)], map[Fixnum(0) := Ref(0)]), h, None)
            == Step(Ok(Ref(0)), R(11, TokNone, Fixnum(0), [Cons(Sym("a"), Nil)], map[Fixnum(0) := Ref(0)]))
  {
    var st := R(7, TokNone, Sym("a"), [Cons(Sym("a"), Nil)], map[Fixnum(0) := Ref(0)]);
    assert st.input[8] == '#' && st.input[9] == '0' && st.input[10] == '#';
    LabelZeroToken(st, h, 8);
    var p := Peek(st, h);
    assert p == Step(Ok(TokBackref), st.(pos := 11, tok := TokBackref, tokval := Fixnum(0)));
    BackrefDatum(st, h, None, Fixnum(0));
    assert Take(p.st) == R(11, TokNone, Fixnum(0), [Cons(Sym("a"), Nil)], map[Fixnum(0) := Ref(0)]);
  }

  /** The `)` after it. */
  lemma SelfClose(h: Hooks)
    ensures Peek(R(11, TokNone, Fixnum(0), [Cons(Sym("a"), Ref(0))], map[Fixnum(0) := Ref(0)]), h)
            == Step(Ok(TokClose), R(12, TokClose, Fixnum(0), [Cons(Sym("a"), Ref(0))], map[Fixnum(0) := Ref(0)]))
  {
    PunctToken(R(11, TokNone, Fixnum(0), [Cons(Sym("a"), Ref(0))], map[Fixnum(0) := Ref(0)]), h, 11);
  }

  /** The dotted tail `#0#)` makes the cell its own cdr. */
  lemma SelfDot(h: Hooks)
    ensures ListDot(R(7, TokNone, Sym("a"), [Cons(Sym("a"), Nil)], map[Fixnum(0) := Ref(0)]), h, 0, Ref(0))
            == Step(Ok(Ref(0)), Closed())
  {
    SelfBackref(h);
    SelfCells();
    SelfClose(h);
    DotClosed(R(7, TokNone, Sym("a"), [Cons(Sym("a"), Nil)], map[Fixnum(0) := Ref(0)]), h, 0, Ref(0), Ref(0),
              R(11, TokNone, Fixnum(0), [Cons(Sym("a"), Nil)], map[Fixnum(0) := Ref(0)]),
              R(12, TokClose, Fixnum(0), [Cons(Sym("a"), Ref(0))], map[Fixnum(0) := Ref(0)]));
  }

  /** ` . #0#)` after the first element. */
  lemma SelfTail(h: Hooks)
    ensures ListTail(R(5, TokNone, Sym("a"), [Cons(Sym("a"), Nil)], map[Fixnum(0) := Ref(0)]), h, 0, Ref(0))
            == Step(Ok(Ref(0)), Closed())
  {
    var st := R(5, TokNone, Sym("a"), [Cons(Sym("a"), Nil)], map[Fixnum(0) := Ref(0)]);
    DotToken(st, h, 6);
    TailDot(st, h, 0, Ref(0), R(7, TokDot, Sym("a"), [Cons(Sym("a"), Nil)], map[Fixnum(0) := Ref(0)]));
    SelfDot(h);
  }

  /** The first cell is bound to label 0 before its car `a` is read. */
  lemma SelfCell(h: Hooks)
    ensures ReadListLoop(R(5, TokSym, Sym("a"), [], map[]), h, TokSym, Nil, Nil, Some(Fixnum(0)))
            == Step(Ok(Ref(0)), Closed())
  {
    var st := R(5, TokSym, Sym("a"), [], map[]);
    var s1 := R(5, TokSym, Sym("a"), [Cons(Nil, Nil)], map[Fixnum(0) := Ref(0)]);
    assert Bind(st.(heap := [] + [Cons(Nil, Nil)]), Some(Fixnum(0)), Ref(0)) == s1;
    CachedSymbol(s1, h);
    SelfCells();
    FirstCell(st, h, Some(Fixnum(0)), Sym("a"), Take(s1));
    SelfTail(h);
  }

  /** `a . #0#)` after the parenthesis. */
  lemma SelfList(h: Hooks)
    ensures ReadList(R(4, TokNone, Fixnum(0), [], map[]), h, Some(Fixnum(0))) == Step(Ok(Ref(0)), Closed())
  {
    var st := R(4, TokNone, Fixnum(0), [], map[]);
    LetterToken(st, h, 4);
    ListStart(st, h, Some(Fixnum(0)), TokSym, R(5, TokSym, Sym("a"), [], map[]));
    SelfCell(h);
  }

  /** `(a . #0#)` with label 0 pending. */
  lemma SelfOpen(h: Hooks)
    ensures DoRead(R(3, TokNone, Fixnum(0), [], map[]), h, Some(Fixnum(0))) == Step(Ok(Ref(0)), Closed())
  {
    var st := R(3, TokNone, Fixnum(0), [], map[]);
    PunctToken(st, h, 3);
    OpenDatum(st, h, Some(Fixnum(0)));
    SelfList(h);
  }

  /** The whole datum, label included. */
  lemma SelfLabel(h: Hooks)
    ensures DoRead(Start(SelfRef), h, None) == Step(Ok(Ref(0)), Closed())
  {
    LabelZeroToken(Start(SelfRef), h, 0);
    LabelDatum(Start(SelfRef), h, None);
    SelfOpen(h);
    LabelFormOk(R(3, TokNone, Fixnum(0), [], map[]), h, Fixnum(0), Ref(0), Closed());
    assert Bind(Closed(), Some(Fixnum(0)), Ref(0)) == Closed();
  }

  /** `#0=(a . #0#)` reads as one cons whose cdr is the cons itself: the label is bound
      to the list's first cell before the rest of the list is read. The session's tables
      are dropped again at the end. */
  lemma SelfRefExample(h: Hooks)
    ensures ReadSexpr(Start(SelfRef), h)
            == Step(Ok(Ref(0)), State(SelfRef, 12, false, TokNone, Fixnum(0), [Cons(Sym("a"), Ref(0))], EmptySession, 0))
  {
    SelfLabel(h);
    ReadSexprOk(Start(SelfRef), h, Ref(0), Closed());
  }

  /** `[` starts a vector closed by `]`, which receives the pending label. */
  lemma BracketDatum(st: State, h: Hooks, pending: Option<Value>)
    requires Wf(st) && Unbound(st, pending) && Peek(st, h).res == Ok(TokOpenB)
    ensures DoRead(st, h, pending) == ReadVector(Take(Peek(st, h).st), h, pending, TokCloseB)
  {
    var p := Peek(st, h);
    DoReadStep(st, h, pending);
    DispatchCompound(Take(p.st), h, pending, TokOpenB, p.st.tokval);
    assert Compound(Take(p.st), h, pending, TokOpenB, p.st.tokval) == Aggregate(Take(p.st), h, pending, TokOpenB);
  }

  /** The vector loop goes on with the token peeked after an element. */
  lemma VectorPeeked(st: State, h: Hooks, closer: TokKind, a: nat, i: nat, t: TokKind, q: State)
    requires Wf(st) && VectorSoFar(st, a, i) && Peek(st, h) == Step(Ok(t), q)
    ensures Wf(q) && q.tok == t && (t == TokNone ==> q.eof) && VectorSoFar(q, a, i)
    ensures VectorNext(st, h, closer, a, i) == ReadVectorLoop(q, h, t, closer, a, i)
  {
  }

  /** A symbol already peeked, with room left in the vector, is stored in slot `i`. */
  lemma SymbolSlot(st: State, h: Hooks, closer: TokKind, a: nat, i: nat, s': State)
    requires Wf(st) && st.tok == TokSym && closer != TokSym && !st.eof
    requires VectorSoFar(st, a, i) && i < |st.heap[a].elts|
    requires s' == Take(st).(heap := st.heap[a := Vector(st.heap[a].elts[i := st.tokval])])
    ensures Wf(s') && VectorSoFar(s', a, i + 1)
    ensures ReadVectorLoop(st, h, TokSym, closer, a, i) == VectorNext(s', h, closer, a, i + 1)
  {
    CachedSymbol(st, h);
    assert ReadElement(st, h, a, i) == Step(Ok(st.tokval), s');
  }

  /** The reader part way through `[a b]`. */
  function V(pos: nat, tok: TokKind, tokval: Value, elts: seq<Value>): State
  {
    State("[a b]", pos, false, tok, tokval, [Vector(elts)], EmptySession, 0)
  }

  /** `]`: the vector is trimmed to the two elements read. */
  lemma VectorEnd(h: Hooks)
    ensures VectorNext(V(4, TokNone, Sym("b"), [Sym("a"), Sym("b"), Nil, Nil]), h, TokCloseB, 0, 2)
            == Step(Ok(Ref(0)), V(5, TokNone, Sym("b"), [Sym("a"), Sym("b")]))
  {
    var st := V(4, TokNone, Sym("b"), [Sym("a"), Sym("b"), Nil, Nil]);
    PunctToken(st, h, 4);
    VectorPeeked(st, h, TokCloseB, 0, 2, TokCloseB, V(5, TokCloseB, Sym("b"), [Sym("a"), Sym("b"), Nil, Nil]));
    assert [Sym("a"), Sym("b"), Nil, Nil][..2] == [Sym("a"), Sym("b")];
  }

  lemma SlotsFilled()
    ensures V(2, TokSym, Sym("a"), FreshSlots).heap[0 := Vector(FreshSlots[0 := Sym("a")])]
            == V(2, TokNone, Sym("a"), [Sym("a"), Nil, Nil, Nil]).heap
    ensures V(4, TokSym, Sym("b"), [Sym("a"), Nil, Nil, Nil]).heap[0 := Vector([Sym("a"), Nil, Nil, Nil][1 := Sym("b")])]
            == V(4, TokNone, Sym("b"), [Sym("a"), Sym("b"), Nil, Nil]).heap
  {
    var e1 := FreshSlots[0 := Sym("a")];
    assert e1[0] == Sym("a") && e1[1] == Nil && e1[2] == Nil && e1[3] == Nil;
    assert e1 == [Sym("a"), Nil, Nil, Nil];
    var e2 := [Sym("a"), Nil, Nil, Nil][1 := Sym("b")];
    assert e2[0] == Sym("a") && e2[1] == Sym("b") && e2[2] == Nil && e2[3] == Nil;
    assert e2 == [Sym("a"), Sym("b"), Nil, Nil];
  }

  /** `b` is stored in slot 1. */
  lemma StoreSecond(h: Hooks)
    ensures ReadVectorLoop(V(4, TokSym, Sym("b"), [Sym("a"), Nil, Nil, Nil]), h, TokSym, TokCloseB, 0, 1)
            == Step(Ok(Ref(0)), V(5, TokNone, Sym("b"), [Sym("a"), Sym("b")]))
  {
    SlotsFilled();
    SymbolSlot(V(4, TokSym, Sym("b"), [Sym("a"), Nil, Nil, Nil]), h, TokCloseB, 0, 1,
               V(4, TokNone, Sym("b"), [Sym("a"), Sym("b"), Nil, Nil]));
    VectorEnd(h);
  }

  /** ` b]` after the first element. */
  lemma VectorSecond(h: Hooks)
    ensures VectorNext(V(2, TokNone, Sym("a"), [Sym("a"), Nil, Nil, Nil]), h, TokCloseB, 0, 1)
            == Step(Ok(Ref(0)), V(5, TokNone, Sym("b"), [Sym("a"), Sym("b")]))
  {
    var st := V(2, TokNone, Sym("a"), [Sym("a"), Nil, Nil, Nil]);
    LetterToken(st, h, 3);
    VectorPeeked(st, h, TokCloseB, 0, 1, TokSym, V(4, TokSym, Sym("b"), [Sym("a"), Nil, Nil, Nil]));
    StoreSecond(h);
  }

  /** `a` is stored in slot 0 of the four allocated. */
  lemma StoreFirst(h: Hooks)
    ensures ReadVectorLoop(V(2, TokSym, Sym("a"), FreshSlots), h, TokSym, TokCloseB, 0, 0)
            == Step(Ok(Ref(0)), V(5, TokNone, Sym("b"), [Sym("a"), Sym("b")]))
  {
    SlotsFilled();
    SymbolSlot(V(2, TokSym, Sym("a"), FreshSlots), h, TokCloseB, 0, 0,
               V(2, TokNone, Sym("a"), [Sym("a"), Nil, Nil, Nil]));
    VectorSecond(h);
  }

  /** `a b]` after the bracket. */
  lemma VectorFirst(h: Hooks)
    ensures VectorNext(V(1, TokNone, Nil, FreshSlots), h, TokCloseB, 0, 0)
            == Step(Ok(Ref(0)), V(5, TokNone, Sym("b"), [Sym("a"), Sym("b")]))
  {
    var st := V(1, TokNone, Nil, FreshSlots);
    LetterToken(st, h, 1);
    VectorPeeked(st, h, TokCloseB, 0, 0, TokSym, V(2, TokSym, Sym("a"), FreshSlots));
    StoreFirst(h);
  }

  /** `[a b]` reads as a vector of exactly its two elements, although four slots were
      allocated for it. */
  lemma VectorExample(h: Hooks)
    ensures ReadSexpr(Start("[a b]"), h) == Step(Ok(Ref(0)), V(5, TokNone, Sym("b"), [Sym("a"), Sym("b")]))
  {
    var s0 := Start("[a b]");
    PunctToken(s0, h, 0);
    BracketDatum(s0, h, None);
    assert s0.(pos := 1).(heap := [] + [Vector(FreshSlots)]) == V(1, TokNone, Nil, FreshSlots);
    VectorFirst(h);
    ReadSexprOk(s0, h, Ref(0), V(5, TokNone, Sym("b"), [Sym("a"), Sym("b")]));
  }
}
