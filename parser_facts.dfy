/** Properties of `do_read_sexpr`, `read_list` and `read_vector`: which tokens end a list
    or a vector, what `#'` does with a pending label, the order in which a vector's
    elements are stored, and how a list's conses are linked and filled. */
module ParserFacts {
  import opened Errors
  import opened Numbers
  import opened ReaderState
  import opened Lexer
  import opened Parser

  /** A closer cached as the next token is an error when a datum is expected. */
  lemma CloserIsNoDatum(st: State, h: Hooks, pending: Option<Value>)
    requires Wf(st) && Unbound(st, pending) && st.tok in {TokClose, TokCloseB}
    ensures DoRead(st, h, pending).res
            == Err(if st.tok == TokClose then UnexpectedClose else UnexpectedCloseBracket)
  {
    var p := Peek(st, h);
    assert p == Step(Ok(st.tok), st);
    assert Immediate(st.tok, st.tokval).Some?;
  }

  /** A list ends only at `)`: at the end of the input any other token is "unexpected end
      of input", and a `]` inside it is read as a datum and rejected. */
  lemma ListEndsOnlyAtClose(st: State, h: Hooks, t: TokKind, pc: Value, first: Value, pending: Option<Value>)
    requires Wf(st) && st.tok == t && t != TokClose && (t == TokNone ==> st.eof)
    requires pc.Nil? || pc.Ref?
    requires pc.Nil? ==> first.Nil? && Unbound(st, pending)
    requires pc.Ref? ==> ListSoFar(st, pc, first)
    ensures st.eof ==> ReadListLoop(st, h, t, pc, first, pending).res == Err(UnexpectedEof)
    ensures !st.eof && t == TokCloseB ==>
      ReadListLoop(st, h, t, pc, first, pending).res == Err(UnexpectedCloseBracket)
  {
    if !st.eof && t == TokCloseB {
      var s1 := Link(st, pc, pending);
      LinkFacts(st, s1, pc, first, pending);
      CloserIsNoDatum(s1, h, None);
    }
  }

  /** A vector ends only at its own closer: the other closer inside it is rejected. */
  lemma VectorRejectsOtherCloser(st: State, h: Hooks, t: TokKind, closer: TokKind, a: nat, i: nat)
    requires Wf(st) && st.tok == t && VectorSoFar(st, a, i) && !st.eof
    requires t in {TokClose, TokCloseB} && closer in {TokClose, TokCloseB} && t != closer
    ensures ReadVectorLoop(st, h, t, closer, a, i).res
            == Err(if t == TokClose then UnexpectedClose else UnexpectedCloseBracket)
  {
    var s1 := if i >= |st.heap[a].elts| then st.(heap := Grow(st.heap, a)) else st;
    GrowFacts(st, s1, a, i);
    CloserIsNoDatum(s1, h, None);
    assert ReadElement(st, h, a, i).res == DoRead(s1, h, None).res;
    assert VectorElement(st, h, closer, a, i).res == ReadElement(st, h, a, i).res;
  }

  /** `#'x` is read as `x`, and a pending `#n=` label is handed on to `x`. */
  lemma SharpQuotePassesLabel(st: State, h: Hooks, pending: Option<Value>)
    requires Wf(st) && Unbound(st, pending)
    requires Peek(st, h).res == Ok(TokSharpQuote)
    ensures DoRead(st, h, pending) == DoRead(Take(Peek(st, h).st), h, pending)
  {
    var p := Peek(st, h);
    var s := Take(p.st);
    var v := p.st.tokval;
    assert Dispatch(s, h, pending, TokSharpQuote, v) == Nested(s, h, pending, TokSharpQuote, v);
    assert Nested(s, h, pending, TokSharpQuote, v) == Reference(s, h, pending, TokSharpQuote, v);
    assert Reference(s, h, pending, TokSharpQuote, v) == Literal(s, h, pending, TokSharpQuote, v);
  }

  /** The closing step of a vector trims it to exactly the `i` elements stored. */
  lemma ClosedVectorSize(st: State, h: Hooks, closer: TokKind, a: nat, i: nat)
    requires Wf(st) && st.tok == closer && closer != TokNone && VectorSoFar(st, a, i)
    ensures ReadVectorLoop(st, h, closer, closer, a, i).res == Ok(Ref(a))
    ensures ReadVectorLoop(st, h, closer, closer, a, i).st.heap[a] == Vector(st.heap[a].elts[..i])
  {
  }

  /** One element: the slots below `i` are left alone and the datum read lands in slot `i`. */
  lemma ElementStored(st: State, h: Hooks, a: nat, i: nat)
    requires Wf(st) && st.tok != TokNone && VectorSoFar(st, a, i)
    ensures var x := ReadElement(st, h, a, i);
      x.res.Ok? ==>
        && i < |x.st.heap[a].elts| && x.st.heap[a].elts[i] == x.res.value
        && x.st.heap[a].elts[..i] == st.heap[a].elts[..i]
  {
    var s1 := if i >= |st.heap[a].elts| then st.(heap := Grow(st.heap, a)) else st;
    GrowFacts(st, s1, a, i);
    assert s1.heap[a].elts[..i] == st.heap[a].elts[..i];
    var x := DoRead(s1, h, None);
    if x.res.Ok? {
      assert x.st.heap[a] == s1.heap[a];
    }
  }

  /** Elements already stored in a vector are never overwritten by the rest of its loop:
      the vector returned holds them, in order, at the front; and the datum read for slot
      `i` is element `i` of the vector returned. */
  lemma {:induction false} LoopKeepsElements(st: State, h: Hooks, t: TokKind, closer: TokKind, a: nat, i: nat)
    requires Wf(st) && st.tok == t && (t == TokNone ==> st.eof) && VectorSoFar(st, a, i)
    ensures var r := ReadVectorLoop(st, h, t, closer, a, i);
      r.res.Ok? ==> i <= |r.st.heap[a].elts| && r.st.heap[a].elts[..i] == st.heap[a].elts[..i]
    decreases Measure(st), 6
  {
    if t != closer && !st.eof {
      ElementKeepsElements(st, h, closer, a, i);
    }
  }

  lemma {:induction false} ElementKeepsElements(st: State, h: Hooks, closer: TokKind, a: nat, i: nat)
    requires Wf(st) && st.tok != TokNone && VectorSoFar(st, a, i)
    ensures var r := VectorElement(st, h, closer, a, i);
      r.res.Ok? ==>
        && i < |r.st.heap[a].elts| && r.st.heap[a].elts[..i] == st.heap[a].elts[..i]
        && ReadElement(st, h, a, i).res.Ok?
        && r.st.heap[a].elts[i] == ReadElement(st, h, a, i).res.value
    decreases Measure(st), 5
  {
    var x := ReadElement(st, h, a, i);
    if x.res.Ok? {
      ElementStored(st, h, a, i);
      NextKeepsElements(x.st, h, closer, a, i + 1);
      var r := VectorNext(x.st, h, closer, a, i + 1);
      if r.res.Ok? {
        assert r.st.heap[a].elts[..i] == r.st.heap[a].elts[..i + 1][..i];
        assert x.st.heap[a].elts[..i] == x.st.heap[a].elts[..i + 1][..i];
        assert r.st.heap[a].elts[i] == r.st.heap[a].elts[..i + 1][i];
      }
    }
  }

  lemma {:induction false} NextKeepsElements(st: State, h: Hooks, closer: TokKind, a: nat, i: nat)
    requires Wf(st) && VectorSoFar(st, a, i)
    ensures var r := VectorNext(st, h, closer, a, i);
      r.res.Ok? ==> i <= |r.st.heap[a].elts| && r.st.heap[a].elts[..i] == st.heap[a].elts[..i]
    decreases Measure(st), 7
  {
    var q := Peek(st, h);
    if q.res.Ok? {
      LoopKeepsElements(q.st, h, q.res.value, closer, a, i);
    }
  }

  /** One element of a list: the cons allocated for it holds the datum read as its car, and
      the cons before it (if any) now links to it, with everything below unchanged. The
      rest of the list, read afterwards, changes none of this. */
  lemma {:induction false} CellLinks(st: State, h: Hooks, pc: Value, first: Value, pending: Option<Value>)
    requires Wf(st) && st.tok != TokNone
    requires pc.Nil? || pc.Ref?
    requires pc.Nil? ==> first.Nil? && Unbound(st, pending)
    requires pc.Ref? ==> ListSoFar(st, pc, first)
    ensures var r := ListCell(st, h, pc, first, pending);
            var a := |st.heap|;
      r.res.Ok? ==>
        && a < |r.st.heap| && r.st.heap[a].Cons?
        && DoRead(Link(st, pc, pending), h, None).res.Ok?
        && r.st.heap[a].car == DoRead(Link(st, pc, pending), h, None).res.value
        && (pc.Ref? ==> && r.st.heap[..pc.addr] == st.heap[..pc.addr]
                        && r.st.heap[pc.addr] == st.heap[pc.addr].(cdr := Ref(a)))
    decreases Measure(st), 4
  {
    var a := |st.heap|;
    var first1 := if pc.Ref? then first else Ref(a);
    var s1 := Link(st, pc, pending);
    LinkFacts(st, s1, pc, first, pending);
    var car := DoRead(s1, h, None);
    if car.res.Ok? {
      var s2 := car.st.(heap := SetCar(car.st.heap, Ref(a), car.res.value));
      CellFacts(st, s1, car.st, s2, car.res.value, first, first1, pending);
      assert ListCell(st, h, pc, first, pending) == ListTail(s2, h, a, first1);
      StoredCar(s1.heap, car.st.heap, a, car.res.value);
      TailKeepsCar(s2, h, a, first1);
      var r := ListTail(s2, h, a, first1);
      if r.res.Ok? && pc.Ref? {
        PrefixKeeps(r.st.heap, s1.heap, a, pc.addr);
      }
    }
  }

  /** Setting the car of the fresh cons at `a` in a heap that grew from `h1`. */
  lemma StoredCar(h1: seq<Cell>, h2: seq<Cell>, a: nat, v: Value)
    requires h1 <= h2 && a < |h1| && h1[a] == Cons(Nil, Nil)
    ensures var h3 := SetCar(h2, Ref(a), v);
      h3[a] == Cons(v, Nil) && h3[..a] == h1[..a]
  {
    assert h2[a] == h1[a];
    var h3 := SetCar(h2, Ref(a), v);
    assert h3[..a] == h2[..a] == h1[..a];
  }

  /** After an element at `a`, whatever follows it: every cell below it is kept, and the
      cell at `a` is still a cons with the same car. */
  lemma TailKeepsCar(st: State, h: Hooks, a: nat, first: Value)
    requires Wf(st) && ListSoFar(st, Ref(a), first)
    ensures var r := ListTail(st, h, a, first);
      r.res.Ok? ==>
        && a < |r.st.heap| && r.st.heap[..a] == st.heap[..a]
        && r.st.heap[a].Cons? && r.st.heap[a].car == st.heap[a].car
    decreases Measure(st), 7
  {
    TailLinks(st, h, a, first);
  }

  /** After an element at `a`: its car and every cell below it are kept; its cdr is left as
      it was at `)`, becomes the datum after a dot, and otherwise links to the next cons. */
  lemma {:induction false} TailLinks(st: State, h: Hooks, a: nat, first: Value)
    requires Wf(st) && ListSoFar(st, Ref(a), first)
    ensures var r := ListTail(st, h, a, first);
            var q := Peek(st, h);
      r.res.Ok? ==>
        && q.res.Ok? && a < |r.st.heap| && r.st.heap[..a] == st.heap[..a]
        && (q.res.value == TokClose ==> r.st.heap[a] == st.heap[a])
        && (q.res.value == TokDot ==>
              && DoRead(Take(q.st), h, None).res.Ok?
              && r.st.heap[a] == st.heap[a].(cdr := DoRead(Take(q.st), h, None).res.value))
        && (q.res.value != TokClose && q.res.value != TokDot ==>
              r.st.heap[a] == st.heap[a].(cdr := Ref(|st.heap|)))
    decreases Measure(st), 6
  {
    var q := Peek(st, h);
    if q.res.Ok? {
      if q.res.value == TokDot {
        DotLinks(Take(q.st), h, a, first);
      } else {
        LoopLinks(q.st, h, q.res.value, Ref(a), first, None);
      }
    }
  }

  /** The dotted tail: the datum becomes the cdr of the last cons, and nothing below it
      changes. */
  lemma DotLinks(st: State, h: Hooks, a: nat, first: Value)
    requires Wf(st) && ListSoFar(st, Ref(a), first)
    ensures var r := ListDot(st, h, a, first);
            var d := DoRead(st, h, None);
      r.res.Ok? ==>
        && d.res.Ok? && a < |r.st.heap| && r.st.heap[..a] == st.heap[..a]
        && r.st.heap[a] == st.heap[a].(cdr := d.res.value)
  {
    var d := DoRead(st, h, None);
    if d.res.Ok? {
      assert d.st.heap[..a] == st.heap[..a] && d.st.heap[a] == st.heap[a];
    }
  }

  /** The loop of `read_list`, for the cons `pc` the list ends with so far: at `)` it is
      left as it is; otherwise it links to the cons allocated next, whose car is the datum
      read. Cells below `pc` are never changed. */
  lemma {:induction false} LoopLinks(st: State, h: Hooks, t: TokKind, pc: Value, first: Value, pending: Option<Value>)
    requires Wf(st) && st.tok == t && (t == TokNone ==> st.eof)
    requires pc.Nil? || pc.Ref?
    requires pc.Nil? ==> first.Nil? && Unbound(st, pending)
    requires pc.Ref? ==> ListSoFar(st, pc, first)
    ensures var r := ReadListLoop(st, h, t, pc, first, pending);
            var a := |st.heap|;
      r.res.Ok? ==>
        && (t == TokClose ==> r.st.heap == st.heap)
        && (t != TokClose ==>
              && a < |r.st.heap| && r.st.heap[a].Cons?
              && DoRead(Link(st, pc, pending), h, None).res.Ok?
              && r.st.heap[a].car == DoRead(Link(st, pc, pending), h, None).res.value)
        && (pc.Ref? ==>
              && r.st.heap[..pc.addr] == st.heap[..pc.addr]
              && r.st.heap[pc.addr] == if t == TokClose then st.heap[pc.addr]
                                       else st.heap[pc.addr].(cdr := Ref(a)))
    decreases Measure(st), 5
  {
    if t != TokClose && !st.eof {
      CellLinks(st, h, pc, first, pending);
    }
  }

  /** Two heaps that agree below `a` agree below any `p < a`, and at `p`. */
  lemma PrefixKeeps(x: seq<Cell>, y: seq<Cell>, a: nat, p: nat)
    requires p < a <= |x| && a <= |y| && x[..a] == y[..a]
    ensures x[..p] == y[..p] && x[p] == y[p]
  {
    assert x[..p] == x[..a][..p] && y[..p] == y[..a][..p];
    assert x[p] == x[..a][p] && y[p] == y[..a][p];
  }
}
