/** The recursive-descent part of femtolisp/read.c as functions of the reader state:
    `do_read_sexpr`, `read_list`, `read_vector` and `read_sexpr`. Conses and vectors are
    cells of a heap arena addressed by `Ref`; the label and gensym tables belong to the
    current read session. */
module Parser {
  import opened Errors
  import opened Numbers
  import opened ReaderState
  import opened Lexer
  import opened StringLiteral

  /** Symbols the quote sugar expands to. */
  const QuoteHead := "quote"
  const BackquoteHead := "backquote"
  const CommaHead := "*comma*"
  const CommaAtHead := "*comma-at*"
  const CommaDotHead := "*comma-dot*"

  /** The slots of a vector being read when it is allocated (`alloc_vector(4, 1)`). */
  const FreshSlots: seq<Value> := [Nil, Nil, Nil, Nil]

  /** A label that may still be bound: not yet in the session's table. */
  predicate Unbound(st: State, pending: Option<Value>)
  {
    pending.Some? ==> pending.value !in st.session.backrefs
  }

  /** The label, if any, is bound to `v`. */
  predicate BoundTo(st: State, pending: Option<Value>, v: Value)
  {
    pending.Some? ==> pending.value in st.session.backrefs && st.session.backrefs[pending.value] == v
  }

  /** What every read step keeps: the state stays well formed, the heap and the tables
      only grow, and no input is given back. */
  ghost predicate ReadPost(st: State, r: Step<Value>)
  {
    Wf(st) && Wf(r.st) && Extends(st, r.st) && Measure(r.st) <= Measure(st)
  }

  /** `car_(c) = v` on a cons of the arena. */
  function SetCar(heap: seq<Cell>, c: Value, v: Value): (h: seq<Cell>)
    ensures |h| == |heap|
    ensures forall a :: 0 <= a < |heap| && !(c.Ref? && a == c.addr) ==> h[a] == heap[a]
  {
    if c.Ref? && c.addr < |heap| && heap[c.addr].Cons? then heap[c.addr := heap[c.addr].(car := v)]
    else heap
  }

  /** `cdr_(c) = v` on a cons of the arena. */
  function SetCdr(heap: seq<Cell>, c: Value, v: Value): (h: seq<Cell>)
    ensures |h| == |heap|
    ensures forall a :: 0 <= a < |heap| && !(c.Ref? && a == c.addr) ==> h[a] == heap[a]
  {
    if c.Ref? && c.addr < |heap| && heap[c.addr].Cons? then heap[c.addr := heap[c.addr].(cdr := v)]
    else heap
  }

  /** Bind a label in the session's table (`ptrhash_put`). */
  function Bind(st: State, pending: Option<Value>, v: Value): (st': State)
    ensures st' == st.(session := st'.session)
    ensures pending.Some? ==> st'.session.backrefs == st.session.backrefs[pending.value := v]
    ensures pending.None? ==> st' == st
  {
    if pending.None? then st
    else st.(session := st.session.(backrefs := st.session.backrefs[pending.value := v]))
  }

  /** `do_read_sexpr(f, pending)`: one datum. `pending` is the pending `#n=` label, bound to the
      datum's first cell as soon as it is allocated so that the datum can refer to itself. */
  function DoRead(st: State, h: Hooks, pending: Option<Value>): (r: Step<Value>)
    requires Wf(st) && Unbound(st, pending)
    ensures ReadPost(st, r)
    ensures st.tok != TokNone ==> Measure(r.st) < Measure(st)
    ensures r.res.Ok? ==> r.st.tok == TokNone
    decreases Measure(st), 3
  {
    var p := Peek(st, h);
    if p.res.Err? then Step(Err(p.res.error), p.st)
    else if p.res.value == TokNone then Step(Ok(Nil), Take(p.st))
    else Dispatch(Take(p.st), h, pending, p.res.value, p.st.tokval)
  }

  /** The `switch` of `do_read_sexpr` on the token just taken; `val` is its `tokval`. */
  function Dispatch(st: State, h: Hooks, pending: Option<Value>, t: TokKind, val: Value): (r: Step<Value>)
    requires Wf(st) && Unbound(st, pending) && st.tok == TokNone && st.tokval == val
    ensures ReadPost(st, r)
    ensures r.res.Ok? ==> r.st.tok == TokNone
    decreases Measure(st), 15
  {
    match Immediate(t, val)
    case Some(res) => Step(res, st)
    case None => Nested(st, h, pending, t, val)
  }

  /** The cases of the `switch` decided by the token alone: atoms, and the closers and dot
      that cannot start a datum. */
  function Immediate(t: TokKind, val: Value): (r: Option<Result<Value>>)
    ensures r.Some? <==> t in {TokNone, TokClose, TokCloseB, TokDot, TokSym, TokNum}
  {
    match t
    case TokNone => Some(Ok(Nil))
    case TokClose => Some(Err(UnexpectedClose))
    case TokCloseB => Some(Err(UnexpectedCloseBracket))
    case TokDot => Some(Err(UnexpectedDot))
    case TokSym => Some(Ok(val))
    case TokNum => Some(Ok(val))
    case _ => None
  }

  /** The cases of the `switch` that read a datum inside the one being built; the
      quote family first. */
  function Nested(st: State, h: Hooks, pending: Option<Value>, t: TokKind, val: Value): (r: Step<Value>)
    requires Wf(st) && Unbound(st, pending) && st.tok == TokNone && st.tokval == val
    ensures ReadPost(st, r)
    ensures r.res.Ok? ==> r.st.tok == TokNone
    decreases Measure(st), 14
  {
    match SugarHead(t)
    case Some(head) => QuoteForm(st, h, pending, head)
    case None => Reference(st, h, pending, t, val)
  }

  /** The head symbol a quote-family token expands to. */
  function SugarHead(t: TokKind): (r: Option<string>)
    ensures r.Some? <==> t in {TokQuote, TokBackquote, TokComma, TokCommaAt, TokCommaDot}
  {
    match t
    case TokQuote => Some(QuoteHead)
    case TokBackquote => Some(BackquoteHead)
    case TokComma => Some(CommaHead)
    case TokCommaAt => Some(CommaAtHead)
    case TokCommaDot => Some(CommaDotHead)
    case _ => None
  }

  /** Back-references and gensyms. */
  function Reference(st: State, h: Hooks, pending: Option<Value>, t: TokKind, val: Value): (r: Step<Value>)
    requires Wf(st) && Unbound(st, pending) && st.tok == TokNone && st.tokval == val
    ensures ReadPost(st, r)
    ensures r.res.Ok? ==> r.st.tok == TokNone
    decreases Measure(st), 13
  {
    match t
    case TokBackref => BackrefForm(st, val)
    case TokGensym => GensymForm(st, val)
    case _ => Literal(st, h, pending, t, val)
  }

  /** String literals and `#'`. */
  function Literal(st: State, h: Hooks, pending: Option<Value>, t: TokKind, val: Value): (r: Step<Value>)
    requires Wf(st) && Unbound(st, pending) && st.tok == TokNone
    ensures ReadPost(st, r)
    ensures r.res.Ok? ==> r.st.tok == TokNone
    decreases Measure(st), 12
  {
    match t
    case TokDoubleQuote => StringForm(st)
    case TokSharpQuote => DoRead(st, h, pending)
    case _ => Compound(st, h, pending, t, val)
  }

  /** `#.`, `#name(...)` and labelled data. */
  function Compound(st: State, h: Hooks, pending: Option<Value>, t: TokKind, val: Value): (r: Step<Value>)
    requires Wf(st) && Unbound(st, pending) && st.tok == TokNone
    ensures ReadPost(st, r)
    ensures r.res.Ok? ==> r.st.tok == TokNone
    decreases Measure(st), 11
  {
    match t
    case TokSharpDot => SharpDotForm(st, h)
    case TokSharpSym => SharpSymForm(st, h, val)
    case TokLabel => LabelForm(st, h, val)
    case _ => Aggregate(st, h, pending, t)
  }

  /** Lists and vectors. */
  function Aggregate(st: State, h: Hooks, pending: Option<Value>, t: TokKind): (r: Step<Value>)
    requires Wf(st) && Unbound(st, pending) && st.tok == TokNone
    ensures ReadPost(st, r)
    ensures r.res.Ok? ==> r.st.tok == TokNone
    decreases Measure(st), 10
  {
    match t
    case TokOpen => ReadList(st, h, pending)
    case TokOpenB => ReadVector(st, h, pending, TokCloseB)
    case TokSharpOpen => ReadVector(st, h, pending, TokClose)
    case _ => Step(Ok(Nil), st)
  }

  /** `'x` and friends: two conses reserved together, `(head . (NIL . NIL))`, the label bound
      to the first, then the datum read into the car of the second. */
  function QuoteForm(st: State, h: Hooks, pending: Option<Value>, head: string): (r: Step<Value>)
    requires Wf(st) && Unbound(st, pending)
    ensures ReadPost(st, r)
    ensures r.res.Ok? ==> r.st.tok == TokNone
    ensures r.res.Ok? ==>
      var a := |st.heap|;
      && r.res.value == Ref(a) && a + 1 < |r.st.heap|
      && r.st.heap[a] == Cons(Sym(head), Ref(a + 1))
      && r.st.heap[a + 1].Cons? && r.st.heap[a + 1].cdr == Nil
      && BoundTo(r.st, pending, Ref(a))
    decreases Measure(st), 4
  {
    var a := |st.heap|;
    var s1 := Bind(st.(heap := st.heap + [Cons(Sym(head), Ref(a + 1)), Cons(Nil, Nil)]), pending, Ref(a));
    BindFresh(st, [Cons(Sym(head), Ref(a + 1)), Cons(Nil, Nil)], pending, Ref(a));
    var x := DoRead(s1, h, None);
    ExtendsTransitive(st, s1, x.st);
    if x.res.Err? then Step(Err(x.res.error), x.st)
    else
      var s2 := x.st.(heap := SetCar(x.st.heap, Ref(a + 1), x.res.value));
      ReplaceAbove(st, x.st, s2.heap);
      assert x.st.heap[a] == s1.heap[a] && x.st.heap[a + 1] == s1.heap[a + 1];
      if pending.Some? then
        KeptBinding(s1.session.backrefs, x.st.session.backrefs, pending.value);
        Step(Ok(Ref(a)), s2)
      else Step(Ok(Ref(a)), s2)
  }

  /** Allocating cells and binding a label not yet bound extends the state. */
  lemma BindFresh(st: State, cells: seq<Cell>, pending: Option<Value>, v: Value)
    requires Unbound(st, pending)
    ensures Extends(st, Bind(st.(heap := st.heap + cells), pending, v))
  {
    if pending.Some? {
      NewKeyKeeps(st.session.backrefs, pending.value, v);
    }
  }

  /** Rewriting cells allocated after `st` keeps the extension. */
  lemma ReplaceAbove(st: State, x: State, heap': seq<Cell>)
    requires Extends(st, x) && |heap'| == |x.heap|
    requires forall i :: 0 <= i < |st.heap| ==> heap'[i] == x.heap[i]
    ensures Extends(st, x.(heap := heap'))
  {
    assert heap'[..|st.heap|] == x.heap[..|st.heap|];
  }

  /** `#n=`: the label must be new; the datum is read with the label pending, and the label
      is bound to the datum read. */
  function LabelForm(st: State, h: Hooks, n: Value): (r: Step<Value>)
    requires Wf(st)
    ensures ReadPost(st, r)
    ensures r.res.Ok? ==> r.st.tok == TokNone
    ensures n in st.session.backrefs ==> r == Step(Err(LabelRedefined(LabelNumber(n))), st)
    ensures r.res.Ok? ==> n !in st.session.backrefs && n in r.st.session.backrefs
                          && r.st.session.backrefs[n] == r.res.value
    decreases Measure(st), 4
  {
    if n in st.session.backrefs then Step(Err(LabelRedefined(LabelNumber(n))), st)
    else
      var v := DoRead(st, h, Some(n));
      if v.res.Err? then v
      else Step(Ok(v.res.value), Bind(v.st, Some(n), v.res.value))
  }

  /** `"..."`: the string literal's bytes as a string value. */
  function StringForm(st: State): (r: Step<Value>)
    requires Wf(st) && st.tok == TokNone
    ensures ReadPost(st, r)
    ensures r.res.Ok? ==> r.st.tok == TokNone
  {
    var q := ReadString(st);
    if q.res.Err? then Step(Err(q.res.error), q.st) else Step(Ok(Str(q.res.value)), q.st)
  }

  /** `#n#`: the value the label is bound to, or "undefined label". */
  function BackrefForm(st: State, n: Value): (r: Step<Value>)
    requires Wf(st)
    ensures r.st == st
    ensures r.res.Ok? <==> n in st.session.backrefs
    ensures r.res.Ok? ==> r.res.value == st.session.backrefs[n]
    ensures r.res.Err? ==> r.res.error == UndefinedLabel(LabelNumber(n))
  {
    if n in st.session.backrefs then Step(Ok(st.session.backrefs[n]), st)
    else Step(Err(UndefinedLabel(LabelNumber(n))), st)
  }

  /** `#:n`: the session's gensym for `n`, made on first use. */
  function GensymForm(st: State, n: Value): (r: Step<Value>)
    requires Wf(st)
    ensures r.st == st.(session := r.st.session, gensymCount := r.st.gensymCount)
    ensures Extends(st, r.st)
    ensures r.res.Ok?
    ensures r.st.session.gensyms == st.session.gensyms[n := r.res.value]
    ensures n in st.session.gensyms ==> r.res.value == st.session.gensyms[n] && r.st == st
    ensures n !in st.session.gensyms ==>
      r.res.value == GenSym(st.gensymCount) && r.st.gensymCount == st.gensymCount + 1
  {
    if n in st.session.gensyms then Step(Ok(st.session.gensyms[n]), st)
    else
      var g := GenSym(st.gensymCount);
      Step(Ok(g), st.(session := st.session.(gensyms := st.session.gensyms[n := g]),
                      gensymCount := st.gensymCount + 1))
  }

  /** `#.x`: read `x` without the pending label, then evaluate it. */
  function SharpDotForm(st: State, h: Hooks): (r: Step<Value>)
    requires Wf(st)
    ensures ReadPost(st, r)
    ensures r.res.Ok? ==> r.st.tok == TokNone
    decreases Measure(st), 4
  {
    var x := DoRead(st, h, None);
    if x.res.Err? then x
    else match h.eval(x.st.heap, x.res.value)
      case None => Step(Err(EvaluationFailed), x.st)
      case Some(v) => Step(Ok(v), x.st)
  }

  /** `#name(args)`: the argument list is read as a list, then the constructor applied. */
  function SharpSymForm(st: State, h: Hooks, name: Value): (r: Step<Value>)
    requires Wf(st)
    ensures ReadPost(st, r)
    ensures r.res.Ok? ==> r.st.tok == TokNone
    decreases Measure(st), 9
  {
    var args := ReadList(st, h, None);
    if args.res.Err? then args
    else match h.apply(args.st.heap, name, args.res.value)
      case None => Step(Err(EvaluationFailed), args.st)
      case Some(v) => Step(Ok(v), args.st)
  }

  /** `read_list`, after the opening parenthesis. */
  function ReadList(st: State, h: Hooks, pending: Option<Value>): (r: Step<Value>)
    requires Wf(st) && Unbound(st, pending)
    ensures ReadPost(st, r)
    ensures r.res.Ok? ==> r.st.tok == TokNone
    ensures r.res.Ok? && r.res.value != Nil ==>
      && r.res.value == Ref(|st.heap|) && |st.heap| < |r.st.heap|
      && r.st.heap[|st.heap|].Cons?
      && BoundTo(r.st, pending, r.res.value)
    decreases Measure(st), 8
  {
    var p := Peek(st, h);
    if p.res.Err? then Step(Err(p.res.error), p.st)
    else ReadListLoop(p.st, h, p.res.value, Nil, Nil, pending)
  }

  /** What the list loop keeps: before the first cons everything is extended; once the
      list has begun, only the cells below its first cons are known to be unchanged. */
  ghost predicate LoopPost(st: State, r: Step<Value>, first: Value)
  {
    && Wf(st) && Wf(r.st) && Measure(r.st) <= Measure(st)
    && (first.Nil? ==> Extends(st, r.st))
    && (first.Ref? && first.addr <= |st.heap| ==> ExtendsFrom(st, r.st, first.addr))
    && (r.res.Ok? ==> r.st.tok == TokNone)
  }

  /** The list so far starts at `first` and ends at `pc`, both conses. */
  predicate ListSoFar(st: State, pc: Value, first: Value)
  {
    && pc.Ref? && first.Ref? && first.addr <= pc.addr < |st.heap|
    && st.heap[pc.addr].Cons? && st.heap[first.addr].Cons?
  }

  /** The loop of `read_list`. `t` is the token just peeked, `pc` the last cons so far
      (`Nil` before the first), `first` the list's head. */
  function ReadListLoop(st: State, h: Hooks, t: TokKind, pc: Value, first: Value, pending: Option<Value>)
    : (r: Step<Value>)
    requires Wf(st) && st.tok == t && (t == TokNone ==> st.eof)
    requires pc.Nil? || pc.Ref?
    requires pc.Nil? ==> first.Nil? && Unbound(st, pending)
    requires pc.Ref? ==> ListSoFar(st, pc, first)
    ensures LoopPost(st, r, first)
    ensures first.Ref? ==> first.addr < |r.st.heap| && r.st.heap[first.addr].Cons?
    ensures r.res.Ok? && pc.Ref? ==> r.res.value == first
    ensures r.res.Ok? && pc.Nil? && r.res.value != Nil ==>
      && r.res.value == Ref(|st.heap|) && |st.heap| < |r.st.heap|
      && r.st.heap[|st.heap|].Cons?
      && BoundTo(r.st, pending, r.res.value)
    decreases Measure(st), 5
  {
    if t == TokClose then Step(Ok(first), Take(st))
    else if st.eof then Step(Err(UnexpectedEof), st)
    else ListCell(st, h, pc, first, pending)
  }

  /** One element: a new cons is linked after `pc` (or becomes the head, and the label is
      bound to it), then its car is read. */
  function ListCell(st: State, h: Hooks, pc: Value, first: Value, pending: Option<Value>): (r: Step<Value>)
    requires Wf(st) && st.tok != TokNone
    requires pc.Nil? || pc.Ref?
    requires pc.Nil? ==> first.Nil? && Unbound(st, pending)
    requires pc.Ref? ==> ListSoFar(st, pc, first)
    ensures LoopPost(st, r, first)
    ensures first.Ref? ==> first.addr < |r.st.heap| && r.st.heap[first.addr].Cons?
    ensures r.res.Ok? && pc.Ref? ==> r.res.value == first
    ensures r.res.Ok? && pc.Nil? ==>
      && r.res.value == Ref(|st.heap|) && |st.heap| < |r.st.heap|
      && r.st.heap[|st.heap|].Cons?
      && BoundTo(r.st, pending, r.res.value)
    decreases Measure(st), 4
  {
    var a := |st.heap|;
    var first1 := if pc.Ref? then first else Ref(a);
    var s1 := Link(st, pc, pending);
    LinkFacts(st, s1, pc, first, pending);
    var car := DoRead(s1, h, None);
    if car.res.Err? then
      CellError(st, s1, car.st, first);
      Step(Err(car.res.error), car.st)
    else
      var s2 := car.st.(heap := SetCar(car.st.heap, Ref(a), car.res.value));
      CellFacts(st, s1, car.st, s2, car.res.value, first, first1, pending);
      var r := ListTail(s2, h, a, first1);
      TailFacts(st, s2, r, first, first1, pending);
      r
  }

  /** After an element: a dotted tail, the end, or the next element. */
  function ListTail(st: State, h: Hooks, a: nat, first: Value): (r: Step<Value>)
    requires Wf(st) && ListSoFar(st, Ref(a), first)
    ensures LoopPost(st, r, first)
    ensures r.st.heap[first.addr].Cons?
    ensures r.res.Ok? ==> r.res.value == first
    decreases Measure(st), 6
  {
    var q := Peek(st, h);
    if q.res.Err? then Step(Err(q.res.error), q.st)
    else if q.res.value == TokDot then
      var r := ListDot(Take(q.st), h, a, first);
      assert ExtendsFrom(st, Take(q.st), first.addr);
      ExtendsFromTransitive(st, Take(q.st), r.st, first.addr);
      r
    else ReadListLoop(q.st, h, q.res.value, Ref(a), first, None)
  }

  /** The dotted tail of a list: one datum becomes the last cdr, and `)` must follow. */
  function ListDot(st: State, h: Hooks, a: nat, first: Value): (r: Step<Value>)
    requires Wf(st) && ListSoFar(st, Ref(a), first)
    ensures LoopPost(st, r, first)
    ensures r.st.heap[first.addr].Cons?
    ensures r.res.Ok? ==> r.res.value == first
    decreases Measure(st), 4
  {
    var d := DoRead(st, h, None);
    if d.res.Err? then
      ExtendsWeaken(st, d.st, first.addr);
      assert d.st.heap[first.addr] == st.heap[first.addr];
      Step(Err(d.res.error), d.st)
    else
      var s3 := d.st.(heap := SetCdr(d.st.heap, Ref(a), d.res.value));
      DotFacts(st, d.st, s3, d.res.value, a, first);
      var q2 := Peek(s3, h);
      if q2.res.Err? then Step(Err(q2.res.error), q2.st)
      else if q2.st.eof then Step(Err(UnexpectedEof), q2.st)
      else if q2.res.value != TokClose then Step(Err(ExpectedClose), q2.st)
      else Step(Ok(first), Take(q2.st))
  }

  /** A fresh cons `(nil . nil)` at the end of the arena, linked as the cdr of `pc`, or,
      before the first element, the head of the list with the label bound to it. */
  function Link(st: State, pc: Value, pending: Option<Value>): (s1: State)
  {
    var a := |st.heap|;
    var heap1 := SetCdr(st.heap + [Cons(Nil, Nil)], pc, Ref(a));
    if pc.Ref? then st.(heap := heap1) else Bind(st.(heap := heap1), pending, Ref(a))
  }

  lemma LinkFacts(st: State, s1: State, pc: Value, first: Value, pending: Option<Value>)
    requires Wf(st) && (pc.Nil? || pc.Ref?) && (pc.Nil? ==> first.Nil? && Unbound(st, pending))
    requires pc.Ref? ==> ListSoFar(st, pc, first)
    requires s1 == Link(st, pc, pending)
    ensures Wf(s1) && Measure(s1) == Measure(st) && |s1.heap| == |st.heap| + 1
    ensures s1.heap[|st.heap|] == Cons(Nil, Nil)
    ensures pc.Nil? ==> Extends(st, s1) && BoundTo(s1, pending, Ref(|st.heap|))
    ensures pc.Ref? ==> ExtendsFrom(st, s1, first.addr) && ListSoFar(s1, pc, first)
    ensures pc.Ref? ==> s1.heap[..pc.addr] == st.heap[..pc.addr]
                        && s1.heap[pc.addr] == st.heap[pc.addr].(cdr := Ref(|st.heap|))
  {
    if pc.Nil? {
      BindFresh(st, [Cons(Nil, Nil)], pending, Ref(|st.heap|));
    } else {
      assert s1.heap[..first.addr] == st.heap[..first.addr];
      assert s1.heap[..pc.addr] == st.heap[..pc.addr];
    }
  }

  lemma CellError(st: State, s1: State, x: State, first: Value)
    requires Wf(st) && Wf(s1) && Wf(x) && Extends(s1, x) && Measure(s1) == Measure(st)
    requires first.Nil? ==> Extends(st, s1)
    requires first.Ref? ==> ExtendsFrom(st, s1, first.addr) && ListSoFar(s1, Ref(first.addr), first)
    ensures first.Nil? ==> Extends(st, x)
    ensures first.Ref? ==> ExtendsFrom(st, x, first.addr) && x.heap[first.addr].Cons?
  {
    if first.Ref? {
      ExtendsWeaken(s1, x, first.addr);
    }
  }

  lemma CellFacts(st: State, s1: State, x: State, s2: State, v: Value, first: Value, first1: Value, pending: Option<Value>)
    requires Wf(st) && Wf(s1) && Wf(x) && Extends(s1, x) && |s1.heap| == |st.heap| + 1
    requires s1.heap[|st.heap|] == Cons(Nil, Nil)
    requires first.Nil? ==> Extends(st, s1) && BoundTo(s1, pending, Ref(|st.heap|)) && first1 == Ref(|st.heap|)
    requires first.Ref? ==> ExtendsFrom(st, s1, first.addr) && first1 == first
                            && ListSoFar(s1, Ref(first.addr), first) && first.addr < |st.heap|
    requires first.Nil? || first.Ref?
    requires s2 == x.(heap := SetCar(x.heap, Ref(|st.heap|), v))
    ensures Wf(s2) && Measure(s2) == Measure(x)
    ensures ListSoFar(s2, Ref(|st.heap|), first1)
    ensures first.Nil? ==> ExtendsFrom(st, s2, |st.heap|) && BoundTo(s2, pending, first1)
    ensures first.Ref? ==> ExtendsFrom(st, s2, first.addr)
  {
    var a := |st.heap|;
    assert x.heap[a] == s1.heap[a];
    if first.Nil? {
      assert s2.heap[..a] == x.heap[..a] == st.heap[..a];
      if pending.Some? {
        KeptBinding(s1.session.backrefs, x.session.backrefs, pending.value);
      }
    } else {
      assert x.heap[first.addr] == s1.heap[first.addr];
      assert s2.heap[..first.addr] == x.heap[..first.addr] == s1.heap[..first.addr];
    }
  }

  lemma TailFacts(st: State, s2: State, r: Step<Value>, first: Value, first1: Value, pending: Option<Value>)
    requires Wf(st) && Wf(s2) && Measure(s2) < Measure(st) && (first.Nil? || first.Ref?)
    requires first.Nil? ==> ExtendsFrom(st, s2, |st.heap|) && BoundTo(s2, pending, first1)
                            && first1 == Ref(|st.heap|)
    requires first.Ref? ==> ExtendsFrom(st, s2, first.addr) && first1 == first
    requires first1.Ref? && first1.addr < |s2.heap|
    requires LoopPost(s2, r, first1)
    ensures LoopPost(st, r, first)
    ensures first1.Ref? ==> first1.addr < |r.st.heap|
    ensures first.Nil? ==> BoundTo(r.st, pending, first1)
  {
    if first.Nil? {
      ExtendsFromTransitive(st, s2, r.st, |st.heap|);
      assert st.heap <= r.st.heap by {
        assert r.st.heap[..|st.heap|] == st.heap[..|st.heap|];
      }
      if pending.Some? {
        KeptBinding(s2.session.backrefs, r.st.session.backrefs, pending.value);
      }
    } else {
      ExtendsFromTransitive(st, s2, r.st, first.addr);
    }
  }

  lemma DotFacts(st: State, x: State, s3: State, v: Value, a: nat, first: Value)
    requires Wf(st) && ListSoFar(st, Ref(a), first) && Wf(x) && Extends(st, x)
    requires s3 == x.(heap := SetCdr(x.heap, Ref(a), v))
    ensures Wf(s3) && Measure(s3) == Measure(x)
    ensures ExtendsFrom(st, s3, first.addr) && s3.heap[first.addr].Cons?
  {
    assert x.heap[a] == st.heap[a] && x.heap[first.addr] == st.heap[first.addr];
    assert s3.heap[..first.addr] == x.heap[..first.addr] == st.heap[..first.addr];
  }

  /** `read_vector`, after the opening bracket; only `closer` ends it. */
  function ReadVector(st: State, h: Hooks, pending: Option<Value>, closer: TokKind): (r: Step<Value>)
    requires Wf(st) && Unbound(st, pending)
    ensures ReadPost(st, r)
    ensures r.res.Ok? ==> r.st.tok == TokNone
    ensures r.res.Ok? ==>
      && r.res.value == Ref(|st.heap|) && |st.heap| < |r.st.heap|
      && r.st.heap[|st.heap|].Vector?
      && BoundTo(r.st, pending, r.res.value)
    decreases Measure(st), 8
  {
    var a := |st.heap|;
    var s1 := Bind(st.(heap := st.heap + [Vector(FreshSlots)]), pending, Ref(a));
    BindFresh(st, [Vector(FreshSlots)], pending, Ref(a));
    var r := VectorNext(s1, h, closer, a, 0);
    assert r.st.heap[..a] == st.heap;
    if pending.Some? then
      KeptBinding(s1.session.backrefs, r.st.session.backrefs, pending.value);
      r
    else r
  }

  /** `vector_grow`: the vector at `a` doubled in place, new slots `NIL`. */
  function Grow(heap: seq<Cell>, a: nat): (h: seq<Cell>)
    requires a < |heap| && heap[a].Vector?
    ensures |h| == |heap| && h[a].Vector?
    ensures forall b :: 0 <= b < |heap| && b != a ==> h[b] == heap[b]
    ensures |h[a].elts| > |heap[a].elts| && h[a].elts[..|heap[a].elts|] == heap[a].elts
  {
    var elts := heap[a].elts;
    heap[a := Vector(elts + seq(|elts| + 1, _ => Nil))]
  }

  /** The vector at `a` is being filled: `i` slots so far. */
  predicate VectorSoFar(st: State, a: nat, i: nat)
  {
    a < |st.heap| && st.heap[a].Vector? && i <= |st.heap[a].elts|
  }

  /** The loop of `read_vector`: `i` elements stored so far in the vector at `a`. */
  function ReadVectorLoop(st: State, h: Hooks, t: TokKind, closer: TokKind, a: nat, i: nat): (r: Step<Value>)
    requires Wf(st) && st.tok == t && (t == TokNone ==> st.eof)
    requires VectorSoFar(st, a, i)
    ensures LoopPost(st, r, Ref(a)) && VectorSoFar(r.st, a, 0)
    ensures r.res.Ok? ==> r.res.value == Ref(a)
    decreases Measure(st), 6
  {
    if t == closer then
      Step(Ok(Ref(a)), Take(st).(heap := st.heap[a := Vector(st.heap[a].elts[..i])]))
    else if st.eof then Step(Err(UnexpectedEof), st)
    else VectorElement(st, h, closer, a, i)
  }

  /** One pass of the loop: an element into slot `i`, then the next token. */
  function VectorElement(st: State, h: Hooks, closer: TokKind, a: nat, i: nat): (r: Step<Value>)
    requires Wf(st) && st.tok != TokNone && VectorSoFar(st, a, i)
    ensures LoopPost(st, r, Ref(a)) && VectorSoFar(r.st, a, 0)
    ensures r.res.Ok? ==> r.res.value == Ref(a)
    decreases Measure(st), 5
  {
    var x := ReadElement(st, h, a, i);
    if x.res.Err? then Step(Err(x.res.error), x.st)
    else
      var r := VectorNext(x.st, h, closer, a, i + 1);
      ExtendsFromTransitive(st, x.st, r.st, a);
      r
  }

  /** One element of a vector: grow when full, read a datum, store it in slot `i`. */
  function ReadElement(st: State, h: Hooks, a: nat, i: nat): (r: Step<Value>)
    requires Wf(st) && st.tok != TokNone && VectorSoFar(st, a, i)
    ensures Wf(r.st) && Measure(r.st) < Measure(st) && ExtendsFrom(st, r.st, a)
    ensures VectorSoFar(r.st, a, if r.res.Ok? then i + 1 else 0)
    ensures r.res.Ok? ==> r.st.tok == TokNone && r.st.heap[a].elts[i] == r.res.value
    decreases Measure(st), 4
  {
    var s1 := if i >= |st.heap[a].elts| then st.(heap := Grow(st.heap, a)) else st;
    GrowFacts(st, s1, a, i);
    var x := DoRead(s1, h, None);
    if x.res.Err? then
      ElementError(st, s1, x.st, a);
      x
    else
      var s2 := x.st.(heap := x.st.heap[a := Vector(x.st.heap[a].elts[i := x.res.value])]);
      StoreFacts(st, s1, x.st, s2, a, i, x.res.value);
      Step(x.res, s2)
  }

  /** After an element: peek at the token that decides whether the vector goes on. */
  function VectorNext(st: State, h: Hooks, closer: TokKind, a: nat, i: nat): (r: Step<Value>)
    requires Wf(st) && VectorSoFar(st, a, i)
    ensures LoopPost(st, r, Ref(a)) && VectorSoFar(r.st, a, 0)
    ensures r.res.Ok? ==> r.res.value == Ref(a)
    decreases Measure(st), 7
  {
    var q := Peek(st, h);
    if q.res.Err? then Step(Err(q.res.error), q.st)
    else
      var r := ReadVectorLoop(q.st, h, q.res.value, closer, a, i);
      ExtendsFromTransitive(st, q.st, r.st, a);
      r
  }

  lemma GrowFacts(st: State, s1: State, a: nat, i: nat)
    requires Wf(st) && VectorSoFar(st, a, i)
    requires s1 == if i >= |st.heap[a].elts| then st.(heap := Grow(st.heap, a)) else st
    ensures Wf(s1) && Measure(s1) == Measure(st) && s1.tok == st.tok
    ensures ExtendsFrom(st, s1, a) && VectorSoFar(s1, a, i) && i < |s1.heap[a].elts|
  {
    assert s1.heap[..a] == st.heap[..a];
  }

  lemma ElementError(st: State, s1: State, x: State, a: nat)
    requires ExtendsFrom(st, s1, a) && VectorSoFar(s1, a, 0) && Extends(s1, x)
    ensures ExtendsFrom(st, x, a) && VectorSoFar(x, a, 0)
  {
    assert x.heap[a] == s1.heap[a];
    assert x.heap[..a] == s1.heap[..a];
  }

  lemma StoreFacts(st: State, s1: State, x: State, s2: State, a: nat, i: nat, v: Value)
    requires Wf(x) && ExtendsFrom(st, s1, a) && VectorSoFar(s1, a, i) && i < |s1.heap[a].elts|
    requires Extends(s1, x)
    requires s2 == x.(heap := x.heap[a := Vector(x.heap[a].elts[i := v])])
    ensures Wf(s2) && Measure(s2) == Measure(x)
    ensures ExtendsFrom(st, s2, a) && VectorSoFar(s2, a, i + 1)
  {
    assert x.heap[a] == s1.heap[a];
    assert s2.heap[..a] == x.heap[..a] == s1.heap[..a];
  }

  /** `read_sexpr`: a fresh session for one datum; the previous session is put back when
      the read returns normally. On an error the fresh session is left in place. */
  function ReadSexpr(st: State, h: Hooks): (r: Step<Value>)
    requires Wf(st)
    ensures Wf(r.st) && r.st.input == st.input && Measure(r.st) <= Measure(st)
    ensures r.res.Ok? ==> r.st.session == st.session && r.st.tok == TokNone
    ensures r.res.Ok? ==> |r.st.heap| >= |st.heap| && r.st.heap[..|st.heap|] == st.heap
  {
    var v := DoRead(st.(session := EmptySession), h, None);
    if v.res.Err? then v else Step(v.res, v.st.(session := st.session))
  }
}
