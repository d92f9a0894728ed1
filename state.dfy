/** The state the C reader keeps in globals and in its `FILE*`: the input with a cursor
    and the end-of-file indicator, the one-token lookahead (`toktype`, `tokval`), the heap
    of conses and vectors (an arena addressed by stable indices), the current read
    session (`readstate`) and the counter behind `gensym`. */
module ReaderState {
  import opened Errors
  import opened Chars
  import opened Utf8
  import opened Numbers

  /** Values the reader produces. `Ref` points at a heap cell; symbols are kept by name,
      gensyms by a fresh identity, characters as a code point plus the wide flag. */
  datatype Value =
    | Nil
    | Sym(name: string)
    | GenSym(id: nat)
    | Fixnum(n: int)
    | Flonum(text: string, single: bool)
    | Character(cp: nat, wide: bool)
    | Str(bytes: seq<Byte>)
    | Ref(addr: nat)

  datatype Cell = Cons(car: Value, cdr: Value) | Vector(elts: seq<Value>)

  /** A read session: label table (`#n=`/`#n#`) and gensym table (`#:n`), both keyed on the
      token value, as the C hash tables are keyed on the `value_t` itself. */
  datatype Session = Session(backrefs: map<Value, Value>, gensyms: map<Value, Value>)

  const EmptySession := Session(map[], map[])

  /** The number `numval` gives a label's value in an error message: the fixnum's number,
      and nothing the model can render for any other value. */
  function LabelNumber(v: Value): (r: Option<int>)
    ensures r.Some? <==> v.Fixnum?
    ensures v.Fixnum? ==> r.value == v.n
  {
    if v.Fixnum? then Some(v.n) else None
  }

  datatype TokKind =
    | TokNone | TokOpen | TokClose | TokDot | TokQuote | TokSym | TokNum
    | TokBackquote | TokComma | TokCommaAt | TokCommaDot
    | TokSharpDot | TokLabel | TokBackref | TokSharpQuote | TokSharpOpen
    | TokOpenB | TokCloseB | TokSharpSym | TokGensym | TokDoubleQuote

  datatype State = State(
    input: string,
    pos: nat,
    eof: bool,
    tok: TokKind,
    tokval: Value,
    heap: seq<Cell>,
    session: Session,
    gensymCount: nat)

  /** A result together with the state reached, on success and on failure alike. */
  datatype Step<+T> = Step(res: Result<T>, st: State)

  /** Collaborators outside the reader: `strtod`, `toplevel_eval` for `#.`, and
      `apply(symbol_value(name), args)` for `#name(...)`. `None` means the collaborator
      raised an error. */
  datatype Hooks = Hooks(
    strtod: FloatScanner,
    eval: (seq<Cell>, Value) -> Option<Value>,
    apply: (seq<Cell>, Value, Value) -> Option<Value>)

  /** The cursor is inside the input, and the end-of-file indicator can only be set at the end. */
  predicate Wf(st: State)
  {
    st.pos <= |st.input| && (st.eof ==> st.pos == |st.input|)
  }

  /** Input still to be consumed, counting a cached token as one more unit. */
  function Measure(st: State): nat
    requires Wf(st)
  {
    |st.input| - st.pos + (if st.tok != TokNone then 1 else 0)
  }

  /** A reader at the start of `input`: nothing read, no token cached, an empty heap and a
      fresh session. */
  function Start(input: string): (st: State)
    ensures Wf(st) && Measure(st) == |input|
  {
    State(input, 0, false, TokNone, Nil, [], EmptySession, 0)
  }

  /** One result of `fgetc`. */
  datatype Ch = Eof | Char(c: char)

  /** `(char)ch` without an EOF check. */
  function AsChar(ch: Ch): char
  {
    if ch.Eof? then EofChar else ch.c
  }

  /** `fgetc`: the next character, or EOF and the end-of-file indicator set. */
  function Getc(st: State): (r: (Ch, State))
    requires Wf(st)
    ensures Wf(r.1) && r.1 == st.(pos := r.1.pos, eof := r.1.eof)
    ensures r.0.Char? <==> st.pos < |st.input|
    ensures r.0.Char? ==> r.0.c == st.input[st.pos] && r.1.pos == st.pos + 1 && r.1.eof == st.eof
    ensures r.0.Eof? ==> r.1.pos == st.pos && r.1.eof
  {
    if st.pos < |st.input| then (Char(st.input[st.pos]), st.(pos := st.pos + 1))
    else (Eof, st.(eof := true))
  }

  /** `ungetc` of the character just read: the cursor steps back by one and the
      end-of-file indicator is cleared. */
  function Ungetc(st: State): (r: State)
    requires Wf(st)
    ensures Wf(r) && r == st.(pos := r.pos, eof := false)
    ensures r.pos == if st.pos > 0 then st.pos - 1 else 0
  {
    st.(pos := if st.pos > 0 then st.pos - 1 else 0, eof := false)
  }

  /** `ungetc(c, f)` for a `char` `c` just read. The byte 0xFF as a signed `char` is -1,
      which is `EOF`, and `ungetc(EOF, f)` fails: that byte stays consumed and the stream
      is left as it was. Any other character is pushed back. */
  function UngetcChar(st: State, c: char): (r: State)
    requires Wf(st)
    ensures Wf(r) && r == st.(pos := r.pos, eof := r.eof)
    ensures c == EofChar ==> r == st
    ensures c != EofChar ==> r == Ungetc(st)
  {
    if c == EofChar then st else Ungetc(st)
  }

  /** `take`: drop the cached token. */
  function Take(st: State): (r: State)
    ensures r.tok == TokNone && r == st.(tok := TokNone)
  {
    st.(tok := TokNone)
  }

  /** The byte a stream character stands for. */
  function ToByte(c: char): Byte
  {
    (c as int % 256) as Byte
  }

  /** The heap and the session are as they were, and nothing already in them changed
      when the heap only grew. */
  ghost predicate Extends(st: State, st': State)
  {
    && st'.input == st.input
    && st.heap <= st'.heap
    && Keeps(st.session.backrefs, st'.session.backrefs)
    && Keeps(st.session.gensyms, st'.session.gensyms)
    && st'.gensymCount >= st.gensymCount
  }

  /** Like `Extends`, but only the cells below `lo` are known to be unchanged. */
  ghost predicate ExtendsFrom(st: State, st': State, lo: nat)
  {
    && st'.input == st.input
    && lo <= |st.heap| <= |st'.heap|
    && st'.heap[..lo] == st.heap[..lo]
    && Keeps(st.session.backrefs, st'.session.backrefs)
    && Keeps(st.session.gensyms, st'.session.gensyms)
    && st'.gensymCount >= st.gensymCount
  }

  lemma ExtendsTransitive(a: State, b: State, c: State)
    requires Extends(a, b) && Extends(b, c)
    ensures Extends(a, c)
  {
  }

  lemma ExtendsFromTransitive(a: State, b: State, c: State, lo: nat)
    requires ExtendsFrom(a, b, lo) && ExtendsFrom(b, c, lo)
    ensures ExtendsFrom(a, c, lo)
  {
  }

  /** Growing the heap without touching its first `lo` cells. */
  lemma ExtendsWeaken(a: State, b: State, lo: nat)
    requires Extends(a, b) && lo <= |a.heap|
    ensures ExtendsFrom(a, b, lo)
  {
    assert b.heap[..lo] == a.heap[..lo];
  }

  /** Every binding of `m` is also a binding of `m'`. */
  ghost predicate Keeps(m: map<Value, Value>, m': map<Value, Value>)
  {
    forall k :: k in m ==> k in m' && m'[k] == m[k]
  }

  /** A binding already present survives any extension. */
  lemma KeptBinding(m: map<Value, Value>, m': map<Value, Value>, k: Value)
    requires Keeps(m, m') && k in m
    ensures k in m' && m'[k] == m[k]
  {
  }

  /** Adding a new key keeps every existing binding. */
  lemma NewKeyKeeps(m: map<Value, Value>, k: Value, v: Value)
    requires k !in m
    ensures Keeps(m, m[k := v])
  {
  }
}
