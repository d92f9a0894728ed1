/** `read_string` as a function of the reader state: the bytes of a string literal after
    its opening `"`, with backslash escapes expanded. */
module StringLiteral {
  import opened Errors
  import opened Chars
  import opened Utf8
  import opened Numbers
  import opened ReaderState
  import opened Lexer

  /** More octal digits after the first: at most three in all. The character that ends
      the run is pushed back unless it was EOF. */
  function OctalRun(st: State, digits: string): (r: (string, State))
    requires Wf(st) && 1 <= |digits| <= 3
    requires forall k :: 0 <= k < |digits| ==> IsOctalDigit(digits[k])
    ensures SameButCursor(st, r.1) && r.1.pos >= st.pos
    ensures 1 <= |r.0| <= 3 && digits <= r.0
    ensures forall k :: 0 <= k < |r.0| ==> IsOctalDigit(r.0[k])
    decreases 3 - |digits|
  {
    var (ch, s1) := Getc(st);
    if ch.Char? && IsOctalDigit(ch.c) && |digits| < 3 then OctalRun(s1, digits + [ch.c])
    else (digits, if ch.Char? then Ungetc(s1) else s1)
  }

  /** Up to `ndig` hex digits; the character that ends the run is pushed back unless it
      was EOF. */
  function HexRun(st: State, ndig: nat, digits: string): (r: (string, State))
    requires Wf(st) && |digits| <= ndig
    requires forall k :: 0 <= k < |digits| ==> IsHexDigit(digits[k])
    ensures SameButCursor(st, r.1) && r.1.pos >= st.pos
    ensures |r.0| <= ndig && digits <= r.0
    ensures forall k :: 0 <= k < |r.0| ==> IsHexDigit(r.0[k])
    decreases ndig - |digits|
  {
    var (ch, s1) := Getc(st);
    if ch.Char? && IsHexDigit(ch.c) && |digits| < ndig then HexRun(s1, ndig, digits + [ch.c])
    else (digits, if ch.Char? then Ungetc(s1) else s1)
  }

  /** The number of hex digits `\x`, `\u` and `\U` take. */
  function HexWidth(c: char): nat
  {
    if c == 'x' then 2 else if c == 'u' then 4 else 8
  }

  /** The single-character escapes and their byte values. */
  function NamedEscape(c: char): (b: Byte)
  {
    match c
    case 'n' => 10
    case 't' => 9
    case 'r' => 13
    case 'b' => 8
    case 'f' => 12
    case 'v' => 11
    case 'a' => 7
    case _ => ToByte(c)
  }

  /** The bytes one escape stands for; `c` is the character after the backslash. */
  function Escape(st: State, c: char): (r: (seq<Byte>, State))
    requires Wf(st)
    ensures SameButCursor(st, r.1) && r.1.pos >= st.pos
    ensures |r.0| <= 4
  {
    if IsOctalDigit(c) then
      var (ds, s1) := OctalRun(st, [c]);
      (Encode(DigitsValue(ds, 8)), s1)
    else if c == 'x' || c == 'u' || c == 'U' then
      var (ds, s1) := HexRun(st, HexWidth(c), []);
      (Encode(if ds == [] then c as int else DigitsValue(ds, 16)), s1)
    else ([NamedEscape(c)], st)
  }

  /** One pass of the loop of `read_string`: `None` at the closing `"`, otherwise the
      bytes of one character or one escape. */
  function ReadStringStep(st: State): (r: Step<Option<seq<Byte>>>)
    requires Wf(st)
    ensures SameButCursor(st, r.st) && r.st.pos >= st.pos
    ensures r.res.Ok? ==> r.st.pos > st.pos
  {
    var (ch, s1) := Getc(st);
    match ch
    case Eof => Step(Err(EofInString), s1)
    case Char(c) =>
      if c == '"' then Step(Ok(None), s1)
      else if c == '\\' then
        var (e, s2) := Getc(s1);
        if e.Eof? then Step(Err(EofInEscape), s2)
        else
          var (bs, s3) := Escape(s2, e.c);
          Step(Ok(Some(bs)), s3)
      else Step(Ok(Some([ToByte(c)])), s1)
  }

  /** The loop of `read_string`: `acc` holds the bytes so far. */
  function ReadStringLoop(st: State, acc: seq<Byte>): (r: Step<seq<Byte>>)
    requires Wf(st)
    ensures SameButCursor(st, r.st) && r.st.pos >= st.pos
    ensures r.res.Ok? ==> acc <= r.res.value && r.st.pos > st.pos
    decreases |st.input| - st.pos
  {
    var p := ReadStringStep(st);
    match p.res
    case Err(e) => Step(Err(e), p.st)
    case Ok(None) => Step(Ok(acc), p.st)
    case Ok(Some(bs)) => ReadStringLoop(p.st, acc + bs)
  }

  /** `read_string`: called after the opening `"`. */
  function ReadString(st: State): (r: Step<seq<Byte>>)
    requires Wf(st)
    ensures SameButCursor(st, r.st) && r.st.pos >= st.pos
    ensures r.res.Ok? ==> r.st.pos > st.pos
  {
    ReadStringLoop(st, [])
  }
}
