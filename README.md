# femtolisp reader in Dafny

This project models the s-expression reader of femtolisp (`femtolisp/read.c`) and proves
properties of it. The reader turns a character stream into one datum per call of
`read_sexpr`:

- the **lexer** (`symchar`, `isnumtok`, `nextchar`, `read_token` with `accumchar`, `peek`
  with its one-token cache and `take`) splits the input into tokens;
- the **parser** (`do_read_sexpr`, `read_list`, `read_vector`, `read_string`) builds conses,
  vectors, strings, symbols and numbers from them, expands the quote sugar
  (`'x` `` `x `` `,x` `,@x` `,.x`), and handles the `#` read macros: `#n=`/`#n#` labels,
  `#:n` gensyms, `#'x`, `#.x`, `#name(...)`, `#(...)`, `#\c`, and `#!`/`#|...|#` comments;
- `read_sexpr` gives every top-level read fresh label and gensym tables and restores the
  previous ones afterwards.

The model has two layers.

1. **Functions of the reader state.** `State` holds the input, the cursor, the
   end-of-file indicator, the token cache (`toktype`, `tokval`), a heap arena of cells
   (`Cons` and `Vector`, addressed by `Ref`), the current session's label and gensym
   tables, and the gensym counter. Every C function becomes a function from a state to
   a `Step` (a `Result` and the next state). These live in modules `Lexer`,
   `StringLiteral` and `Parser`. A C `lerror` becomes an `Err` result naming the message.
2. **The class `Reading.Reader`.** It holds the same fields, plus the 256-character token
   buffer `buf` as an array. Its methods run the loops of the C code (`nextchar`,
   `read_token`, `read_string` with its growing byte buffer, `read_list`, `read_vector`).
   Each method is proved to give the result and leave the object in the state that a
   function of the first layer computes. Most methods have a function of the same name.
   The methods for one pass of a loop (`ListElement`, `ListTail`, `ListDot`,
   `VectorElement`, `VectorNext`) stop at the next loop test, so they agree with their
   function only up to that test. The helpers `VectorLoop`, `FinishVector`,
   `AllocVector`, `Grow`, `Put`, `EscapeBytes`, `OctalDigits`, `HexDigits`, `Escape` and
   `Terminate` have no function of the same name; they state their effect directly, or
   name the function they agree with.

The properties are lemmas about the functions. `LexerFacts`, `TokenFacts`, `NumberFacts`,
`StringFacts` and `ParserFacts` hold the general ones. `ParserExamples` holds worked
reads of whole inputs, among them the self-referencing `#0=(a . #0#)`.

Arithmetic and hooks:

- Integers are unbounded. `strtoll`/`strtoull` clamping and ERANGE are written out
  (`Numbers.StrToLL`, `Numbers.StrToULL`).
- `strtod`, `toplevel_eval` and `apply(symbol_value(...))` are parameters of the model
  (`Hooks`).
- `u8_fgetc` and `u8_wc_toutf8` are specified from RFC 3629, section 3 (module `Utf8`).

## Model

| member | source | states |
|---|---|---|
| Chars.SymCharIff | femtolisp/read.c:12-16 | a character is a token constituent exactly when it is neither white space nor one of `( ) [ ] ' " ; ` , \ \|`; `.`, `#` and `(char)EOF` are constituents |
| Chars.SymCharDiffersOnlyAtNul | femtolisp/read.c:12-16 | the test as written (where `strchr` also matches the terminating NUL) and the corrected test disagree on NUL and on no other character |
| Chars.CStr | femtolisp/read.c:199-201 | the token buffer read as a C string, as `strtol`, `symbol` and `isnumtok` read it: a NUL-free prefix of the text that stops at the first NUL or at the end, and the whole text when it holds no NUL |
| Chars.CStrUnique | femtolisp/read.c:199-201 | conversely, any NUL-free prefix of the text that reaches a NUL or the end is that C string |
| Chars.DotText | femtolisp/read.c:270 | the dot test `buf[0]=='.' && buf[1]=='\0'` holds exactly when the buffer's C string is `.` |
| Numbers.IsNumTok | femtolisp/read.c:18-52 | empty text is not a number; a float result needs the float path (text not starting `0x` or `0`+digit, and containing `.`, `e` or `E`); an integer result needs a leading digit or sign |
| Numbers.StrToULL | femtolisp/read.c:44-47 | the unsigned conversion always yields a value in [0, 2^64) |
| Numbers.StrToLL | femtolisp/read.c:40-43 | the signed conversion always yields a value in [-2^63, 2^63) |
| Numbers.DecimalLabel | femtolisp/read.c:199-203 | an accepted label is a 64-bit `long` |
| NumberFacts.ScanNumeral | femtolisp/read.c:40-47 | in base 0, the number scan reads a whole numeral after an optional sign: decimal digits, `0` then octal digits, or `0x` then hex digits. It gets the numeral's value n and the sign |
| NumberFacts.StrToULLNumeral | femtolisp/read.c:44-47 | `strtoull` in base 0 reads every numeral of n back whole. Below 2^64 the value is n, or 2^64 - n modulo 2^64 after `-`. From 2^64 on it is 2^64 - 1 with ERANGE |
| NumberFacts.StrToLLNumeral | femtolisp/read.c:40-43 | `strtoll` in base 0 reads every numeral back whole. Inside [-2^63, 2^63 - 1] the value is the signed n. Outside it is -2^63 or 2^63 - 1, with ERANGE |
| NumberFacts.NumeralOffFloatPath | femtolisp/read.c:26-28 | an unsigned numeral never goes to `strtod`, and neither does a signed decimal or octal one |
| NumberFacts.NumeralValue | femtolisp/read.c:39-49 | off the float path, `-` and a numeral of n is the integer -n while n <= 2^63, and -2^63 with ERANGE beyond. Any other numeral of n is n while n < 2^64, and 2^64 - 1 with ERANGE beyond |
| NumberFacts.SignedHexMayFloat | femtolisp/read.c:26-38 | `-0x1e` contains `e`, so it goes to `strtod` first; a `strtod` that consumes all of it makes it a float, not -30 |
| NumberFacts.DecimalLabelDigits | femtolisp/read.c:199-203 | any run of decimal digits, leading zeros included, is a label exactly when its value is below 2^63, and then the label is that value |
| NumberFacts.DecimalLabelSigned | femtolisp/read.c:199-203 | decimal text of n after `-` is the label -n exactly when n <= 2^63; without `-` it is the label n exactly when n < 2^63 |
| NumberFacts.NonDigitLabel | femtolisp/read.c:199-203 | text that starts with neither white space, a sign nor a digit is never a label |
| NumberFacts.LoneSignIsNotNumber | femtolisp/read.c:39-51 | `+` and `-` alone are not numbers |
| NumberFacts.IntegerPrefixNeverFloat | femtolisp/read.c:26-28 | text starting `0x` or `0` and a digit is never a float, whatever it contains |
| NumberFacts.FloatAcceptance | femtolisp/read.c:26-38 | the float path gives a double exactly when `strtod` consumed the whole text, and a single float exactly when it consumed all but one trailing `f` (at least one character consumed) |
| NumberFacts.UnsignedPath | femtolisp/read.c:44-49 | off the float path, text starting with a digit or `+` is a number exactly when `strtoull` consumes all of it |
| NumberFacts.HexExample | femtolisp/read.c:26-49 | `0x1F` is the integer 31 |
| NumberFacts.SingleFloatExample | femtolisp/read.c:34-37 | `1.5f` is the single float of `1.5` when `strtod` stops at the `f` |
| Lexer.SkipLine | femtolisp/read.c:68-76 | a `;` comment is skipped forward; when it ends without a newline the end-of-file indicator is set; only the cursor and the indicator change |
| Lexer.NextChar | femtolisp/read.c:58-79 | unless the input is exhausted, the result is the character just before the new cursor and it is neither white space nor `;`; at the end of the input the result is NUL; the cursor only moves forward and nothing but the cursor and the indicator changes |
| LexerFacts.NextCharFirst | femtolisp/read.c:58-79 | `nextchar` returns the first character that is neither white space nor inside a `;` comment. Everything it passed over is such a character. At the end of the input everything after the start was |
| LexerFacts.SkipLineStops | femtolisp/read.c:68-76 | the comment skip passes no newline. It stops just after the first newline, or at the end of the input |
| TokenFacts.SkipBlanks | femtolisp/read.c:58-79 | over a run of blanks, `nextchar` returns the first other character and the cursor just past it |
| Reading.Reader.NextChar | femtolisp/read.c:58-79 | the `do ... while` loop returns the character and leaves the reader exactly as `Lexer.NextChar` says |
| Reading.Reader.Getc | femtolisp/read.c:64 | `fgetc` on the reader's stream, as `ReaderState.Getc` |
| Reading.Reader.Ungetc | femtolisp/read.c:124 | `ungetc` on the reader's stream, as `ReaderState.Ungetc` |
| ReaderState.UngetcChar | femtolisp/read.c:124 | `ungetc` of a `char` just read: the byte 0xFF is `EOF` as a signed `char`, so its push-back fails and the stream is unchanged; any other character steps the cursor back one place and clears end-of-file |
| Reading.Reader.UngetcChar | femtolisp/read.c:124 | as `ReaderState.UngetcChar` |
| ReaderState.LabelNumber | femtolisp/read.c:509-510 | the number an error message prints for a label key: present exactly when the key is a fixnum, and then that fixnum |
| Reading.Reader.Take | femtolisp/read.c:81-84 | clears the token cache and changes nothing else |
| Reading.Reader.AccumChar | femtolisp/read.c:86-91 | stores `c` at index `i` of `buf`, leaves the text before it, and fails with "token too long" exactly when the text reaches 255 characters |
| Lexer.ReadToken | femtolisp/read.c:94-128 | the text has at most 254 characters; an unescaped token holds only constituents (only digits in digit mode); the cursor moves back at most one place (the pushed-back terminator), and not at all when `c` itself is taken |
| Lexer.TokenLoopCursor | femtolisp/read.c:98-124 | every step of the loop moves the cursor back at most one place |
| Lexer.TokenLoopText | femtolisp/read.c:98-123 | the text only grows and stays within the buffer; once an escape is seen the token stays a symbol; unescaped text holds only constituents |
| Lexer.ReadTokenAsWritten | femtolisp/read.c:94-128 | `read_token` with the constituent test as written changes only the cursor and moves it back at most one place |
| Reading.Reader.ReadToken | femtolisp/read.c:94-128 | the loop leaves in `buf[..n]`, NUL-terminated, exactly the text `Lexer.ReadToken` computes, with the same escape flag, error and next state |
| Reading.Reader.Escape | femtolisp/read.c:110-116 | one backslash step: the next character is taken verbatim and forces a symbol, or EOF ends the token, or the buffer is full |
| Reading.Reader.Terminate | femtolisp/read.c:125-127 | writes the NUL after the text and keeps the text |
| LexerFacts.PlainRun | femtolisp/read.c:98-124 | a run of constituents followed by a non-constituent (or the end) becomes the token text, unescaped, and the cursor stops on the character after the run |
| LexerFacts.LongRunFails | femtolisp/read.c:86-91 | a run of constituents that would take the text past 254 characters is "token too long" |
| LexerFacts.UnescapedLoop | femtolisp/read.c:98-124 | when the loop returns a token that is not a symbol, it met no `\|` or `\`: not in the character it started from and not in any character it consumed |
| LexerFacts.UnescapedText | femtolisp/read.c:98-124 | the text of a token the loop returns as not a symbol is exactly the characters it took. The one exception is a 0xFF that ends the token: its push-back fails, so it is consumed but not in the text |
| LexerFacts.TakenText | femtolisp/read.c:117-124 | when the loop takes the current character, the token text is that character followed by the characters consumed after it, less a final 0xFF that ended the token |
| LexerFacts.TookOneMore | femtolisp/read.c:117-123 | taking one more character in front of the characters taken keeps the text relation |
| LexerFacts.EscapeForcesSymbol | femtolisp/read.c:94-128 | a `\|` or `\` anywhere in a token makes it a symbol: as the first character or as any character `read_token` consumed. An unescaped token's text is its first character followed by exactly the characters consumed, but in digit mode a 0xFF that ends the token is consumed and left out of the text. As the first character it gives empty text and leaves the stream where it was |
| LexerFacts.NulStallsAsWritten | femtolisp/read.c:12-16 | with the C `symchar`, a NUL gives an empty token and puts the cursor back where the peek started (see Findings) |
| LexerFacts.NulIsConsumed | femtolisp/read.c:12-16 | with NUL a constituent, the token read on a NUL consumes input |
| Lexer.Peek | femtolisp/read.c:130-287 | a cached token is returned with nothing changed; otherwise only the cursor, the indicator and the cache change, the cursor never moves back, a success caches the token returned, `TOK_NONE` comes only at the end of the input, and an error leaves no token cached except a label or back-reference whose number failed to convert |
| Lexer.PeekSharp | femtolisp/read.c:161-256 | the `#` read macros keep the guarantees of `Lexer.Peek` |
| Lexer.PeekLabel | femtolisp/read.c:190-204 | `#n=`/`#n#` keep the guarantees of `Lexer.Peek` |
| Lexer.PeekGensym | femtolisp/read.c:229-241 | `#:n` keeps the guarantees of `Lexer.Peek` |
| Lexer.PeekSharpSym | femtolisp/read.c:242-252 | `#name(` keeps the guarantees of `Lexer.Peek` |
| Lexer.PeekComma | femtolisp/read.c:257-268 | `,` `,@` `,.` keep the guarantees of `Lexer.Peek` |
| Lexer.PeekAtom | femtolisp/read.c:269-285 | symbols, numbers and the dot keep the guarantees of `Lexer.Peek` |
| Lexer.U8Getc | femtolisp/read.c:172-174 | reading a character constant moves only the cursor forward |
| Lexer.SkipBlock | femtolisp/read.c:212-225 | a block comment moves only the cursor forward |
| Reading.Reader.Peek | femtolisp/read.c:130-287 | the method returns the token and leaves the reader exactly as `Lexer.Peek` says |
| Reading.Reader.PeekSharp | femtolisp/read.c:161-256 | as `Lexer.PeekSharp` |
| Reading.Reader.PeekLabel | femtolisp/read.c:190-204 | as `Lexer.PeekLabel` |
| Reading.Reader.PeekGensym | femtolisp/read.c:229-241 | as `Lexer.PeekGensym` |
| Reading.Reader.PeekSharpSym | femtolisp/read.c:242-252 | as `Lexer.PeekSharpSym` |
| Reading.Reader.PeekComma | femtolisp/read.c:257-268 | as `Lexer.PeekComma` |
| Reading.Reader.PeekAtom | femtolisp/read.c:269-285 | as `Lexer.PeekAtom` |
| Reading.Reader.U8Getc | femtolisp/read.c:172-174 | as `Lexer.U8Getc` |
| Reading.Reader.SkipBlock | femtolisp/read.c:212-225 | the comment loop leaves the reader as `Lexer.SkipBlock` says |
| LexerFacts.PeekIdempotent | femtolisp/read.c:136-137 | peeking twice returns the same token and state as peeking once |
| LexerFacts.TakeThenPeekLexes | femtolisp/read.c:136-138 | while a token is cached, peek returns it unchanged; after `take`, peek lexes afresh |
| LexerFacts.LoneDot | femtolisp/read.c:270-273 | the input ` . ` peeks as the dot token |
| LexerFacts.EscapedDotIsSymbol | femtolisp/read.c:270-284 | `\|.\|` is the symbol `.`, not the dot token |
| TokenFacts.PunctToken | femtolisp/read.c:140-154 | `(`, `)`, `[`, `]` and `'` after blanks are their tokens, with the cursor just past them |
| TokenFacts.OneCharToken | femtolisp/read.c:94-128 | one constituent followed by a terminator is a one-character token |
| TokenFacts.LetterIsNoNumber | femtolisp/read.c:39-51 | a lower-case letter other than `e` is not a number |
| TokenFacts.LetterToken | femtolisp/read.c:269-285 | a one-letter word after blanks is a symbol token holding that letter |
| TokenFacts.DotToken | femtolisp/read.c:270-273 | a lone `.` after blanks is the dot token |
| TokenFacts.ZeroLabel | femtolisp/read.c:199-203 | `strtol` accepts the label `0` |
| TokenFacts.ZeroDigits | femtolisp/read.c:190-191 | the digit run of `#0=` / `#0#` is `0`, pushed back before the `=` or `#` |
| TokenFacts.CommaToken | femtolisp/read.c:257-268 | a `,` after blanks that is not followed by `@` or `.` is the comma token. The next character is pushed back, except 0xFF: that push-back fails and the cursor stays past it |
| TokenFacts.CommaLostByte | femtolisp/read.c:257-268 | `,` then 0xFF is the comma token with both characters consumed |
| TokenFacts.DigitLabel | femtolisp/read.c:198-203 | `strtol` of one decimal digit is that digit's value |
| TokenFacts.LostByteDigit | femtolisp/read.c:117-124 | in digit mode, one digit then 0xFF is a token of that digit alone, and the cursor stays past the 0xFF |
| TokenFacts.LabelAfterLostByte | femtolisp/read.c:190-204 | `#`, a digit, 0xFF, then `#` or `=` is the back-reference or label of that digit: the 0xFF ends the digits and its failed push-back drops it |
| TokenFacts.BackrefLostByte | femtolisp/read.c:190-204 | `#1`, 0xFF, `#` is the back-reference to label 1 |
| TokenFacts.LabelZeroToken | femtolisp/read.c:190-204 | `#0=` is the label token and `#0#` the back-reference token, both with value 0 |
| TokenFacts.NumberToken | femtolisp/read.c:269-285 | take an unescaped token after blanks whose text, up to its first NUL, `isnumtok` classifies as a number. If the conversion set ERANGE, `peek` fails with "overflow in numeric constant"; otherwise it returns the number token. Either way the cursor ends just past the text and the value is cached |
| TokenFacts.AtomNumber | femtolisp/read.c:269-282 | unescaped text whose C string is not `.` and is a number gives the number token, or "overflow in numeric constant" when ERANGE was set, with the value cached and the cursor where `read_token` left it |
| TokenFacts.NulFreeNumberTokenAt | femtolisp/read.c:269-285 | `NumberToken` for a text without NUL written at a given place: the number is that of the whole text |
| TokenFacts.AtomSymbol | femtolisp/read.c:269-287 | escaped text is always the symbol named by the text up to its first NUL |
| TokenFacts.SharpDispatch | femtolisp/read.c:147-245 | after `#`, a digit starts a label, `:` a gensym label and a lower-case letter a constructor name |
| TokenFacts.LabelFromToken | femtolisp/read.c:190-204 | after the digits, `#` or `=` gives the back-reference or label whose number `strtol` reads from the text up to its first NUL |
| TokenFacts.GensymFromToken | femtolisp/read.c:229-240 | `#:` then a token whose C string is a non-empty label is that gensym label |
| TokenFacts.SharpSymFromToken | femtolisp/read.c:242-252 | `#name(` names the symbol given by the text up to its first NUL, and consumes the `(` |
| TokenFacts.EscapedNulSymbolText | femtolisp/read.c:94-128 | `\|a`, NUL, `b\|` is read into the buffer as `a`, NUL, `b`, escaped |
| TokenFacts.EscapedNulEndsSymbol | femtolisp/read.c:269-287 | `\|a`, NUL, `b\|` is the symbol `a` |
| TokenFacts.EscapedNulLabelText | femtolisp/read.c:94-128 | in digit mode, `1`, backslash, NUL, `=` is read into the buffer as `1`, NUL, with `=` pushed back |
| TokenFacts.EscapedNulEndsLabel | femtolisp/read.c:190-204 | `#1`, backslash, NUL, `=` is label 1 |
| TokenFacts.EscapedNulGensymText | femtolisp/read.c:94-128 | `1`, backslash, NUL at the end of the input is read into the buffer as `1`, NUL |
| TokenFacts.EscapedNulEndsGensym | femtolisp/read.c:229-240 | `#:1`, backslash, NUL is gensym label 1 |
| TokenFacts.EscapedNulNameText | femtolisp/read.c:94-128 | `a`, backslash, NUL, `b(` is read into the buffer as `a`, NUL, `b`, with `(` pushed back |
| TokenFacts.EscapedNulEndsConstructorName | femtolisp/read.c:242-252 | `#a`, backslash, NUL, `b(` is the constructor call named `a` |
| TokenFacts.NumeralToken | femtolisp/read.c:269-285 | a numeral after blanks, with an optional sign, is the number token. After `-` its value is -n down to -2^63, otherwise n up to 2^64 - 1. Beyond those bounds `peek` reports "overflow in numeric constant", with the clamped value cached |
| StringLiteral.OctalRun | femtolisp/read.c:347-353 | an octal escape collects one to three octal digits, extending those already read; only the cursor moves, and only forward |
| StringLiteral.HexRun | femtolisp/read.c:357-367 | a hex escape collects at most `ndig` hex digits, extending those already read; only the cursor moves, and only forward |
| StringLiteral.Escape | femtolisp/read.c:340-387 | one escape produces at most 4 bytes: the headroom the buffer keeps |
| StringLiteral.ReadStringStep | femtolisp/read.c:333-390 | one pass of the loop: only the cursor changes, and a pass that yields bytes or meets the closing quote moves it forward |
| StringLiteral.ReadStringLoop | femtolisp/read.c:323-391 | the bytes so far are a prefix of the result; only the cursor changes, and a success moves it forward |
| StringLiteral.ReadString | femtolisp/read.c:313-396 | only the cursor changes, and a string read successfully consumes input |
| Reading.Reader.ReadString | femtolisp/read.c:313-396 | the loop over a byte buffer that doubles before each pass in which at most 4 bytes are free returns exactly the bytes `StringLiteral.ReadString` computes |
| Reading.Reader.Grow | femtolisp/read.c:324-332 | the new buffer is twice as large and keeps the bytes written |
| Reading.Reader.Put | femtolisp/read.c:355 | writes the bytes at `i` and keeps those before |
| Reading.Reader.EscapeBytes | femtolisp/read.c:340-387 | as `StringLiteral.Escape` |
| Reading.Reader.OctalDigits | femtolisp/read.c:347-353 | the `do ... while` loop reads as `StringLiteral.OctalRun` |
| Reading.Reader.HexDigits | femtolisp/read.c:361-366 | the `while` loop reads as `StringLiteral.HexRun` |
| Utf8.Encode | femtolisp/read.c:354-355 | one to four bytes per code point up to U+10FFFF, none beyond; a one-byte sequence is the code point itself, and longer sequences have a lead byte >= 0xC0 and continuation bytes in [0x80, 0xC0) |
| Utf8.DecodeEncode | femtolisp/read.c:172-176 | every code point up to U+10FFFF decodes back from its encoding, and the lead byte announces the length written |
| StringFacts.PlainText | femtolisp/read.c:388-390 | text without `"` or `\` is copied byte for byte, and the cursor ends just after the closing quote |
| StringFacts.UnterminatedFails | femtolisp/read.c:333-337 | a string without a closing quote is "unexpected end of input in string" |
| StringFacts.OctalExample | femtolisp/read.c:347-356 | `\101` is the byte 65 |
| StringFacts.OctalStopsAtThree | femtolisp/read.c:348-351 | `\1234` is the byte 83 followed by `4` |
| StringFacts.HexWithoutDigits | femtolisp/read.c:357-369 | `\xg` is the letters `x` and `g`: `\x` with no hex digit after it stands for `x` |
| StringFacts.UnicodeEscape | femtolisp/read.c:357-369 | `\u00e9` is the two UTF-8 bytes C3 A9 |
| StringFacts.NamedEscapes | femtolisp/read.c:371-386 | `\n` is byte 10 and an unknown escape `\q` is the letter itself |
| StringFacts.EofInEscapeExample | femtolisp/read.c:340-345 | `ab\` is "end of input in escape sequence" |
| StringFacts.OctalRunStops | femtolisp/read.c:347-353 | the octal run takes exactly the octal digits that follow, three in all at most, and leaves the cursor just after them |
| StringFacts.HexRunStops | femtolisp/read.c:361-366 | the hex run takes exactly the hex digits that follow, `ndig` at most, and leaves the cursor just after them |
| StringFacts.OctalEscape | femtolisp/read.c:347-356 | an octal escape of one to three digits is the UTF-8 encoding of the code point they denote; the cursor stops after the digits |
| StringFacts.HexEscape | femtolisp/read.c:357-370 | `\x`, `\u` and `\U` followed by up to 2, 4 or 8 hex digits are the UTF-8 encoding of the value of those digits. With no digit, whatever follows, the escape stands for the letter itself |
| StringFacts.SimpleEscape | femtolisp/read.c:371-386 | every other escape is one byte and reads nothing more. `\a \b \t \n \v \f \r` are the control codes 7 to 13, in that order; any other character stands for itself |
| StringFacts.EofInEscapeAtEnd | femtolisp/read.c:340-345 | plain text, then a backslash as the last character of the input, is "end of input in escape sequence" whatever was read before |
| StringFacts.QuoteByteRead | femtolisp/read.c:333-390 | the quoted form of any one byte is one pass of the loop that yields exactly that byte and moves the cursor past the quoted form |
| StringFacts.QuoteRoundTrip | femtolisp/read.c:323-391 | for any byte string written in quoted form, the loop appends exactly those bytes and stops just past the closing quote |
| StringFacts.ReadQuoted | femtolisp/read.c:313-396 | `read_string` returns any byte string from its quoted text. The quoting puts `\` before `"` and `\`, writes newline as `\n`, other control bytes and DEL as three octal digits, and every other byte as itself |
| Parser.DoRead | femtolisp/read.c:442-530 | the heap and tables only grow, the cursor never moves back, a cached token is consumed, and a datum read leaves no token cached |
| Parser.Dispatch | femtolisp/read.c:450-529 | the `switch` keeps the guarantees of `Parser.DoRead` |
| Parser.Immediate | femtolisp/read.c:451-459 | the token alone decides the result exactly for end of input, `)`, `]`, `.`, symbols and numbers |
| Parser.Nested | femtolisp/read.c:460-480 | the quote family keeps the guarantees of `Parser.DoRead` |
| Parser.SugarHead | femtolisp/read.c:460-469 | exactly the five quote-family tokens have a head symbol |
| Parser.Reference | femtolisp/read.c:515-525 | back-references and gensyms keep the guarantees of `Parser.DoRead` |
| Parser.Literal | femtolisp/read.c:481-527 | strings and `#'` keep the guarantees of `Parser.DoRead` |
| Parser.Compound | femtolisp/read.c:488-514 | `#.`, `#name(...)` and labels keep the guarantees of `Parser.DoRead` |
| Parser.Aggregate | femtolisp/read.c:484-498 | lists and vectors keep the guarantees of `Parser.DoRead` |
| Parser.QuoteForm | femtolisp/read.c:470-480 | the result is a fresh cons `(head . c2)`, with `c2` a fresh cons whose cdr is NIL; the pending label is bound to the first cons |
| Parser.LabelForm | femtolisp/read.c:507-514 | the table is keyed on the token value itself, whatever it holds; a key already in the table is "label redefined", with the number when the key is a fixnum; on success the key is new and is bound to the datum returned |
| Parser.StringForm | femtolisp/read.c:526-527 | a string literal keeps the guarantees of `Parser.DoRead` |
| Parser.BackrefForm | femtolisp/read.c:515-520 | keyed on the token value: succeeds exactly when it is bound, and returns the value bound; otherwise "undefined label", with the number when the key is a fixnum; the state is unchanged |
| Parser.GensymForm | femtolisp/read.c:521-525 | never fails; keyed on the token value, the first use in a session makes the next gensym and records it, later ones return the recorded gensym and change nothing |
| Parser.SharpDotForm | femtolisp/read.c:499-506 | `#.x` keeps the guarantees of `Parser.DoRead` |
| Parser.SharpSymForm | femtolisp/read.c:488-494 | `#name(...)` keeps the guarantees of `Parser.DoRead` |
| Parser.ReadList | femtolisp/read.c:401-439 | a non-empty list is a fresh cons bound to the pending label |
| Parser.ReadListLoop | femtolisp/read.c:409-411 | the loop returns the first cons of the list, and cells below it are kept |
| Parser.ListCell | femtolisp/read.c:412-423 | the list's head stays a cons and is the result; the first element's new cons becomes the head and is bound to the label |
| Parser.ListTail | femtolisp/read.c:425-427 | the list's head stays a cons, and the result is the head |
| Parser.ListDot | femtolisp/read.c:426-435 | the dotted tail keeps the list's head a cons, and the result is the head |
| Parser.ReadVector | femtolisp/read.c:291-311 | the result is a fresh vector bound to the pending label |
| Parser.Grow | femtolisp/read.c:301-302 | growing keeps the elements and lengthens the vector; no other cell changes |
| Parser.ReadVectorLoop | femtolisp/read.c:298-310 | the loop returns the vector, and cells below it are kept |
| Parser.VectorElement | femtolisp/read.c:298-307 | one pass of the loop keeps the guarantees of `Parser.ReadVectorLoop` |
| Parser.ReadElement | femtolisp/read.c:301-306 | the datum read is stored in slot `i` |
| Parser.VectorNext | femtolisp/read.c:298 | the peek that decides whether the loop goes on keeps the guarantees of `Parser.ReadVectorLoop` |
| Parser.ReadSexpr | femtolisp/read.c:532-546 | the input is unchanged and not given back; after a successful read the caller's tables are back in place, the heap only grew, and no token is cached |
| Reading.Reader.DoReadSexpr | femtolisp/read.c:442-530 | returns the datum and leaves the reader as `Parser.DoRead` says |
| Reading.Reader.Dispatch | femtolisp/read.c:450-529 | as `Parser.Dispatch` |
| Reading.Reader.Nested | femtolisp/read.c:460-480 | as `Parser.Nested` |
| Reading.Reader.Reference | femtolisp/read.c:515-525 | as `Parser.Reference` |
| Reading.Reader.Literal | femtolisp/read.c:481-527 | as `Parser.Literal` |
| Reading.Reader.Compound | femtolisp/read.c:488-514 | as `Parser.Compound` |
| Reading.Reader.Aggregate | femtolisp/read.c:484-498 | as `Parser.Aggregate` |
| Reading.Reader.QuoteForm | femtolisp/read.c:470-480 | as `Parser.QuoteForm` |
| Reading.Reader.LabelForm | femtolisp/read.c:507-514 | as `Parser.LabelForm` |
| Reading.Reader.StringForm | femtolisp/read.c:526-527 | as `Parser.StringForm` |
| Reading.Reader.BackrefForm | femtolisp/read.c:515-520 | as `Parser.BackrefForm`, changing nothing |
| Reading.Reader.GensymForm | femtolisp/read.c:521-525 | as `Parser.GensymForm` |
| Reading.Reader.SharpDotForm | femtolisp/read.c:499-506 | as `Parser.SharpDotForm` |
| Reading.Reader.SharpSymForm | femtolisp/read.c:488-494 | as `Parser.SharpSymForm` |
| Reading.Reader.ReadSexpr | femtolisp/read.c:532-546 | as `Parser.ReadSexpr` |
| Reading.Reader.ReadList | femtolisp/read.c:401-439 | the `while` loop of `read_list` reads as `Parser.ReadList` |
| Reading.Reader.ListElement | femtolisp/read.c:412-423 | one element, as `Parser.ListCell` up to the next loop test |
| Reading.Reader.ListTail | femtolisp/read.c:425-427 | as `Parser.ListTail` up to the next loop test |
| Reading.Reader.ListDot | femtolisp/read.c:426-435 | as `Parser.ListDot`; it goes on only when `)` follows |
| Reading.Reader.ReadVector | femtolisp/read.c:291-311 | as `Parser.ReadVector` |
| Reading.Reader.VectorLoop | femtolisp/read.c:298-310 | the `while` loop of `read_vector` reads as `Parser.ReadVectorLoop` |
| Reading.Reader.FinishVector | femtolisp/read.c:308-309 | takes the closer and trims the vector to its `i` elements |
| Reading.Reader.AllocVector | femtolisp/read.c:293-297 | allocates a four-slot vector and binds the pending label to it |
| Reading.Reader.VectorElement | femtolisp/read.c:298-307 | one pass, as `Parser.VectorElement` up to the next loop test |
| Reading.Reader.ReadElement | femtolisp/read.c:301-306 | as `Parser.ReadElement` |
| Reading.Reader.VectorNext | femtolisp/read.c:298 | as `Parser.VectorNext` up to the next loop test |
| ParserFacts.CloserIsNoDatum | femtolisp/read.c:451-454 | a `)` or `]` where a datum is expected is "unexpected ')'" or "unexpected ']'" |
| ParserFacts.ListEndsOnlyAtClose | femtolisp/read.c:409-422 | a list ends only at `)`. At the end of the input, whatever token is cached, it is "unexpected end of input". A `]` inside it is "unexpected ']'" |
| ParserFacts.VectorRejectsOtherCloser | femtolisp/read.c:298-303 | inside `[...]` a `)`, and inside `#(...)` a `]`, is rejected |
| ParserFacts.SharpQuotePassesLabel | femtolisp/read.c:481-483 | `#'x` reads exactly as `x`, with the same pending label |
| ParserFacts.ClosedVectorSize | femtolisp/read.c:308-309 | the closing step returns the vector trimmed to exactly the `i` elements stored |
| ParserFacts.ElementStored | femtolisp/read.c:301-306 | one element leaves the slots below `i` alone and stores the datum read in slot `i` |
| ParserFacts.LoopKeepsElements | femtolisp/read.c:298-310 | elements already stored are never overwritten by the rest of the loop |
| ParserFacts.ElementKeepsElements | femtolisp/read.c:298-307 | the datum read for slot `i` is element `i` of the vector returned, and earlier elements are kept |
| ParserFacts.NextKeepsElements | femtolisp/read.c:298 | the peek between elements keeps the stored elements |
| ParserFacts.CellLinks | femtolisp/read.c:412-423 | one list element allocates a cons and stores the datum read as its car. The previous cons, if any, now has that cons as its cdr. No cons before the previous one changes, and the rest of the list changes none of this |
| ParserFacts.TailLinks | femtolisp/read.c:409-435 | after an element, the rest of the list changes no earlier cons and keeps the element's car. Its cdr stays as it is at `)`, becomes the datum read after a dot, and otherwise is the next cons allocated |
| ParserFacts.DotLinks | femtolisp/read.c:426-435 | the dotted tail makes the datum read the cdr of the last cons and changes no earlier cons |
| ParserFacts.LoopLinks | femtolisp/read.c:409-423 | at `)` the loop leaves the heap as it is. Otherwise the next cons allocated holds the datum read as its car, and the last cons so far links to it. Earlier conses never change |
| ParserExamples.AtomDatum | femtolisp/read.c:457-459 | a symbol token is the datum itself |
| ParserExamples.LetterDatum | femtolisp/read.c:457-459 | a one-letter word after blanks reads as that symbol |
| ParserExamples.CachedSymbol | femtolisp/read.c:448-459 | a symbol already peeked is the datum, and it is taken |
| ParserExamples.BackrefDatum | femtolisp/read.c:515-520 | `#n#` for a bound label is the value bound |
| ParserExamples.OpenDatum | femtolisp/read.c:484-487 | `(` reads a list that receives the pending label |
| ParserExamples.BracketDatum | femtolisp/read.c:495-496 | `[` reads a vector closed by `]` that receives the pending label |
| ParserExamples.LabelDatum | femtolisp/read.c:507-512 | `#n=` reads the labelled datum |
| ParserExamples.QuoteDatum | femtolisp/read.c:468-469 | `'` reads the quote form |
| ParserExamples.QuoteFormOk | femtolisp/read.c:470-480 | the quote form is its first cons, with the datum read stored in the car of the second |
| ParserExamples.QuoteExample | femtolisp/read.c:468-480 | `'a` reads as the two conses of `(quote a)` |
| ParserExamples.StaleLabelKey | femtolisp/read.c:507-514 | a label token still cached keys the table on whatever `tokval` holds; a second use of the same value that is not a fixnum is "label redefined" without a number |
| ParserExamples.LabelFormOk | femtolisp/read.c:511-514 | `#n=` binds the label to the datum read |
| ParserExamples.ReadSexprOk | femtolisp/read.c:532-546 | `read_sexpr` returns the datum read with fresh tables and puts the caller's tables back |
| ParserExamples.ListStart | femtolisp/read.c:406-409 | `read_list` starts its loop with the token after `(` |
| ParserExamples.FirstCell | femtolisp/read.c:412-423 | the first element gets a new cons bound to the label before its car is read |
| ParserExamples.TailDot | femtolisp/read.c:425-428 | a dot after an element starts the dotted tail |
| ParserExamples.DotNotClosed | femtolisp/read.c:426-434 | after the dotted datum, any token but `)` is "expected ')'" |
| ParserExamples.DotClosed | femtolisp/read.c:426-437 | after the dotted datum, `)` ends the list, which is its head |
| ParserExamples.EofExample | femtolisp/read.c:409-411 | `(a` is "unexpected end of input" |
| ParserExamples.TwoDotsExample | femtolisp/read.c:426-434 | `(a . b . c)` is "expected ')'" |
| ParserExamples.SelfRefExample | femtolisp/read.c:416-419 | `#0=(a . #0#)` reads as one cons whose cdr is itself, and the caller's empty tables come back |
| ParserExamples.VectorPeeked | femtolisp/read.c:298 | the vector loop goes on with the token peeked |
| ParserExamples.SymbolSlot | femtolisp/read.c:298-306 | a symbol is stored in the next free slot |
| ParserExamples.VectorExample | femtolisp/read.c:291-311 | `[a b]` reads as a vector of exactly its two elements, although four slots were allocated |

## Left out

- File I/O: the stream is the whole input as a string with a cursor and an end-of-file indicator. Every push-back in the reader returns the character just read. Where C passes an `int` (the escapes of `read_string`), `ungetc` steps back one place. Where it passes a `char` (`read_token`, the comma), the byte 0xFF becomes `EOF` and the push-back fails, which `ReaderState.UngetcChar` models.
- Input characters stand for the bytes `fgetc` returns, so they are meant to be below 256. The model does not require this. A wider character is not a constituent of any escape or number and is stored in a string as its value modulo 256 (`ToByte`); such input is outside what the model describes.
- Garbage collection, `PUSH`/`POP` and relocation: cells live in an arena that only grows, so no reference moves.
- `vector_grow` is not in read.c; it is modelled as growing the vector in place to twice its length plus one, keeping every reference to it valid.
- Floating point: `strtod` is a parameter that reports how much text it consumed and whether ERANGE was set; a float value is kept as its text.
- `toplevel_eval`, `symbol_value`, `apply`, `gensym`: the first three are parameters that may fail (`#.` and `#name(...)` then report an evaluation error); `gensym` is the counter-indexed `GenSym`.
- Interning: a symbol is its name, so `symbol(buf)` is `Sym(CStr(text))`: the name is the token text up to its first NUL.
- Label tables: keys compare as values. C compares the bits of the `value_t`, so two boxed numbers read separately with the same value are two keys there and one in the model; this matters only for a label token still cached after another token replaced its value. When such a key is not a fixnum, the number C prints in "label redefined" and "undefined label" is its raw bits; the model reports no number (`None`).
- Fixnum range: numbers and labels are unbounded integers, within the 64-bit ranges the C library conversions produce; tagging into fixnums and boxing of larger values are not modelled.
- `u8_fgetc` and `u8_wc_toutf8` are not in read.c; they are modelled from RFC 3629.
- `cvalue_char`/`cvalue_wchar`: a character constant is `Character(code point, wide)`.
- Memory exhaustion in `read_string` ("out of memory reading string") cannot happen in the model.
- `read_sexpr` restores the previous tables only on a normal return, as the C code does; after an error the model returns the state at the error, and the session restore an outer handler would perform is not modelled.
- The `switch` of `do_read_sexpr` is split into `Dispatch`, `Nested`, `Reference`, `Literal`, `Compound` and `Aggregate` by token kind; together they cover every case, with `NIL` for the end of the input.
- ParserFacts.ClosedVectorSize: states the final size for the closing step of the loop; that the size equals the number of elements read over the whole loop follows from it with `LoopKeepsElements`, and `VectorExample` shows it on a whole input.
- A label bound inside its own datum by `#.` (as in `#1=#.#1=x`) is rebound by the outer label at the end, as in the C code; the "nothing in the tables changes" guarantee therefore covers only labels bound before the read began.
- Lexer.PeekSharp: the whole reader uses the corrected constituent test (NUL is a constituent). So `#` followed by NUL and `(` is read as the `#name(` token with the empty name (the C string of a buffer holding one NUL), where the C test sends it to "unknown read macro" (femtolisp/read.c:242, 253-255). Only `LexerFacts.NulStallsAsWritten` and `Lexer.ReadTokenAsWritten` use the C test.
- Parser.SharpDotForm, Parser.SharpSymForm: the `eval` and `apply` hooks return a value and nothing else. In C, `toplevel_eval` and `apply` run arbitrary code, which may allocate cells or change cells built earlier in the same read. The heap guarantees of `Parser.DoRead` hold across `#.` and `#name(...)` only because of this restriction, and a reference a hook returns is not tied to the heap.
- Numbers.StrToULL, Numbers.StrToLL: their own contracts state only the result ranges. The value of decimal, octal and hexadecimal text and the clamps with ERANGE are stated by `NumberFacts.StrToULLNumeral` and `NumberFacts.StrToLLNumeral`.
- Numbers.DecimalLabel: its own contract states only the range. Which texts are labels, and their values, are stated by `NumberFacts.DecimalLabelDigits`, `NumberFacts.DecimalLabelSigned` and `NumberFacts.NonDigitLabel`.
- StringLiteral.Escape: its own contract states only the four-byte bound. The bytes each escape produces are stated by `StringFacts.OctalEscape`, `StringFacts.HexEscape` and `StringFacts.SimpleEscape`.
- StringLiteral.ReadStringStep, StringLiteral.ReadStringLoop, StringLiteral.ReadString: their own contracts state the frame, the prefix and progress. The content read is stated by `StringFacts.QuoteRoundTrip`, `StringFacts.ReadQuoted` and `StringFacts.PlainText`, and the error at a final backslash by `StringFacts.EofInEscapeAtEnd`.
- Parser.ListCell, Parser.ReadListLoop, Parser.ReadList: their own contracts state the head, the label and the cells kept. The cars and links they build are stated by `ParserFacts.CellLinks`, `ParserFacts.TailLinks`, `ParserFacts.DotLinks` and `ParserFacts.LoopLinks`.

## Findings

| source | as written | input that shows it | evidently intended | confidence | as-written member | corrected member |
|---|---|---|---|---|---|---|
| femtolisp/read.c:12-16 | `symchar` uses `strchr(special, c)`, which also finds the terminating NUL of `special`, so NUL is not a constituent. `read_token` then stops on it at once, pushes it back and returns empty text; `peek` makes that an empty symbol without consuming input. `read_list` and `read_vector` then read the same NUL forever | `(` followed by a NUL byte | NUL is treated as an ordinary constituent (or rejected), so that every token consumes input | not executed | LexerFacts.NulStallsAsWritten | LexerFacts.NulIsConsumed |
