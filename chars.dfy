/** Character classification used by the lexer (femtolisp/read.c `symchar` and the
    C library predicates it relies on, in the "C" locale). Input characters stand for
    the bytes of the stream. */
module Chars {

  /** The reserved punctuation of the reader: `( ) [ ] ' " ; ` , \ |`. */
  const Special: seq<char> := "()[]'\";`,\\|"

  /** `(char)EOF`: the value the C code sees when it converts an unchecked `fgetc`
      result of EOF to `char` (signed char -1, the byte 0xFF). */
  const EofChar: char := 'ÿ'

  /** C `isspace` in the "C" locale. */
  predicate IsSpace(c: char)
  {
    c == ' ' || c == '\t' || c == '\n' || c == '\U{B}' || c == '\U{C}' || c == '\r'
  }

  predicate IsDigit(c: char) { '0' <= c <= '9' }

  predicate IsOctalDigit(c: char) { '0' <= c <= '7' }

  predicate IsHexDigit(c: char)
  {
    IsDigit(c) || 'a' <= c <= 'f' || 'A' <= c <= 'F'
  }

  /** Value of a digit in bases up to 16. */
  function DigitValue(c: char): (d: nat)
    requires IsHexDigit(c)
    ensures d < 16
    ensures IsDigit(c) <==> d < 10
    ensures IsOctalDigit(c) <==> d < 8
  {
    if IsDigit(c) then c as int - '0' as int
    else if 'a' <= c <= 'f' then c as int - 'a' as int + 10
    else c as int - 'A' as int + 10
  }

  /** `symchar` as written: `!isspace(c) && !strchr(special, c)`. `strchr` also finds the
      string's terminating NUL, so the NUL byte is NOT a token constituent here. */
  predicate SymCharAsWritten(c: char)
  {
    !IsSpace(c) && c !in Special && c != '\0'
  }

  /** `symchar` as evidently intended: exactly the non-space characters outside `Special`.
      The rest of the model uses this one. */
  predicate SymChar(c: char)
  {
    !IsSpace(c) && c !in Special
  }

  /** The two definitions differ on the NUL byte only. */
  lemma SymCharDiffersOnlyAtNul(c: char)
    ensures SymChar(c) != SymCharAsWritten(c) <==> c == '\0'
  {
  }

  /** A character is a token constituent exactly when it is not whitespace and not one of
      the eleven reserved punctuation characters; `.`, `#` and every other printable
      character are constituents. */
  lemma {:induction false} SymCharIff(c: char)
    ensures SymChar(c) <==>
      !(IsSpace(c) || c == '(' || c == ')' || c == '[' || c == ']' || c == '\'' || c == '"'
        || c == ';' || c == '`' || c == ',' || c == '\\' || c == '|')
    ensures SymChar('.') && SymChar('#') && SymChar(EofChar)
  {
    assert Special == ['(', ')', '[', ']', '\'', '"', ';', '`', ',', '\\', '|'];
  }

  /** A NUL-terminated buffer read as a C string (`symbol`, `strtol`, `isnumtok` and the
      dot test all do so): the text up to the first NUL, or all of it when there is none. */
  function CStr(s: string): (r: string)
    ensures r <= s
    ensures forall i :: 0 <= i < |r| ==> r[i] != '\0'
    ensures |r| < |s| ==> s[|r|] == '\0'
    ensures (forall i :: 0 <= i < |s| ==> s[i] != '\0') ==> r == s
  {
    if s == [] || s[0] == '\0' then [] else [s[0]] + CStr(s[1..])
  }

  /** The text up to the first NUL is exactly the NUL-free prefix that reaches a NUL or the
      end: the converse of `CStr`'s contract, so that contract defines it. */
  lemma {:induction false} CStrUnique(s: string, p: string)
    requires p <= s && (forall i :: 0 <= i < |p| ==> p[i] != '\0')
    requires |p| < |s| ==> s[|p|] == '\0'
    ensures CStr(s) == p
  {
    var r := CStr(s);
    assert r == s[..|r|] && p == s[..|p|];
  }

  /** `buf[0]=='.' && buf[1]=='\0'` on a NUL-terminated buffer: the C string is `.`. */
  lemma DotText(s: string)
    ensures CStr(s) == "." <==> |s| >= 1 && s[0] == '.' && (|s| == 1 || s[1] == '\0')
  {
    if |s| >= 1 && s[0] == '.' && (|s| == 1 || s[1] == '\0') {
      CStrUnique(s, ".");
    }
  }
}
