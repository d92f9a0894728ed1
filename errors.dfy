/** Outcomes of the reader. Every `lerror(ParseError, ...)` of the C reader becomes an `Err`
    carrying one of the `ReadError` cases below; nothing is unwound implicitly. The number a
    label message prints is `None` when the label's value is not a fixnum (its `numval` is
    then raw pointer bits, which the model does not have). */
module Errors {

  datatype ReadError =
    | TokenTooLong              // "read: token too long"
    | InvalidReadMacro          // "read: invalid read macro" ('#' at end of input)
    | EofInCharConstant         // "read: end of input in character constant"
    | UnreadableObject          // "read: unreadable object" ('#<')
    | InvalidLabel              // "read: invalid label"
    | EofWithinComment          // "read: eof within comment"
    | InvalidGensymLabel        // "read: invalid gensym label"
    | ExpectedArgumentList(name: string)  // "read: expected argument list for %s"
    | UnknownReadMacro          // "read: unknown read macro"
    | NumericOverflow           // "read: overflow in numeric constant"
    | UnexpectedEof             // "read: unexpected end of input"
    | EofInString              // "read: unexpected end of input in string"
    | EofInEscape               // "read: end of input in escape sequence"
    | ExpectedClose             // "read: expected ')'"
    | UnexpectedClose           // "read: unexpected ')'"
    | UnexpectedCloseBracket    // "read: unexpected ']'"
    | UnexpectedDot             // "read: unexpected '.'"
    | LabelRedefined(n: Option<int>)  // "read: label %ld redefined"
    | UndefinedLabel(n: Option<int>)  // "read: undefined label %ld"
    | EvaluationFailed          // an error raised by the evaluator or by a called constructor

  datatype Result<+T> = Ok(value: T) | Err(error: ReadError)

  datatype Option<+T> = None | Some(value: T)
}
