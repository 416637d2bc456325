/**
 * The compiler's failures. Every `parse_error` of kiste2cpp.cpp carries the
 * file name, the line number and the raw line (kiste2cpp.cpp:148-158); the
 * message is one of the fixed texts below. A `$` at the very end of a text
 * line makes `std::string::at` throw `std::out_of_range`, which is not a
 * parse_error and is not caught by the driver: it is kept apart.
 */
module Diagnostics {

  datatype Message =
    | MissingClosingBrace          // "missing closing brace"
    | TrailingAfterTrimRight       // "Trailing characters after trim-right ($|)"
    | UnknownCommand               // "Unknown command"
    | TextOutsideFunction          // "Unexpected text outside of function"
    | UnexpectedAfterClassName     // "Unexpected character after class name, did you forget a ':'?"
    | MissingParentClassName       // "Could not find parent class name"
    | TrailingAfterParentClassName // "Unexpected trailing characters after parent class name"
    | MemberOutsideClass           // "Cannot add a member here, did you forget to call $class?"
    | MissingMemberClassName       // "Could not find member class name"
    | MissingMemberName            // "Could not find member name"
    | TrailingAfterMember          // "unexpected characters after member declaration"
    | ClassAlreadyOpen             // "Cannot open new class here, did you forget to call $endclass?"
    | MissingClassName             // "Could not find class name"
    | NoClassToEnd                 // "No class to end here"
    | ClassNotEnded                // "class not ended at the end of the file, did you forget $endclass?"
    | TooManyClosingBraces         // "Too many closing curly braces in C++"
    | NotEnoughClosingBraces       // "not enough closing curly braces"

  /** A failure found while looking at one line, before the context is attached. */
  datatype LineError = Malformed(message: Message) | IndexOutOfRange(pos: nat)

  /** What aborts a compilation. */
  datatype Failure =
    | ParseError(filename: string, lineNo: nat, line: string, message: Message)
    | OutOfRange(lineNo: nat, pos: nat)
}
