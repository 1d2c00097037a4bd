/** Option and Result values, and the error reasons the calculator engine reports.
    The source reports every failure as a message string; each constructor of Error
    stands for one message (or one family of messages) of the source. */
module Wrappers {

  /** Which reading of a routine the source gets wrong: AsWritten follows it line by
      line, Corrected repairs the place where it goes wrong. */
  datatype Version = AsWritten | Corrected

  datatype Option<+T> = None | Some(value: T)

  datatype Result<+T> = Ok(value: T) | Err(error: Error)

  datatype Error =
    // math_types.rs
    | DimensionMismatch                  // "Dimension mismatch." / "Dimension Mismatch"
    | CannotCross(d1: nat, d2: nat)      // "Cannot cross vectors of dimensions {} and {}"
    | EmptyVectors                       // "Empty vectors."
    | EmptyOrMismatched                  // "Dimensional mismatch, or one matrix is empty."
    | NotAugmentable                     // "... not compatible for augmentation."
    // variable_types.rs
    | NoneOperand                        // "Cannot add None" and its siblings
    | MismatchedTypes                    // "Mismatched types."
    | NoMultiplication                   // "Type does not support multiplication, or mismatched types."
    | NoDivision                         // "Type does not support division."
    | UnsupportedOperator(symbol: char)  // an operator with no meaning for the operand types
    // text codec
    | TooShort                           // fewer than three characters (no type tag)
    | WrongTag                           // the tag is not the one the decoder reads
    | UnknownTag(tag: string)            // "Cannot deduce type name '{a}'"
    | MissingFields                      // fewer than three space-separated fields
    | BadDimensions                      // "The dimensions could not be resolved."
    | MissingNumbers                     // "... more numbers expected, but not enough ..."
    | BadNumber(token: string)           // a token that is not a number
    // parsing
    | UnbalancedBraces                   // "There is not a balance of braces."
    | LeadingOperator                    // "The first character cannot be an operator."
    | ConsecutiveOperators               // "The previous item was an operator, ..."
    | AdjacentOperands                   // "An operator or brace was expected, but a number was given."
    | TrailingOperator                   // "The string does not contain enough numbers to operators."
    | ClosingWithoutOperators            // "Found closing brace when no other operators ..."
    | UnrecognizedBracePattern           // "Unrecognized brace pattern."
    | InvalidOperand(text: string)       // a literal that is neither ans nor a number
    | InvalidCharacter(c: char)          // "Invalid character '{}'"
    | AlphabeticNotAllowed(c: char)      // "The alphabetical character '{item}' is not allowed,"
    | MalformedNumber(text: string)      // a numeric token that does not parse
    // evaluation
    | StackUnderflow                     // an operator with fewer than two operands
    | WrongOperandCount                  // a final stack size other than one
    | NotOperatorOrNumber                // "Invalid operator/numerical expression."
    | UnresolvedName(name: string)       // a variable lookup that misses
    | NonFinite                          // x / 0 and x % 0, which IEEE 754 maps to inf or NaN
    | Panic(reason: string)              // the source aborts (index out of range, unwrap)
}
