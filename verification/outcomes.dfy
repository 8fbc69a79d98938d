/** Optional values, results and the fatal errors the system raises.

    The source signals every unrecoverable condition by raising an exception;
    here each such condition is one constructor of `Fault`, carried by the
    `Err` side of `Result`. A match that simply does not succeed is NOT a
    fault: it is an ordinary state with `hasMatch == false`.
 */
module Outcomes {

  datatype Option<+T> = None | Some(value: T)

  datatype Result<+T> = Ok(value: T) | Err(error: Fault)

  datatype Fault =
    /** CharParser / NotCharParser built from an empty character list. */
    | EmptyCharList
    /** StringParser / NotStringParser built from an empty string. */
    | EmptyString
    /** A concrete test reported a match longer than the searched range. */
    | WrongSize
    /** getMatch asked of a parser that has no match. */
    | NoMatch
    /** getMatch asked of a string the recorded match does not fit in. */
    | NotSubstring
    /** Rect constructed with an argument count it does not accept. */
    | WrongArgumentCount
    /** Rect constructed with arguments of the wrong kinds. */
    | WrongArgumentType
    /** A non-number where a coordinate is converted with float(). */
    | NotANumber
    /** Symbol name missing from the symbol table (a KeyError). */
    | UnknownSymbol(name: string)
    /** A document item asked for its rect before one was assigned. */
    | MissingRect
    /** A document item asked for a method its class does not define. */
    | NoSuchMethod(methodName: string)
}
