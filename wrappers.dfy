/** Option and Result values, and the errors the interpreter raises.
    The C++ code signals failure with exceptions carrying a message; here each
    message is a constructor of Error and a failing operation returns Err. */
module Wrappers {

  datatype Option<+T> = None | Some(value: T)

  /** The runtime_error messages thrown by the lexer, the parser helpers,
      the expression nodes, the environment and the interpreter. */
  datatype Error =
    | UnterminatedString            // "Unterminated string."
    | DivisionByZero                // "Division by zero."
    | UnsupportedOperator           // "Unsupported binary operator."
    | UndefinedVariable(name: string) // "Variable 'name' is not defined."
    | UndefinedFunction(name: string) // "Function 'name' is not defined."
    | ArityMismatch(name: string)     // "Incorrect number of arguments provided to function 'name'."
    | ParseFailure(message: string)   // the message given to Parser::consume
    | OutOfRange                    // std::out_of_range from tokens.at

  datatype Result<+T> = Ok(value: T) | Err(error: Error) {
    predicate IsFailure() { Err? }
    function PropagateFailure<U>(): Result<U>
      requires Err?
    {
      Err(error)
    }
    function Extract(): T
      requires Ok?
    {
      value
    }
  }
}
