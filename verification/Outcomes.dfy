/** Results of operations that may throw, and the errors they throw. */
module Outcomes {
  datatype Option<+T> = None | Some(value: T)

  datatype Failure =
    | SyntaxError       // BigInt() of a string that is no numeric literal
    | InvalidBase58     // a character outside the base58 alphabet
    | OddHexLength      // hexToBytes of an odd number of characters
    | InvalidAddress    // parseAddress: wrong shape or length

  datatype Outcome<+T> = Ok(value: T) | Err(error: Failure)
}
