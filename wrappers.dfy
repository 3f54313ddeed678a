/** The two failure-carrying shapes of the model: Option stands for Python's
    None, Result for a value or a raised exception. */
module Wrappers {

  datatype Option<+T> = None | Some(value: T)

  datatype Result<+T, +E> = Ok(value: T) | Err(error: E)
}

/** The exceptions the cagrx library raises, one constructor per distinct
    condition (in Python nearly all of them are a ValueError with its own
    message; the empty-frame cases are IndexError). */
module Errors {

  datatype Error =
    | MissingColumn(column: string)   // "Column '...' not found ..."
    | KeyNotFound(column: string)     // KeyError of df[column]
    | NotIterable                     // TypeError: iterating over periods=None
    | MissingAmountColumn             // "sip_cashflows must have 'amount' column"
    | EmptySeries                     // iloc[0] / index[-1] on an empty frame
    | InvalidCagrData                 // "Invalid data for CAGR calculation."
    | NoRollingReturns                // idxmax of an empty returns column
    | LengthMismatch                  // "cashflows and dates must have the same length"
    | TooFewCashflows                 // "At least 2 cash flows are required"
    | DerivativeTooSmall              // "XIRR calculation failed: derivative too small"
    | RateOutOfBounds                 // "... rate out of reasonable bounds"
    | NoConvergence                   // "XIRR did not converge after ... iterations"
    | ColumnCountMismatch             // the scheme table has the wrong number of columns
    | ProviderError(text: string)     // the NAV history endpoint answered with an error
}
