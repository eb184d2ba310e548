/** Missing values, results and the errors the modelled code raises. */
module Wrappers {

  /** A cell that may be missing (pandas NaN is `None`). */
  datatype Option<+T> = None | Some(value: T)

  /** The exceptions raised by the modelled code, one constructor per raise site. */
  datatype Error =
    | EmptySeries                 // `prices.empty` guards and `iloc[0]` / `iloc[-1]` on an empty index
    | VolWindowNotSet             // `_rolling_vol` without a window
    | InvalidSymbol(code: string) // `_to_polygon_symbol` on a code that is not VENDOR_ROOT
    | UnknownMethod(name: string) // `back_adjust` with a method outside the method map
    | InvalidAlpha(alpha: real)   // `ewm(alpha=...)` outside (0, 1]
    | MissingDay(day: int)        // `adj.loc[rd - 1 day]` when that calendar day is not in the index
    | ZeroEquity(step: nat)       // `initial_capital / equity` with a zero equity estimate

  datatype Result<+T> = Ok(value: T) | Err(error: Error)
}
