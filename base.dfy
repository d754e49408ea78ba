/** Small shared vocabulary of the game model. */
module Base {

  /** A value that may be missing; JavaScript's `undefined` is `None`. */
  datatype Option<T> = None | Some(value: T)

  /** Player identities are the decimal strings the server takes from its clock. */
  type PlayerId = string

  /** Stocks are identified by their company name. */
  type StockName = string
}
