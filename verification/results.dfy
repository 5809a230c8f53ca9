/** Failure-carrying values shared by every controller action of the shop API. */
module Results {

  /** A nullable value (`T?` in the C# and `T | null` in the TypeScript sources). */
  datatype Option<T> = None | Some(value: T)

  /** The `{ message }` body that accompanies an error status. */
  datatype Msg =
    | ValidationFailed              // the framework's automatic data-annotation check
    | ProductNotFound
    | CategoryNotFound
    | CartItemNotFound
    | OrderNotFound
    | InsufficientStock
    | InsufficientStockOf(productName: string)
    | CartEmpty
    | EmailTaken
    | UsernameTaken
    | InvalidRole
    | BadCredentials
    | CategoryHasProducts
    | ForeignKeyViolation           // a restrict rule of the database refused a delete
    | ArithmeticOverflow            // a checked 32-bit sum overflowed

  /** HTTP error statuses: 404, 400, 401 and 500. */
  datatype Error =
    | NotFound(msg: Msg)
    | BadRequest(msg: Msg)
    | Unauthorized(msg: Msg)
    | ServerError(msg: Msg)

  datatype Result<T> = Ok(value: T) | Err(error: Error)
}

/** The 32-bit signed integers of the C# `int` type. */
module Int32 {

  const MinInt32: int := -0x8000_0000
  const MaxInt32: int := 0x7fff_ffff
  const Modulus: int := 0x1_0000_0000

  predicate InRange(x: int) {
    MinInt32 <= x <= MaxInt32
  }

  /** Unchecked C# `int` arithmetic: the mathematical result reduced modulo 2^32 into range. */
  function Wrap(x: int): (r: int)
    ensures InRange(r)
    ensures (r - x) % Modulus == 0
    ensures InRange(x) ==> r == x
  {
    (x - MinInt32) % Modulus + MinInt32
  }
}
