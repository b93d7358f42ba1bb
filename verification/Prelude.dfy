/** Failure-carrying datatypes and the two integer helpers every module uses. */
module Prelude {
  /** Row ids, merchant ids and keys the ledger only ever compares for equality. */
  type Id = int

  /** The currencies Payzeno supports. */
  datatype Currency = USD | EUR | GBP | ILS | JPY

  /** Minor-unit exponents of ISO 4217: the yen has no minor unit. */
  function Exponent(currency: Currency): nat {
    if currency.JPY? then 0 else 2
  }

  /** Basis points in one whole. */
  const BPS := 10_000

  /** Powers of ten. */
  function Power(k: nat): (p: int)
    ensures p > 0
  {
    if k == 0 then 1 else 10 * Power(k - 1)
  }

  datatype Option<+T> = None | Some(value: T)

  datatype Result<+T, +E> = Ok(value: T) | Err(error: E)

  function Max(a: int, b: int): int {
    if a < b then b else a
  }

  function Min(a: int, b: int): int {
    if a < b then a else b
  }

  function Abs(a: int): int {
    if a < 0 then -a else a
  }
}
