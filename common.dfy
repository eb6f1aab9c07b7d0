/**
 * Shared value types of the trading back end and its browser client:
 * optional values, results of operations that can be rejected, JavaScript
 * numbers (which may be NaN or infinite) and the two ledger partitions.
 */
module Common {

  datatype Option<T> = None | Some(value: T) {
    /** The `??` operator: the value if present, otherwise the default. */
    function GetOr(default: T): T {
      match this
      case Some(v) => v
      case None => default
    }
  }

  /** The outcome of an operation that either succeeds or is rejected with an error. */
  datatype Result<T, E> = Ok(value: T) | Err(error: E)

  /**
   * A JavaScript number (or any JSON value read where a number is expected).
   * Every guard in the source tests `Number.isFinite` before it compares,
   * so NaN, the infinities and non-number values all behave as `NonFinite`.
   */
  datatype Num = Finite(value: real) | NonFinite

  /** An optional numeric field of a request body: `undefined`, `null` or a value. */
  datatype Input = Absent | Null | Given(n: Num)

  /** `Number.isFinite(x) && x > 0`. */
  predicate IsPositive(x: Num) {
    x.Finite? && x.value > 0.0
  }

  /** `typeof x === 'number' && Number.isFinite(x)` for an optional field. */
  predicate IsFiniteInput(x: Input) {
    x.Given? && x.n.Finite?
  }

  /** `typeof x === 'number' && Number.isFinite(x) && x > 0` for an optional field. */
  predicate IsPositiveInput(x: Input) {
    x.Given? && IsPositive(x.n)
  }

  /** The two ledger partitions: the demo balance and the real (deposited) balance. */
  datatype AccountKind = Demo | Real

  /** `s === 'real' ? 'real' : 'demo'`: anything but exactly "real" selects the demo partition. */
  function AccountKindOf(s: string): (k: AccountKind)
    ensures k == Real <==> s == "real"
  {
    if s == "real" then Real else Demo
  }

  /** The wire name of an account kind. */
  function KindName(k: AccountKind): (s: string)
    ensures AccountKindOf(s) == k
  {
    match k
    case Demo => "demo"
    case Real => "real"
  }

  function Min(a: int, b: int): int {
    if a <= b then a else b
  }

  function Max(a: int, b: int): int {
    if a >= b then a else b
  }
}
