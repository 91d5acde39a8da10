/** Outcomes of running a context-requiring computation.

    The Python library signals an under-provisioned context by raising
    `KeyError`; here the failure is an ordinary value, so every combinator
    states how it propagates one.
 */
module Results {

  /** Why a computation could not produce its value. */
  datatype Error =
    /** A raw lookup (`ask`, `with_service`) found no entry for `id`. */
    | Missing(id: string)
    /** The `requires` driver found no entry for `id`; it also reports the
        ids the context did hold, for diagnostics. */
    | NotFound(id: string, available: set<string>)
    /** The `requires` driver stopped before the suspended computation
        finished: the model's stand-in for a generator that keeps yielding. */
    | OutOfFuel

  /** A value, or the error that stopped the computation. */
  datatype Result<+A> = Ok(value: A) | Err(error: Error)
}
