/** The few Python values the diagnostics core passes around: `None`-or-`str`
    values, the exceptions the core raises or catches, and the result of a
    call that either returns or raises. */
module PyValues {

  /** A Python value that is either `None` or a `str`. */
  datatype Option<+T> = None | Some(value: T)

  /** `str(x)`, which is also what an f-string or `str.format` writes for `x`:
      `None` is written as the four characters `None`. */
  function Show(x: Option<string>): string {
    match x
    case None => "None"
    case Some(v) => v
  }

  /** Python truthiness of a `None`-or-`str` value: `None` and `""` are falsy. */
  predicate Truthy(x: Option<string>) {
    x.Some? && x.value != ""
  }

  const IndexOutOfRange: string := "list index out of range"

  /** The exceptions the core raises. `Unmodelled` stands for any exception
      raised by code outside the model (library code, logging). */
  datatype PyException =
    | ValueError(message: string)
    | KeyError(key: string)
    | IndexError(message: string)
    | Unmodelled(kind: string, message: string)

  /** `str(e)` for an exception `e`. A `KeyError` shows `repr` of its key,
      which is the key between single quotes only when the key holds no quote
      or backslash; the keys that reach it here are the six role names. */
  function Str(e: PyException): string {
    match e
    case ValueError(m) => m
    case KeyError(k) => "'" + k + "'"
    case IndexError(m) => m
    case Unmodelled(_, m) => m
  }

  /** The outcome of a Python call: it returned a value or raised. Usable with `:-`,
      which propagates the exception like an unhandled `raise`. */
  datatype Call<+T> = Returned(value: T) | Raised(exception: PyException) {

    predicate IsFailure() {
      Raised?
    }

    function PropagateFailure<U>(): Call<U>
      requires Raised?
    {
      Raised(exception)
    }

    function Extract(): T
      requires Returned?
    {
      value
    }
  }
}
