/** Error chains and permanent errors (`internal/executor/executor.go`). */
module Errors {

  /** An error value: a leaf, a `PermanentError` around its cause, or a `%w` wrapping. */
  datatype Error = Leaf(msg: string) | Permanent(cause: Error) | Wrapped(prefix: string, cause: Error)

  /** `errors.As(err, &p)` for a `*PermanentError`: walk the chain. */
  predicate IsPermanent(e: Error) {
    match e
    case Leaf(_) => false
    case Permanent(_) => true
    case Wrapped(_, cause) => IsPermanent(cause)
  }

  /** The chain `Unwrap` walks, outermost first. */
  function Chain(e: Error): seq<Error> {
    match e
    case Leaf(_) => [e]
    case Permanent(cause) => [e] + Chain(cause)
    case Wrapped(_, cause) => [e] + Chain(cause)
  }

  /** An error is permanent exactly when a `PermanentError` occurs anywhere in its chain. */
  lemma {:induction false} PermanentAnywhere(e: Error)
    ensures IsPermanent(e) <==> exists x :: x in Chain(e) && x.Permanent?
  {
    match e
    case Leaf(_) =>
    case Permanent(cause) => assert Chain(e)[0] == e;
    case Wrapped(_, cause) =>
      PermanentAnywhere(cause);
      assert Chain(e)[1..] == Chain(cause);
      if x :| x in Chain(cause) && x.Permanent? { assert x in Chain(e); }
  }
}
