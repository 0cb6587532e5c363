/** Option and Result values used wherever the source returns None or raises. */
module Wrappers {

  datatype Option<+T> = None | Some(value: T)

  /** The exception classes the modelled code raises. */
  datatype Error =
    | ValidationError(message: string)
    | ValueError(message: string)
    | TypeError(message: string)
    | KeyError(key: string)
    | IndexError
    | AttributeError(message: string)
    | DoesNotExist
    | MultipleObjectsReturned
    | PermissionDenied
    | ReferenceError(name: string)
    | FieldError(message: string)
    | Http404

  datatype Result<+T> = Ok(value: T) | Err(error: Error)

  /** `step(0)`, ..., `step(n - 1)` in order, stopping at the first that raises. */
  function Collect<T>(step: nat -> Result<T>, n: nat): Result<seq<T>> {
    if n == 0 then Ok([])
    else
      match Collect(step, n - 1)
      case Err(e) => Err(e)
      case Ok(xs) =>
        match step(n - 1)
        case Err(e) => Err(e)
        case Ok(x) => Ok(xs + [x])
  }

  /** Collect succeeds exactly when every step does, and then holds each step's value. */
  lemma {:induction false} CollectSpec<T>(step: nat -> Result<T>, n: nat)
    ensures Collect(step, n).Ok? <==> forall i :: 0 <= i < n ==> step(i).Ok?
    ensures Collect(step, n).Ok? ==>
              |Collect(step, n).value| == n && forall i :: 0 <= i < n ==> Collect(step, n).value[i] == step(i).value
  {
    if n > 0 {
      CollectSpec(step, n - 1);
    }
  }

  /** Once a step raises, collecting further steps keeps that error. */
  lemma {:induction false} CollectStaysFailed<T>(step: nat -> Result<T>, n: nat, m: nat)
    requires n <= m && Collect(step, n).Err?
    ensures Collect(step, m) == Collect(step, n)
    decreases m - n
  {
    if n < m {
      CollectStaysFailed(step, n, m - 1);
    }
  }

  /** `f` applied to `xs[0]`, ..., `xs[n - 1]` from `init`, stopping at the first that raises. */
  function Fold<S, X>(f: (S, X) -> Result<S>, init: S, xs: seq<X>, n: nat): Result<S>
    requires n <= |xs|
  {
    if n == 0 then Ok(init)
    else
      match Fold(f, init, xs, n - 1)
      case Err(e) => Err(e)
      case Ok(s) => f(s, xs[n - 1])
  }

  /** Once `f` raises, folding further elements keeps that error. */
  lemma {:induction false} FoldStaysFailed<S, X>(f: (S, X) -> Result<S>, init: S, xs: seq<X>, n: nat, m: nat)
    requires n <= m <= |xs| && Fold(f, init, xs, n).Err?
    ensures Fold(f, init, xs, m) == Fold(f, init, xs, n)
    decreases m - n
  {
    if n < m {
      FoldStaysFailed(f, init, xs, n, m - 1);
    }
  }
}
