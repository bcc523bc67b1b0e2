/**
  The decorator progress_bar_scan returns: it wraps the body of a lax.scan,
  taps the hook with the iteration number, and hands back the body's result
  untouched.
 */
module Decorator {
  import opened Dispatch

  /** The step argument of the scan: the iteration number, or a tuple whose first element it is. */
  datatype StepArg<X> = Scalar(iterNum: int) | Tuple(first: int, rest: X)

  /** What one wrapped step yields: the body's result and the hook's taps. */
  datatype Wrapped<R> = Wrapped(result: R, taps: seq<Event>)

  /**
    wrapper_progress_bar(carry, x) for a wrapped body func. The taps are those
    of the iteration number taken from x; the result is func(carry, x),
    whatever the taps.
   */
  function WrapperProgressBar<C, X, R>(c: Cadence, func: (C, StepArg<X>) -> R, carry: C, x: StepArg<X>)
    : (out: Wrapped<R>)
    requires c.printRate >= 1
    ensures out.result == func(carry, x)
    ensures x.Tuple? ==> out.taps == Hook(c, x.first)
    ensures x.Scalar? ==> out.taps == Hook(c, x.iterNum)
  {
    var iterNum := match x
      case Tuple(first, _) => first
      case Scalar(i) => i;
    var taps := Hook(c, iterNum);
    Wrapped(func(carry, x), taps)
  }
}
