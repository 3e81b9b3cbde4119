/**
 * The loading / success / error state of an asynchronous UI operation, its
 * pure combinators, the conversion of an operation's outcome into a state
 * (`catching`), the branch chosen when a state is rendered, and the two
 * writes a producer performs on its state holder.
 */
module UiStates {
  import opened Wrappers

  /**
   * The throwables an operation can raise, as far as `catching` tells them
   * apart. A timeout is a kind of cancellation (Kotlin's
   * TimeoutCancellationException extends CancellationException); every
   * other throwable is an ordinary failure. The message stands for the
   * throwable's identity.
   */
  datatype Throwable =
    | TimeoutCancellation(message: string)
    | Cancellation(message: string)
    | Failure(message: string)
  {
    /** True for every throwable that is a CancellationException. */
    predicate IsCancellation() {
      TimeoutCancellation? || Cancellation?
    }
  }

  /** The retry callback of an error, as an opaque token; `NoOp` is the default `{}`. */
  datatype Retry = NoOp | Action(id: nat)

  /** Exactly one of the three states is active. */
  datatype UiState<T> =
    | Loading
    | Success(data: T)
    | Error(t: Option<Throwable>, retry: Retry)

  /** An error built without arguments: no throwable and a no-op retry. */
  function DefaultError<T>(): (r: UiState<T>)
    ensures r.Error? && r.t.None? && r.retry == NoOp
  {
    Error(None, NoOp)
  }

  /** `ok`: the state is loading or a success, which is to say not an error. */
  function Ok<T>(s: UiState<T>): (r: bool)
    ensures r <==> !s.Error?
  {
    s.Loading? || s.Success?
  }

  /** `map`: transform the data of a success, keep loading and errors as they are. */
  function Map<T, R>(s: UiState<T>, f: T -> R): (r: UiState<R>)
    ensures r.Success? <==> s.Success?
    ensures r.Loading? <==> s.Loading?
    ensures s.Success? ==> r.data == f(s.data)
    ensures s.Error? ==> r.Error? && r.t == s.t && r.retry == s.retry
  {
    match s
    case Success(d) => Success(f(d))
    case Loading => Loading
    case Error(t, retry) => Error(t, retry)
  }

  /**
   * `map` with the calls to the transform counted: the transform runs at
   * most once, and exactly when the state is a success.
   */
  method MapCounted<T, R>(s: UiState<T>, f: T -> R) returns (r: UiState<R>, calls: nat)
    ensures r == Map(s, f)
    ensures calls <= 1
    ensures calls == 1 <==> s.Success?
  {
    calls := 0;
    match s {
      case Success(d) =>
        var v := f(d);
        calls := calls + 1;
        r := Success(v);
      case Loading =>
        r := Loading;
      case Error(t, retry) =>
        r := Error(t, retry);
    }
  }

  /**
   * `mapSuccess`: the transform's result for a success, null otherwise.
   * The transform returns a Kotlin `R?`, so it may itself yield null.
   */
  function MapSuccess<T, R>(s: UiState<T>, f: T -> Option<R>): (r: Option<R>)
    ensures !s.Success? ==> r == None
    ensures s.Success? ==> r == f(s.data)
  {
    match s
    case Success(d) => f(d)
    case _ => None
  }

  /**
   * `mapSuccess` with the calls to the transform counted: the transform runs
   * at most once, and exactly when the state is a success.
   */
  method MapSuccessCounted<T, R>(s: UiState<T>, f: T -> Option<R>) returns (r: Option<R>, calls: nat)
    ensures r == MapSuccess(s, f)
    ensures calls <= 1
    ensures calls == 1 <==> s.Success?
  {
    calls := 0;
    match s {
      case Success(d) =>
        r := f(d);
        calls := calls + 1;
      case Loading =>
        r := None;
      case Error(_, _) =>
        r := None;
    }
  }

  /** `onRetry`: replace the retry of an error, keep every other state. */
  function OnRetry<T>(s: UiState<T>, newRetry: Retry): (r: UiState<T>)
    ensures s.Error? ==> r == Error(s.t, newRetry)
    ensures !s.Error? ==> r == s
  {
    if s.Error? then Error(s.t, newRetry) else s
  }

  /** `uiState`: lift an available value into a success. */
  function Of<T>(x: T): (r: UiState<T>)
    ensures r.Success? && r.data == x
  {
    Success(x)
  }

  /** How an operation ends: with a value, or by raising a throwable. */
  datatype Outcome<R> = Value(v: R) | Raise(e: Throwable)

  /** What `catching` does: return a state, or re-raise the throwable. */
  datatype Caught<R> = State(state: UiState<R>) | Rethrow(e: Throwable)

  /**
   * `catching`: the handlers are tried in source order, a timeout first, then
   * any other cancellation (re-raised), then every other throwable.
   */
  function Catching<R>(retry: Retry, outcome: Outcome<R>): (r: Caught<R>)
    ensures r.Rethrow? <==> outcome.Raise? && outcome.e.Cancellation?
    ensures r.Rethrow? ==> r.e == outcome.e
    ensures outcome.Value? ==> r == State(Success(outcome.v))
    ensures outcome.Raise? && !outcome.e.Cancellation? ==>
              r == State(Error(Some(outcome.e), retry))
  {
    match outcome
    case Value(v) => State(Success(v))
    case Raise(e) =>
      if e.TimeoutCancellation? then State(Error(Some(e), retry))
      else if e.IsCancellation() then Rethrow(e)
      else State(Error(Some(e), retry))
  }

  /** The handler `Render` invokes, with the argument it passes. */
  datatype Rendered<T> = ErrorView(error: UiState<T>) | LoadingView | ContentView(data: T)

  /** `Render`: pick the handler for the state's variant. */
  function Render<T>(s: UiState<T>): (r: Rendered<T>)
    ensures r.ErrorView? <==> s.Error?
    ensures r.ErrorView? ==> r.error == s
    ensures r.LoadingView? <==> s.Loading?
    ensures r.ContentView? <==> s.Success?
    ensures r.ContentView? ==> r.data == s.data
  {
    match s
    case Error(_, _) => ErrorView(s)
    case Loading => LoadingView
    case Success(d) => ContentView(d)
  }

  /**
   * The values `CoroutineScope.produce` writes to its holder, in order:
   * `Loading`, then the state `catching` returns. A re-raised cancellation
   * ends the launched coroutine after the first write.
   */
  function ProduceWrites<R>(retry: Retry, outcome: Outcome<R>): (w: seq<UiState<R>>)
    ensures 1 <= |w| <= 2
    ensures w[0] == Loading
    ensures |w| == 2 <==> Catching(retry, outcome).State?
    ensures |w| == 2 ==> w[1] == Catching(retry, outcome).state
  {
    match Catching(retry, outcome)
    case State(s) => [Loading, s]
    case Rethrow(_) => [Loading]
  }

  /** The holder's value after a sequence of writes. */
  function Holder<R>(initial: UiState<R>, writes: seq<UiState<R>>): (r: UiState<R>)
    ensures r == initial || r in writes
    ensures |writes| > 0 ==> r == writes[|writes| - 1]
  {
    if |writes| == 0 then initial else writes[|writes| - 1]
  }

  // ----- Properties -----

  /** `ok` is false exactly when `Render` shows the error handler. */
  lemma OkIffNotErrorView<T>(s: UiState<T>)
    ensures Ok(s) <==> !Render(s).ErrorView?
  {
  }

  /** `ok` holds for loading and every success, and fails for every error. */
  lemma OkCases<T>(x: T, t: Option<Throwable>, retry: Retry)
    ensures Ok<T>(Loading)
    ensures Ok(Success(x))
    ensures !Ok<T>(Error(t, retry))
    ensures !Ok(DefaultError<T>())
  {
  }

  /** `map` keeps whether a state is ok. */
  lemma MapPreservesOk<T, R>(s: UiState<T>, f: T -> R)
    ensures Ok(Map(s, f)) <==> Ok(s)
  {
  }

  /** Mapping the identity changes nothing. */
  lemma MapIdentity<T>(s: UiState<T>)
    ensures Map(s, x => x) == s
  {
  }

  /** Two maps in a row are one map of the composed transform. */
  lemma MapComposition<T, U, R>(s: UiState<T>, f: T -> U, g: U -> R)
    ensures Map(Map(s, f), g) == Map(s, x => g(f(x)))
  {
  }

  /** `map` of a lifted value is the success of the transformed value. */
  lemma MapOfLifted<T, R>(x: T, f: T -> R)
    ensures Map(Of(x), f) == Success(f(x))
  {
  }

  /**
   * `mapSuccess` reads through `map`: it yields what the transform made of
   * the data exactly when `map` yields a success.
   */
  lemma MapSuccessThroughMap<T, R>(s: UiState<T>, f: T -> Option<R>)
    ensures MapSuccess(s, f) == (if Map(s, f).Success? then Map(s, f).data else None)
  {
  }

  /** With a transform that never yields null, `mapSuccess` is non-null exactly for a success. */
  lemma MapSuccessTotal<T, R>(s: UiState<T>, f: T -> R)
    ensures MapSuccess(s, x => Some(f(x))).Some? <==> s.Success?
  {
  }

  /** The last `onRetry` wins, and re-installing an error's own retry changes nothing. */
  lemma OnRetryLastWins<T>(s: UiState<T>, a: Retry, b: Retry)
    ensures OnRetry(OnRetry(s, a), b) == OnRetry(s, b)
    ensures s.Error? ==> OnRetry(s, s.retry) == s
    ensures Ok(OnRetry(s, a)) <==> Ok(s)
  {
  }

  /** A default error keeps its missing throwable under `onRetry`. */
  lemma OnRetryDefaultError<T>(r: Retry)
    ensures OnRetry(DefaultError<T>(), r) == Error(None, r)
  {
  }

  /**
   * The state `catching` returns is ok exactly when the operation produced a
   * value; an error always carries the supplied retry and the raised throwable.
   */
  lemma CatchingOkIffValue<R>(retry: Retry, outcome: Outcome<R>)
    requires Catching(retry, outcome).State?
    ensures Ok(Catching(retry, outcome).state) <==> outcome.Value?
    ensures Catching(retry, outcome).state.Error? ==>
              outcome.Raise? &&
              Catching(retry, outcome).state == Error(Some(outcome.e), retry)
  {
  }

  /** A timeout is a cancellation, and still becomes an error state. */
  lemma TimeoutBecomesError<R>(retry: Retry, message: string)
    ensures TimeoutCancellation(message).IsCancellation()
    ensures Catching<R>(retry, Raise(TimeoutCancellation(message))) ==
              State(Error(Some(TimeoutCancellation(message)), retry))
  {
  }

  /**
   * After `produce`, the holder shows the state `catching` returned, and it
   * stays at `Loading` exactly when the operation was cancelled (not by a
   * timeout).
   */
  lemma ProduceFinalHolder<R>(initial: UiState<R>, retry: Retry, outcome: Outcome<R>)
    ensures Catching(retry, outcome).State? ==>
              Holder(initial, ProduceWrites(retry, outcome)) == Catching(retry, outcome).state
    ensures Holder(initial, ProduceWrites(retry, outcome)).Loading? <==>
              outcome.Raise? && outcome.e.Cancellation?
  {
  }
}
