/**
 * `useErrorBoundary`: an `error` and an `isLoading` flag around an async
 * call. `handleAsync` raises the flag and clears the error, awaits the call,
 * returns its result or records the failure's message (a fixed default when
 * the message is falsy) and rethrows, and lowers the flag on either path.
 * The await splits a call into two steps, `Begin` and `Settle`.
 */
module ErrorHook {
  import opened Optional

  const DefaultMessage: string := "An unexpected error occurred"

  datatype State = State(error: Option<string>, isLoading: bool)

  function Init(): (s: State)
    ensures s.error.None? && !s.isLoading
  {
    State(None, false)
  }

  /**
   * A rejection reason: any non-nullish value, with its `message` property
   * (`None` when that is undefined or null), or `null` / `undefined` itself.
   */
  datatype Thrown = Thrown(message: Option<string>) | Nullish

  /** How the awaited call settled. */
  datatype Outcome<T> = Resolved(value: T) | Rejected(reason: Thrown)

  /** How `handleAsync` itself settles. */
  datatype Completion<T> = Returned(value: T) | Threw(reason: Thrown) | ThrewTypeError

  /** `err.message || 'An unexpected error occurred'` for a non-nullish `err`. */
  function ErrorText(message: Option<string>): (t: string)
    ensures |t| > 0
    ensures message.Some? && message.value != "" ==> t == message.value
    ensures message.None? || message.value == "" ==> t == DefaultMessage
  {
    if message.Some? && message.value != "" then message.value else DefaultMessage
  }

  /** `resetError`: clears the error and leaves the flag alone. */
  function ResetError(s: State): (r: State)
    ensures r.error.None? && r.isLoading == s.isLoading
  {
    s.(error := None)
  }

  /** The part of `handleAsync` before the await. */
  function Begin(s: State): (r: State)
    ensures r.isLoading && r.error.None?
  {
    State(None, true)
  }

  /**
   * The part after the await, as written: reading `err.message` on a nullish
   * reason throws a TypeError inside the catch block, so no error is recorded
   * and the TypeError, not the reason, propagates; `finally` still runs.
   */
  function SettleAsWritten<T>(s: State, outcome: Outcome<T>): (r: (State, Completion<T>))
    ensures !r.0.isLoading
    ensures outcome.Rejected? && outcome.reason.Nullish? ==> r.0.error == s.error && r.1.ThrewTypeError?
  {
    match outcome
    case Resolved(v) => (s.(isLoading := false), Returned(v))
    case Rejected(Thrown(m)) => (State(Some(ErrorText(m)), false), Threw(Thrown(m)))
    case Rejected(Nullish) => (s.(isLoading := false), ThrewTypeError)
  }

  /** A call rejected with `undefined` ends with no error recorded and a different exception thrown. */
  lemma NullishRejectionRecordsNothing<T>(s: State)
    ensures var r := SettleAsWritten<T>(Begin(s), Rejected(Nullish));
      r.0 == Init() && r.1 == ThrewTypeError
  {
  }

  /** The after-await step with the default message applied to a nullish reason too. */
  function Settle<T>(s: State, outcome: Outcome<T>): (r: (State, Completion<T>))
    ensures !r.0.isLoading
    ensures outcome.Resolved? ==> r.1 == Returned(outcome.value) && r.0.error == s.error
    ensures outcome.Rejected? ==> r.1 == Threw(outcome.reason) && r.0.error.Some?
    ensures outcome.Rejected? && outcome.reason.Thrown? ==> r.0.error == Some(ErrorText(outcome.reason.message))
    ensures outcome.Rejected? && outcome.reason.Nullish? ==> r.0.error == Some(DefaultMessage)
  {
    match outcome
    case Resolved(v) => (s.(isLoading := false), Returned(v))
    case Rejected(Thrown(m)) => (State(Some(ErrorText(m)), false), Threw(Thrown(m)))
    case Rejected(Nullish) => (State(Some(DefaultMessage), false), Threw(Nullish))
  }

  /** Both versions agree on every outcome except a nullish rejection. */
  lemma SettleAgreesOffNullish<T>(s: State, outcome: Outcome<T>)
    requires !(outcome.Rejected? && outcome.reason.Nullish?)
    ensures Settle(s, outcome) == SettleAsWritten(s, outcome)
  {
  }

  /** A whole call, when nothing else runs during its await. */
  function HandleAsync<T>(s: State, outcome: Outcome<T>): (r: (State, Completion<T>))
    ensures !r.0.isLoading
  {
    Settle(Begin(s), outcome)
  }

  /**
   * A call never leaves the flag raised; a resolved call leaves no error and
   * returns the value; a rejected one records a non-empty message and
   * rethrows the reason.
   */
  lemma HandleAsyncOutcomes<T>(s: State, outcome: Outcome<T>)
    ensures !HandleAsync(s, outcome).0.isLoading
    ensures outcome.Resolved? <==> HandleAsync(s, outcome).0.error.None?
    ensures outcome.Resolved? ==> HandleAsync(s, outcome).1 == Returned(outcome.value)
    ensures outcome.Rejected? ==>
      && HandleAsync(s, outcome).1 == Threw(outcome.reason)
      && |HandleAsync(s, outcome).0.error.value| > 0
  {
  }

  /** Resetting after any call gives back the initial state. */
  lemma ResetAfterCall<T>(s: State, outcome: Outcome<T>)
    ensures ResetError(HandleAsync(s, outcome).0) == Init()
  {
  }

  /**
   * The flag is a single boolean: with two calls in flight, the first to
   * settle lowers it while the other is still awaiting.
   */
  lemma OverlappingCallsLowerFlagEarly<T>(s: State, first: Outcome<T>)
    ensures !Settle(Begin(Begin(s)), first).0.isLoading
  {
  }
}
