/**
 What the retrying transaction runner comes to (internal/db/db.go:42-82), over any kind of database state and any
 closure. The closure's captured variables survive from one attempt to the next, as they do in Go. The loop
 itself is in Calls.
 */
module Runner {
  import opened Wrappers
  import opened Tables
  import opened Interleaved

  const MILLISECOND: int := 1_000_000

  /** The committed state of a database, changed by commits only. */
  class Store<S> {
    var committed: S

    constructor (initial: S)
      ensures committed == initial
    {
      committed := initial;
    }
  }

  /** How a closure ended: its error, the state of its transaction, and the captured variables as it left them. */
  datatype Ran<S, C> = Ran(error: Option<Error>, state: S, captured: C)

  /** What one attempt meets: the state others have committed by then, failures to begin or commit, and the jitter. */
  datatype World<S> = World(beginError: Option<Error>, committed: S, commitError: Option<Error>, jitter: int)

  predicate WorldValid<S>(world: seq<World<S>>) {
    && |world| == MAX_ATTEMPTS
    && forall i | 0 <= i < |world| :: 0 <= world[i].jitter < 10 * MILLISECOND
  }

  /** What the call came to: its error, the committed state, the captured variables, and the last attempt made. */
  datatype Final<S, C> = Final(error: Option<Error>, state: S, captured: C, attempts: nat)

  /** An attempt's outcome: the error that ended it, or none when it committed. */
  function AttemptError<S, C>(fn: (S, C, nat) -> Ran<S, C>, w: World<S>, attempt: nat, captured: C): Option<Error> {
    if w.beginError.Some? then w.beginError
    else
      var ran := fn(w.committed, captured, attempt);
      if ran.error.Some? then ran.error else w.commitError
  }

  function AttemptCaptured<S, C>(fn: (S, C, nat) -> Ran<S, C>, w: World<S>, attempt: nat, captured: C): C {
    if w.beginError.Some? then captured else fn(w.committed, captured, attempt).captured
  }

  /** Whether the runner tries again: never after a failure to begin, and never after the last attempt. */
  predicate TriesAgain<S, C>(fn: (S, C, nat) -> Ran<S, C>, w: World<S>, attempt: nat, captured: C) {
    var error := AttemptError(fn, w, attempt, captured);
    w.beginError.None? && error.Some? && Retryable(error.value) && attempt < MAX_ATTEMPTS
  }

  /** The call from its `attempt`-th attempt on. */
  function From<S, C>(fn: (S, C, nat) -> Ran<S, C>, world: seq<World<S>>, attempt: nat, captured: C): Final<S, C>
    requires WorldValid(world) && 1 <= attempt <= MAX_ATTEMPTS
    decreases MAX_ATTEMPTS - attempt
  {
    var w := world[attempt - 1];
    var after := AttemptCaptured(fn, w, attempt, captured);
    if TriesAgain(fn, w, attempt, captured) then From(fn, world, attempt + 1, after)
    else
      var error := AttemptError(fn, w, attempt, captured);
      Final(error, if error.Some? then w.committed else fn(w.committed, captured, attempt).state, after, attempt)
  }

  /** `isRetryablePGError`. */
  method IsRetryable(e: Error) returns (r: bool)
    ensures r == Retryable(e)
  {
    match e
    case Postgres(code) => r := code == SerializationFailure || code == DeadlockDetected;
    case _ => r := false;
  }

  /** The pause after an attempt, in nanoseconds: twenty milliseconds times its square, and under ten more. */
  method SleepWithBackoff(attempt: nat, jitter: int) returns (slept: int)
    requires 0 <= jitter < 10 * MILLISECOND
    ensures 0 <= slept - attempt * attempt * (20 * MILLISECOND) < 10 * MILLISECOND
  {
    var base := 20 * MILLISECOND;
    slept := attempt * attempt * base + jitter;
  }

  /** The longest the pauses after the first `n` attempts can be. */
  function PauseBound(n: int): int {
    match n
    case 0 => 0
    case 1 => 30 * MILLISECOND
    case 2 => 120 * MILLISECOND
    case 3 => 310 * MILLISECOND
    case _ => 640 * MILLISECOND
  }

  // --------------------------------------------------------------- what the runner guarantees

  /** The captured variables an attempt starts with. */
  function CapturedBefore<S, C>(fn: (S, C, nat) -> Ran<S, C>, world: seq<World<S>>, attempt: nat, initial: C): C
    requires WorldValid(world) && 1 <= attempt <= MAX_ATTEMPTS
  {
    if attempt == 1 then initial
    else AttemptCaptured(fn, world[attempt - 2], attempt - 1, CapturedBefore(fn, world, attempt - 1, initial))
  }

  lemma {:induction false} Stretch<S, C>(fn: (S, C, nat) -> Ran<S, C>, world: seq<World<S>>, attempt: nat, initial: C)
    requires WorldValid(world) && 1 <= attempt <= MAX_ATTEMPTS
    ensures var final := From(fn, world, attempt, CapturedBefore(fn, world, attempt, initial));
            && attempt <= final.attempts <= MAX_ATTEMPTS
            && var last, before := world[final.attempts - 1], CapturedBefore(fn, world, final.attempts, initial);
            && !TriesAgain(fn, last, final.attempts, before)
            && final.error == AttemptError(fn, last, final.attempts, before)
            && final.captured == AttemptCaptured(fn, last, final.attempts, before)
            && final.state ==
                 (if final.error.Some? then last.committed else fn(last.committed, before, final.attempts).state)
    ensures var final := From(fn, world, attempt, CapturedBefore(fn, world, attempt, initial));
            forall k | attempt <= k < final.attempts ::
                TriesAgain(fn, world[k - 1], k, CapturedBefore(fn, world, k, initial))
    decreases MAX_ATTEMPTS - attempt
  {
    if TriesAgain(fn, world[attempt - 1], attempt, CapturedBefore(fn, world, attempt, initial)) {
      Stretch(fn, world, attempt + 1, initial);
    }
  }

  /**
   All or nothing: the call succeeds exactly when its last attempt commits, every earlier one having
   failed with a retryable error; the state is then that attempt's, and the captured variables are as
   that attempt left them. On any error the database is as the others left it.
   */
  lemma AllOrNothing<S, C>(fn: (S, C, nat) -> Ran<S, C>, world: seq<World<S>>, initial: C) returns (before: C)
    requires WorldValid(world)
    ensures var final := From(fn, world, 1, initial);
            && 1 <= final.attempts <= MAX_ATTEMPTS
            && before == CapturedBefore(fn, world, final.attempts, initial)
            && var w := world[final.attempts - 1];
            && (final.error.None? <==>
                 w.beginError.None? && fn(w.committed, before, final.attempts).error.None? && w.commitError.None?)
            && (final.error.None? ==> Ran(None, final.state, final.captured) == fn(w.committed, before, final.attempts))
            && (final.error.Some? ==> final.state == w.committed)
    ensures var final := From(fn, world, 1, initial);
            && (forall k | 1 <= k < final.attempts ::
                 var error := AttemptError(fn, world[k - 1], k, CapturedBefore(fn, world, k, initial));
                 error.Some? && Retryable(error.value))
            && (final.error.Some? && Retryable(final.error.value) && final.attempts < MAX_ATTEMPTS ==>
                 world[final.attempts - 1].beginError == final.error)
  {
    Stretch(fn, world, 1, initial);
    before := CapturedBefore(fn, world, From(fn, world, 1, initial).attempts, initial);
  }

  /**
   An attempt is followed by another exactly when it began, ended in a serialization failure or a detected
   deadlock, and was not the fifth.
   */
  lemma TriedAgainExactlyWhen<S, C>(
    fn: (S, C, nat) -> Ran<S, C>, world: seq<World<S>>, initial: C, k: nat)
    requires WorldValid(world) && 1 <= k <= From(fn, world, 1, initial).attempts <= MAX_ATTEMPTS
    ensures var w, before := world[k - 1], CapturedBefore(fn, world, k, initial);
            var ran := fn(w.committed, before, k);
            var error := if ran.error.Some? then ran.error else w.commitError;
            k < From(fn, world, 1, initial).attempts <==>
            && k < 5 && w.beginError.None?
            && (error == Some(Postgres(SerializationFailure)) || error == Some(Postgres(DeadlockDetected)))
  {
    hide From, CapturedBefore;
    FirstIsInitial(fn, world, initial);
    Stretch(fn, world, 1, initial);
  }

  lemma FirstIsInitial<S, C>(fn: (S, C, nat) -> Ran<S, C>, world: seq<World<S>>, initial: C)
    requires WorldValid(world)
    ensures CapturedBefore(fn, world, 1, initial) == initial
  {
  }

  /** The error after the loop is never returned: any error is one that an attempt met. */
  lemma RetryLimitNeverReached<S, C>(fn: (S, C, nat) -> Ran<S, C>, world: seq<World<S>>, initial: C)
    requires WorldValid(world)
    requires forall s: S, c: C, k: nat :: fn(s, c, k).error != Some(RetryLimitExceeded)
    requires forall i | 0 <= i < |world| ::
               world[i].beginError != Some(RetryLimitExceeded) && world[i].commitError != Some(RetryLimitExceeded)
    ensures From(fn, world, 1, initial).error != Some(RetryLimitExceeded)
  {
  }
}
