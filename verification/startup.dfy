/**
 The start-up sequence of `main` (bot.py:301-396): the configuration check,
 then up to five polling attempts with a fixed ten-second pause after each
 retryable failure. How each polling attempt ends is a parameter.
 */
module Startup {

  /** How one `run_polling` call ended. */
  datatype Attempt =
    | Stopped      // returned normally
    | Conflict     // another instance holds the session
    | Failed       // any other exception
    | Interrupted  // Ctrl+C

  datatype Exit = MissingToken | MissingApiKey | StoppedNormally | StoppedByUser | GaveUp

  const MaxRetries: nat := 5
  const RetryDelay: nat := 10

  predicate Retryable(a: Attempt) {
    a == Conflict || a == Failed
  }

  /**
   The retry loop: attempt `i` ends as `poll(i)`. Returns the number of
   attempts made, the seconds slept, and how the loop ended.
   */
  method RunWithRetries(poll: nat -> Attempt) returns (attempts: nat, slept: nat, exit: Exit)
    ensures 1 <= attempts <= MaxRetries
    ensures forall i :: 0 <= i < attempts - 1 ==> Retryable(poll(i))
    ensures exit == StoppedNormally <==> poll(attempts - 1) == Stopped
    ensures exit == StoppedByUser <==> poll(attempts - 1) == Interrupted
    ensures exit == GaveUp <==> Retryable(poll(attempts - 1))
    ensures exit == GaveUp ==> attempts == MaxRetries
    ensures slept == RetryDelay * (attempts - 1)
  {
    var i: nat := 0;
    slept := 0;
    while true
      invariant i < MaxRetries
      invariant forall j :: 0 <= j < i ==> Retryable(poll(j))
      invariant slept == RetryDelay * i
      decreases MaxRetries - i
    {
      var outcome := poll(i);
      if outcome == Stopped {
        return i + 1, slept, StoppedNormally;
      } else if outcome == Interrupted {
        return i + 1, slept, StoppedByUser;
      } else if i < MaxRetries - 1 {
        slept := slept + RetryDelay;
        i := i + 1;
      } else {
        return i + 1, slept, GaveUp;
      }
    }
  }

  /** The process exit status: only giving up (the re-raised error) exits with 1. */
  function ExitCode(e: Exit): int {
    if e == GaveUp then 1 else 0
  }

  /** `main`: both credentials are required before any polling attempt. */
  method StartBot(token: string, apiKey: string, poll: nat -> Attempt)
    returns (attempts: nat, slept: nat, exit: Exit, code: int)
    ensures token == [] ==> attempts == 0 && slept == 0 && exit == MissingToken
    ensures token != [] && apiKey == [] ==> attempts == 0 && slept == 0 && exit == MissingApiKey
    // with both credentials, the retry loop's behaviour
    ensures token != [] && apiKey != [] ==>
              && 1 <= attempts <= MaxRetries
              && (forall i :: 0 <= i < attempts - 1 ==> Retryable(poll(i)))
              && (exit == StoppedNormally <==> poll(attempts - 1) == Stopped)
              && (exit == StoppedByUser <==> poll(attempts - 1) == Interrupted)
              && (exit == GaveUp <==> Retryable(poll(attempts - 1)))
              && slept == RetryDelay * (attempts - 1)
    ensures attempts <= MaxRetries && slept <= RetryDelay * (MaxRetries - 1)
    // the exit status is 0 or 1, and 1 only after the last attempt failed retryably
    ensures code in {0, 1}
    ensures code == 1 <==> exit == GaveUp
    ensures code == 1 <==> attempts == MaxRetries && Retryable(poll(MaxRetries - 1))
  {
    if token == [] {
      return 0, 0, MissingToken, 0;
    }
    if apiKey == [] {
      return 0, 0, MissingApiKey, 0;
    }
    attempts, slept, exit := RunWithRetries(poll);
    code := ExitCode(exit);
  }
}
