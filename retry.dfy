/** The `retry_db_operation` decorator: a connection error is retried with an
    exponentially growing wait, any other error is passed straight on. The
    wrapped call is a parameter giving its outcome on each attempt, and the
    waits are returned instead of slept. */
module Retry {
  const DefaultMaxRetries := 3
  const DefaultDelay := 2

  /** What the wrapped call does on one attempt. */
  datatype CallOutcome<T> = Returns(value: T) | OperationalError | OtherError

  /** How the wrapper ends. `SleepRejected` is the error `time.sleep` raises
      for a negative wait. */
  datatype RetryResult<T> =
    | Value(value: T)
    | ReturnedFalse
    | RaisedOperational
    | RaisedOther
    | SleepRejected

  /** What the wrapper did: its result, the waits it slept, the calls it made. */
  datatype Trace<T> = Trace(result: RetryResult<T>, waits: seq<int>, calls: nat)

  function Pow2(k: nat): (p: nat)
    ensures p >= 1
  {
    if k == 0 then 1 else 2 * Pow2(k - 1)
  }

  /** The wait after a failed attempt `attempt`. */
  function Wait(delay: int, attempt: nat): int
  {
    delay * Pow2(attempt)
  }

  /** The wrapper's loop from attempt `attempt` on. */
  function RetryFrom<T>(call: nat -> CallOutcome<T>, attempt: nat, maxRetries: int, delay: int): Trace<T>
    decreases maxRetries - attempt
  {
    if maxRetries <= attempt then Trace(ReturnedFalse, [], 0)
    else
      match call(attempt)
      case Returns(v) => Trace(Value(v), [], 1)
      case OtherError => Trace(RaisedOther, [], 1)
      case OperationalError =>
        if attempt == maxRetries - 1 then Trace(RaisedOperational, [], 1)
        else if Wait(delay, attempt) < 0 then Trace(SleepRejected, [], 1)
        else
          var rest := RetryFrom(call, attempt + 1, maxRetries, delay);
          Trace(rest.result, [Wait(delay, attempt)] + rest.waits, rest.calls + 1)
  }

  function RetryDbOperation<T>(call: nat -> CallOutcome<T>, maxRetries: int, delay: int): Trace<T>
  {
    RetryFrom(call, 0, maxRetries, delay)
  }

  /** From attempt `attempt` on: the calls stay within the attempts left; all
      but the last failed with a connection error and was followed by the
      scheduled wait; and the result is what the last call did. */
  lemma {:induction false} RetryFromSpec<T>(call: nat -> CallOutcome<T>, attempt: nat, maxRetries: int, delay: int)
    ensures var t := RetryFrom(call, attempt, maxRetries, delay);
      && (t.calls == 0 <==> maxRetries <= attempt)
      && (t.calls == 0 ==> t.result == ReturnedFalse && t.waits == [])
      && attempt + t.calls <= (if maxRetries <= attempt then attempt else maxRetries)
      && (t.calls > 0 ==> |t.waits| == t.calls - 1)
      && (forall k | 0 <= k < |t.waits| :: t.waits[k] == Wait(delay, attempt + k) >= 0)
      && (forall k | attempt <= k < attempt + t.calls - 1 :: call(k).OperationalError?)
    decreases maxRetries - attempt
  {
    var t := RetryFrom(call, attempt, maxRetries, delay);
    if attempt < maxRetries && call(attempt).OperationalError? && attempt != maxRetries - 1 && Wait(delay, attempt) >= 0 {
      RetryFromSpec(call, attempt + 1, maxRetries, delay);
      var rest := RetryFrom(call, attempt + 1, maxRetries, delay);
      assert t.waits == [Wait(delay, attempt)] + rest.waits;
      forall k | 0 <= k < |t.waits|
        ensures t.waits[k] == Wait(delay, attempt + k) >= 0
      {
        if k > 0 {
          assert t.waits[k] == rest.waits[k - 1] == Wait(delay, attempt + 1 + (k - 1));
        }
      }
    }
  }

  /** How the last call made decides the result. */
  lemma {:induction false} RetryFromEnd<T>(call: nat -> CallOutcome<T>, attempt: nat, maxRetries: int, delay: int)
    requires attempt < maxRetries
    ensures var t := RetryFrom(call, attempt, maxRetries, delay);
      var last := attempt + t.calls - 1;
      && attempt <= last < maxRetries
      && (t.result.Value? <==> call(last).Returns?)
      && (t.result.Value? ==> t.result.value == call(last).value)
      && (t.result == RaisedOther <==> call(last).OtherError?)
      && (t.result == RaisedOperational <==> call(last).OperationalError? && last == maxRetries - 1)
      && (t.result == SleepRejected <==> call(last).OperationalError? && last < maxRetries - 1)
      && (t.result == SleepRejected ==> Wait(delay, last) < 0)
    decreases maxRetries - attempt
  {
    RetryFromSpec(call, attempt, maxRetries, delay);
    if call(attempt).OperationalError? && attempt != maxRetries - 1 && Wait(delay, attempt) >= 0 {
      RetryFromEnd(call, attempt + 1, maxRetries, delay);
    }
  }

  /** The wrapper as a whole: `max_retries` bounds the calls, the k-th wait is
      `delay * 2^k`, a connection error on the final attempt is re-raised with
      no wait after it, any other error ends the loop at once, and `False` is
      returned exactly when there is no attempt at all. */
  lemma RetrySpec<T>(call: nat -> CallOutcome<T>, maxRetries: int, delay: int)
    ensures var t := RetryDbOperation(call, maxRetries, delay);
      && t.calls <= (if maxRetries <= 0 then 0 else maxRetries)
      && (t.result == ReturnedFalse <==> maxRetries <= 0)
      && (forall k | 0 <= k < |t.waits| :: t.waits[k] == delay * Pow2(k))
      && (t.result == RaisedOperational ==> t.calls == maxRetries && |t.waits| == maxRetries - 1)
      && (t.result == RaisedOther ==> 0 < t.calls && call(t.calls - 1).OtherError?)
      && (t.result.Value? ==> 0 < t.calls && call(t.calls - 1).Returns? && t.result.value == call(t.calls - 1).value)
  {
    RetryFromSpec(call, 0, maxRetries, delay);
    if 0 < maxRetries {
      RetryFromEnd(call, 0, maxRetries, delay);
    }
  }

  /** The decorator's loop, with the waits collected. */
  method Retrying<T>(call: nat -> CallOutcome<T>, maxRetries: int, delay: int) returns (result: RetryResult<T>, waits: seq<int>, calls: nat)
    ensures Trace(result, waits, calls) == RetryDbOperation(call, maxRetries, delay)
  {
    waits, calls := [], 0;
    var attempt: nat := 0;
    while attempt < maxRetries
      invariant calls == attempt
      invariant var rest := RetryFrom(call, attempt, maxRetries, delay);
        RetryDbOperation(call, maxRetries, delay) == Trace(rest.result, waits + rest.waits, calls + rest.calls)
      decreases maxRetries - attempt
    {
      var outcome := call(attempt);
      calls := calls + 1;
      match outcome {
        case Returns(v) => { return Value(v), waits, calls; }
        case OtherError => { return RaisedOther, waits, calls; }
        case OperationalError =>
          if attempt == maxRetries - 1 {
            return RaisedOperational, waits, calls;
          }
          var wait := delay * Pow2(attempt);
          if wait < 0 {
            return SleepRejected, waits, calls;
          }
          var rest := RetryFrom(call, attempt + 1, maxRetries, delay);
          assert waits + [wait] + rest.waits == waits + ([wait] + rest.waits);
          waits := waits + [wait];
      }
      attempt := attempt + 1;
    }
    result := ReturnedFalse;
  }
}
