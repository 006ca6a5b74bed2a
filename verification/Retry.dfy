/**
 * Retry with exponential backoff, once as a loop and once as a recursion
 * (nftopia-frontend/hooks/useOptimizedFetch.ts and nftopia-frontend/utils/fetchUtils.ts).
 */
module Retry {
  import opened Common

  datatype AppApiError = AppApiError(code: string, retryable: bool)

  /** What an attempt can throw: an API error, here also by the status of a refused response, an aborted or failed fetch, or anything else. */
  datatype Thrown = Refused(status: int) | Api(error: AppApiError) | AbortError | FailedToFetch | Unexpected

  datatype Attempt<T> = Returned(value: T) | Threw(thrown: Thrown)

  /** Only a status of 500 and above is worth another try. */
  function ParseResponseError(status: int): (e: AppApiError)
    ensures e.retryable <==> status >= 500
    ensures e.code == "VALIDATION_ERROR" <==> status in {400, 422}
    ensures e.code == "UNAUTHORIZED" <==> status == 401
    ensures e.code == "FORBIDDEN" <==> status == 403
  {
    match status
    case 401 => AppApiError("UNAUTHORIZED", false)
    case 403 => AppApiError("FORBIDDEN", false)
    case 422 => AppApiError("VALIDATION_ERROR", false)
    case 400 => AppApiError("VALIDATION_ERROR", false)
    case _ => if status >= 500 then AppApiError("SERVER_ERROR", true) else AppApiError("UNKNOWN_ERROR", false)
  }

  /** An API error stays as it is; whatever did not come from the server is retried. */
  function Normalize(t: Thrown): (e: AppApiError)
    ensures t.Api? ==> e == t.error
    ensures !t.Api? ==> (e.retryable <==> (t.Refused? ==> t.status >= 500))
    ensures e.code == "TIMEOUT" && !t.Api? <==> t.AbortError?
    ensures e.code == "NETWORK_ERROR" && !t.Api? <==> t.FailedToFetch?
  {
    match t
    case Refused(status) => ParseResponseError(status)
    case Api(error) => error
    case AbortError => AppApiError("TIMEOUT", true)
    case FailedToFetch => AppApiError("NETWORK_ERROR", true)
    case Unexpected => AppApiError("UNKNOWN_ERROR", true)
  }

  /** How a retrying fetch ends; `Nothing` is the loop's `lastError` when it never ran. */
  datatype Ending<T> = Got(value: T) | Failed(error: AppApiError) | Cancelled | Nothing

  /** The ending, the number of attempts, and the waits between them in ms. */
  datatype Report<T> = Report(ending: Ending<T>, attempts: nat, waits: seq<int>)

  /** The attempts a caller would see, in order; and whether the signal is aborted when attempt `i` has failed. */
  type Attempts<T> = nat -> Attempt<T>
  type Signal = nat -> bool

  // ----- The loop of useOptimizedFetch -----

  function LoopFrom<T>(f: Attempts<T>, aborted: Signal, maxRetries: int, delay: int, i: nat, waits: seq<int>): Report<T>
    decreases maxRetries - i
  {
    if i > maxRetries then Report(Nothing, i, waits)
    else if f(i).Returned? then Report(Got(f(i).value), i + 1, waits)
    else if aborted(i) then Report(Cancelled, i + 1, waits)
    else
      var error := Normalize(f(i).thrown);
      if i == maxRetries || !error.retryable then Report(Failed(error), i + 1, waits)
      else LoopFrom(f, aborted, maxRetries, delay, i + 1, waits + [delay * Pow2(i)])
  }

  method FetchWithRetries<T>(f: Attempts<T>, aborted: Signal, maxRetries: int, retryDelay: int) returns (r: Report<T>)
    ensures r == LoopFrom(f, aborted, maxRetries, retryDelay, 0, [])
  {
    var waits: seq<int> := [];
    var i: nat := 0;
    while i <= maxRetries
      invariant LoopFrom(f, aborted, maxRetries, retryDelay, i, waits) == LoopFrom(f, aborted, maxRetries, retryDelay, 0, [])
      decreases maxRetries - i
    {
      var outcome := f(i);
      if outcome.Returned? {
        return Report(Got(outcome.value), i + 1, waits);
      }
      if aborted(i) {
        return Report(Cancelled, i + 1, waits);
      }
      var normalized := Normalize(outcome.thrown);
      if i == maxRetries || !normalized.retryable {
        return Report(Failed(normalized), i + 1, waits);
      }
      waits := waits + [retryDelay * Pow2(i)];
      i := i + 1;
    }
    r := Report(Nothing, i, waits);
  }

  // ----- The recursion of retryWithBackoff -----

  /** `done` attempts have been made before this call. */
  function RetryWithBackoff<T>(f: Attempts<T>, done: nat, retries: int, delay: int): Report<T>
    decreases if retries > 0 then retries else 0
  {
    if f(done).Returned? then Report(Got(f(done).value), done + 1, [])
    else
      var error := Normalize(f(done).thrown);
      if retries <= 0 || !error.retryable then Report(Failed(error), done + 1, [])
      else
        var rest := RetryWithBackoff(f, done + 1, retries - 1, delay * 2);
        rest.(waits := [delay] + rest.waits)
  }

  /** The first of the attempts `i`, ..., `n - 1` that fails with the signal aborted, or `n`. */
  function FirstAbort<T>(f: Attempts<T>, aborted: Signal, i: nat, n: nat): (k: nat)
    requires i <= n
    ensures i <= k <= n
    ensures forall j :: i <= j < k ==> f(j).Returned? || !aborted(j)
    ensures k < n ==> f(k).Threw? && aborted(k)
    decreases n - i
  {
    if i == n || (f(i).Threw? && aborted(i)) then i else FirstAbort(f, aborted, i + 1, n)
  }

  /** A report whose attempts began at `i`, cut off by an abort seen after attempt `k`. */
  function CutOff<T>(r: Report<T>, i: nat, k: nat): Report<T>
    requires i <= k <= r.attempts && |r.waits| == r.attempts - 1 - i
  {
    if k == r.attempts then r else Report(Cancelled, k + 1, r.waits[..k - i])
  }

  function After<T>(waits: seq<int>, r: Report<T>): Report<T> {
    r.(waits := waits + r.waits)
  }

  lemma CutOffLater<T>(r: Report<T>, i: nat, k: nat, wait: int)
    requires i + 1 <= k <= r.attempts && |r.waits| == r.attempts - 2 - i
    ensures CutOff(After([wait], r), i, k) == After([wait], CutOff(r, i + 1, k))
  {
  }

  lemma AfterBoth<T>(waits: seq<int>, wait: int, r: Report<T>)
    ensures After(waits + [wait], r) == After(waits, After([wait], r))
  {
    assert waits + [wait] + r.waits == waits + ([wait] + r.waits);
  }

  /** One attempt of the recursion. */
  lemma RecursionStep<T>(f: Attempts<T>, limit: nat, i: nat, wait: int)
    requires i <= limit
    ensures RetryWithBackoff(f, i, limit - i, wait)
         == (if Retried(f, limit, i) then After([wait], RetryWithBackoff(f, i + 1, limit - (i + 1), wait * 2))
             else Report(if f(i).Returned? then Got(f(i).value) else Failed(Normalize(f(i).thrown)), i + 1, []))
  {
  }

  /** One attempt of the loop. */
  lemma LoopStep<T>(f: Attempts<T>, aborted: Signal, limit: nat, delay: int, i: nat, waits: seq<int>)
    requires i <= limit
    ensures LoopFrom(f, aborted, limit, delay, i, waits)
         == (if f(i).Threw? && aborted(i) then Report(Cancelled, i + 1, waits)
             else if Retried(f, limit, i) then LoopFrom(f, aborted, limit, delay, i + 1, waits + [delay * Pow2(i)])
             else Report(if f(i).Returned? then Got(f(i).value) else Failed(Normalize(f(i).thrown)), i + 1, waits))
  {
  }

  /** The report of the recursion, cut off at the first abort, behind the waits so far. */
  function CutAtAbort<T>(f: Attempts<T>, aborted: Signal, r: Report<T>, i: nat, waits: seq<int>): Report<T>
    requires i < r.attempts && |r.waits| == r.attempts - 1 - i
  {
    After(waits, CutOff(r, i, FirstAbort(f, aborted, i, r.attempts)))
  }

  lemma CutLater<T>(f: Attempts<T>, aborted: Signal, rest: Report<T>, i: nat, waits: seq<int>, wait: int)
    requires i + 1 < rest.attempts && |rest.waits| == rest.attempts - 2 - i
    ensures CutAtAbort(f, aborted, After([wait], rest), i, waits)
         == (if f(i).Threw? && aborted(i) then Report(Cancelled, i + 1, waits)
             else CutAtAbort(f, aborted, rest, i + 1, waits + [wait]))
  {
    if !(f(i).Threw? && aborted(i)) {
      var k := FirstAbort(f, aborted, i + 1, rest.attempts);
      CutOffLater(rest, i, k, wait);
      AfterBoth(waits, wait, CutOff(rest, i + 1, k));
    }
  }

  /** From attempt `i` on the loop does what the recursion does, cut off at the first attempt that fails with the signal aborted. */
  lemma {:induction false} LoopMatchesRecursion<T>(f: Attempts<T>, aborted: Signal, maxRetries: nat, delay: int, i: nat, waits: seq<int>)
    requires i <= maxRetries
    ensures var recursive := RetryWithBackoff(f, i, maxRetries - i, delay * Pow2(i));
            && i < recursive.attempts && |recursive.waits| == recursive.attempts - 1 - i
            && LoopFrom(f, aborted, maxRetries, delay, i, waits) == CutAtAbort(f, aborted, recursive, i, waits)
    decreases maxRetries - i
  {
    var wait := delay * Pow2(i);
    RecursionStep(f, maxRetries, i, wait);
    LoopStep(f, aborted, maxRetries, delay, i, waits);
    if Retried(f, maxRetries, i) {
      DoubledDelay(delay, Pow2(i));
      LoopMatchesRecursion(f, aborted, maxRetries, delay, i + 1, waits + [wait]);
      CutLater(f, aborted, RetryWithBackoff(f, i + 1, maxRetries - (i + 1), wait * 2), i, waits, wait);
    }
  }

  /** An abort ends the loop at the first attempt that then fails: those attempts and waits are the recursion's, and no more are made. */
  lemma AbortCutsTheLoop<T>(f: Attempts<T>, aborted: Signal, retries: nat, delay: int, k: nat)
    requires var recursive := RetryWithBackoff(f, 0, retries, delay);
             k < recursive.attempts && k == FirstAbort(f, aborted, 0, recursive.attempts)
    ensures var recursive := RetryWithBackoff(f, 0, retries, delay);
            k <= |recursive.waits| && LoopFrom(f, aborted, retries, delay, 0, []) == Report(Cancelled, k + 1, recursive.waits[..k])
  {
    LoopMatchesRecursion(f, aborted, retries, delay, 0, []);
  }

  /**
   * Loop and recursion agree on the result, the attempts and every wait exactly when the retry
   * count is not negative (the loop then makes no attempt) and no attempt the recursion makes
   * fails with the signal aborted.
   */
  lemma SameRetriesIff<T>(f: Attempts<T>, aborted: Signal, retries: int, delay: int)
    ensures var recursive := RetryWithBackoff(f, 0, retries, delay);
            LoopFrom(f, aborted, retries, delay, 0, []) == recursive
            <==> retries >= 0 && FirstAbort(f, aborted, 0, recursive.attempts) == recursive.attempts
  {
    if retries >= 0 {
      assert delay * Pow2(0) == delay;
      LoopMatchesRecursion(f, aborted, retries, delay, 0, []);
      StopsAtFirst(f, 0, retries, delay);
    }
  }

  // ----- What either does -----

  /** A failure after which another attempt may help: the server failed, or no answer came from it. */
  predicate Temporary(t: Thrown) {
    match t
    case Refused(status) => status >= 500
    case Api(error) => error.retryable
    case AbortError => true
    case FailedToFetch => true
    case Unexpected => true
  }

  /** Attempt `i` is followed by another one. */
  predicate Retried<T>(f: Attempts<T>, retries: int, i: nat) {
    f(i).Threw? && i < retries && Temporary(f(i).thrown)
  }

  function Sum(xs: seq<int>): int {
    if xs == [] then 0 else xs[0] + Sum(xs[1..])
  }

  /** From attempt `done` on, attempts go on until the first that is not retried. */
  lemma {:induction false} StopsAtFirst<T>(f: Attempts<T>, done: nat, limit: nat, delay: int)
    requires done <= limit
    ensures var r := RetryWithBackoff(f, done, limit - done, delay);
            var k := r.attempts - 1;
            && done <= k <= limit && |r.waits| == k - done
            && (forall i: nat :: done <= i < k ==> Retried(f, limit, i))
            && !Retried(f, limit, k)
            && r.ending == (if f(k).Returned? then Got(f(k).value) else Failed(Normalize(f(k).thrown)))
    decreases limit - done
  {
    if Retried(f, limit, done) {
      StopsAtFirst(f, done + 1, limit, delay * 2);
    }
  }

  /** The waits `delay, 2 * delay, ...`, `n` of them. */
  function Doubling(delay: int, n: nat): seq<int>
    decreases n
  {
    if n == 0 then [] else [delay] + Doubling(2 * delay, n - 1)
  }

  lemma {:induction false} WaitsDouble<T>(f: Attempts<T>, done: nat, retries: nat, delay: int)
    ensures var waits := RetryWithBackoff(f, done, retries, delay).waits; waits == Doubling(delay, |waits|)
    decreases retries
  {
    if RetryWithBackoff(f, done, retries, delay).waits != [] {
      WaitsDouble(f, done + 1, retries - 1, delay * 2);
    }
  }

  lemma {:induction false} DoublingMeans(delay: int, n: nat)
    ensures |Doubling(delay, n)| == n
    ensures forall i :: 0 <= i < n ==> Doubling(delay, n)[i] == delay * Pow2(i)
    decreases n
  {
    if n > 0 {
      DoublingMeans(2 * delay, n - 1);
      forall i | 0 < i < n ensures Doubling(delay, n)[i] == delay * Pow2(i) {
        assert Doubling(delay, n)[i] == Doubling(2 * delay, n - 1)[i - 1];
        DoubledDelay(delay, Pow2(i - 1));
      }
    }
  }

  lemma {:induction false} DoublingAddsUp(delay: int, n: nat)
    ensures Sum(Doubling(delay, n)) == delay * (Pow2(n) - 1)
    decreases n
  {
    if n > 0 {
      DoublingAddsUp(2 * delay, n - 1);
      assert Doubling(delay, n)[1..] == Doubling(2 * delay, n - 1);
      DoubledSum(delay, Pow2(n - 1));
    }
  }

  lemma DoubledSum(delay: int, x: int)
    ensures delay + 2 * delay * (x - 1) == delay * (2 * x - 1)
  {
  }

  lemma DoubledDelay(delay: int, x: int)
    ensures 2 * delay * x == delay * (2 * x) == delay * x * 2
  {
  }

  /** Waits that double from `delay` on, and what they add up to. */
  ghost predicate BackingOff(waits: seq<int>, delay: int) {
    && (forall i :: 0 <= i < |waits| ==> waits[i] == delay * Pow2(i))
    && Sum(waits) == delay * (Pow2(|waits|) - 1)
  }

  lemma DoublingBacksOff(waits: seq<int>, delay: int)
    requires waits == Doubling(delay, |waits|)
    ensures BackingOff(waits, delay)
  {
    DoublingMeans(delay, |waits|);
    DoublingAddsUp(delay, |waits|);
  }

  /**
   * At most `retries + 1` attempts: the first that returns or throws something not retryable
   * is the last, the wait after attempt `i` is `delay * 2^i`, and `k` waits add up to
   * `delay * (2^k - 1)`.
   */
  lemma BackoffLaw<T>(f: Attempts<T>, retries: nat, delay: int)
    ensures var r := RetryWithBackoff(f, 0, retries, delay);
            var k := r.attempts - 1;
            && 0 <= k <= retries && |r.waits| == k
            && (forall i :: 0 <= i < k ==> Retried(f, retries, i))
            && !Retried(f, retries, k)
            && r.ending == (if f(k).Returned? then Got(f(k).value) else Failed(Normalize(f(k).thrown)))
            && BackingOff(r.waits, delay)
  {
    StopsAtFirst(f, 0, retries, delay);
    WaitsDouble(f, 0, retries, delay);
    DoublingBacksOff(RetryWithBackoff(f, 0, retries, delay).waits, delay);
  }
}
