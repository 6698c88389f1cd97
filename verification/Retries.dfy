/** Client::request of the Rust client: retries with exponential backoff.  Durations are in
    nanoseconds. */
module Retries {
  import opened Options

  /** The largest std Duration: 2^64 - 1 seconds and 999_999_999 nanoseconds. */
  const MAX_DURATION: nat := 0xFFFF_FFFF_FFFF_FFFF * 1_000_000_000 + 999_999_999

  /** What one do_request comes to.  Only an error frame of the server is final. */
  datatype Attempt<+R, +E> = Good(resp: R) | Server(error: E) | Transport(error: E)

  datatype Outcome<+R, +E> = Returned(resp: R) | Failed(error: E) | Panicked

  /** The outcome, how many attempts were made and how long the client slept. */
  datatype Report<+R, +E> = Report(outcome: Outcome<R, E>, attempts: nat, slept: nat)

  /** Retry settings, and whether the build checks integer overflow. */
  datatype Settings = Settings(maxRetries: nat, base: nat, checked: bool)

  function Pow2(n: nat): (p: nat)
    ensures p >= 1
  {
    if n == 0 then 1 else 2 * Pow2(n - 1)
  }

  /** The sleep before retry k, or None if computing it panics: the factor is a 32-bit power of
      two, which wraps to zero in an unchecked build, and a duration that is too long panics in
      any build. */
  function Delay(s: Settings, k: nat): Option<nat>
    requires k >= 1
  {
    if k > 32 then (if s.checked then None else Some(0))
    else if s.base * Pow2(k - 1) > MAX_DURATION then None
    else Some(s.base * Pow2(k - 1))
  }

  /** The request from the given attempt on. */
  function From<R, E>(s: Settings, results: nat -> Attempt<R, E>, attempt: nat, slept: nat): Report<R, E>
    requires attempt <= s.maxRetries
    decreases s.maxRetries - attempt
  {
    var delay := if attempt == 0 then Some(0) else Delay(s, attempt);
    if delay.None? then Report(Panicked, attempt, slept) else
    var total := slept + delay.value;
    match results(attempt)
    case Good(resp) => Report(Returned(resp), attempt + 1, total)
    case Server(e) => Report(Failed(e), attempt + 1, total)
    case Transport(e) =>
      if attempt == s.maxRetries then Report(Failed(e), attempt + 1, total)
      else From(s, results, attempt + 1, total)
  }

  /** A 32-bit power of two as the build computes it. */
  function PowU32(n: nat, checked: bool): Option<nat>
  {
    if n < 32 then Some(Pow2(n)) else if checked then None else Some(0)
  }

  method Request<R, E>(s: Settings, results: nat -> Attempt<R, E>) returns (r: Report<R, E>)
    ensures r == From(s, results, 0, 0)
  {
    var slept: nat := 0;
    var attempt: nat := 0;
    while true
      invariant attempt <= s.maxRetries
      invariant From(s, results, attempt, slept) == From(s, results, 0, 0)
      decreases s.maxRetries - attempt
    {
      if attempt > 0 {
        var factor := PowU32(attempt - 1, s.checked);
        if factor.None? || s.base * factor.value > MAX_DURATION {
          return Report(Panicked, attempt, slept);
        }
        slept := slept + s.base * factor.value;
      }
      match results(attempt) {
        case Good(resp) =>
          return Report(Returned(resp), attempt + 1, slept);
        case Server(e) =>
          return Report(Failed(e), attempt + 1, slept);
        case Transport(e) =>
          if attempt == s.maxRetries {
            return Report(Failed(e), attempt + 1, slept);
          }
      }
      attempt := attempt + 1;
    }
  }

  /** The sum of the delays before retries 1..k. */
  function Backoff(s: Settings, k: nat): nat { s.base * (Pow2(k) - 1) }

  lemma BackoffStep(s: Settings, k: nat)
    ensures Backoff(s, k + 1) == Backoff(s, k) + s.base * Pow2(k)
    ensures Backoff(s, 0) == 0
  {}

  /** What a caller can rely on, for every sequence of results: at most maxRetries + 1 attempts, all
      but the last of them transport failures; the last decides, and it is the first that is not a
      transport failure or the last one allowed; before the k-th retry's attempt the client has
      slept base * (2^k - 1), which no longer grows after the 32nd retry. */
  ghost predicate Faithful<R, E>(s: Settings, results: nat -> Attempt<R, E>, r: Report<R, E>)
  {
    && r.attempts <= s.maxRetries + 1
    && (forall i: nat :: i + 1 < r.attempts ==> results(i).Transport?)
    && (r.outcome.Panicked? ==>
          1 <= r.attempts <= s.maxRetries && results(r.attempts - 1).Transport? && Delay(s, r.attempts).None?)
    && (!r.outcome.Panicked? ==>
          r.attempts >= 1 &&
          match results(r.attempts - 1)
          case Good(resp) => r.outcome == Returned(resp)
          case Server(e) => r.outcome == Failed(e)
          case Transport(e) => r.outcome == Failed(e) && r.attempts == s.maxRetries + 1)
    && (r.attempts >= 1 ==> r.slept == Backoff(s, if r.attempts <= 33 then r.attempts - 1 else 32))
  }

  lemma {:induction false} FromFaithful<R, E>(s: Settings, results: nat -> Attempt<R, E>, attempt: nat, slept: nat)
    requires attempt <= s.maxRetries
    requires forall i: nat :: i < attempt ==> results(i).Transport?
    requires attempt == 0 ==> slept == 0
    requires attempt >= 1 ==> slept == Backoff(s, if attempt <= 33 then attempt - 1 else 32)
    ensures Faithful(s, results, From(s, results, attempt, slept))
    decreases s.maxRetries - attempt
  {
    hide Backoff;
    var delay := if attempt == 0 then Some(0) else Delay(s, attempt);
    if attempt >= 1 {
      BackoffStep(s, attempt - 1);
    } else {
      BackoffStep(s, 0);
    }
    if delay.Some? && results(attempt).Transport? && attempt < s.maxRetries {
      FromFaithful(s, results, attempt + 1, slept + delay.value);
    }
  }

  lemma RequestFaithful<R, E>(s: Settings, results: nat -> Attempt<R, E>)
    ensures Faithful(s, results, From(s, results, 0, 0))
  {
    FromFaithful(s, results, 0, 0);
  }

  // ---------------------------------------------------------------- overflow

  lemma {:induction false} PowMonotone(a: nat, b: nat)
    requires a <= b
    ensures Pow2(a) <= Pow2(b)
  {
    if a < b {
      PowMonotone(a, b - 1);
    }
  }

  ghost predicate NeverPanics<R(!new), E(!new)>(s: Settings)
  {
    forall results: nat -> Attempt<R, E> :: !From(s, results, 0, 0).outcome.Panicked?
  }

  lemma {:induction false} AllDelaysFine<R, E>(s: Settings, results: nat -> Attempt<R, E>, attempt: nat, slept: nat)
    requires attempt <= s.maxRetries && forall k: nat :: 1 <= k <= s.maxRetries ==> Delay(s, k).Some?
    ensures !From(s, results, attempt, slept).outcome.Panicked?
    decreases s.maxRetries - attempt
  {
    if attempt < s.maxRetries {
      AllDelaysFine(s, results, attempt + 1, slept + (if attempt == 0 then 0 else Delay(s, attempt).value));
    }
  }

  lemma {:induction false} ReachesBadDelay<R, E>(s: Settings, results: nat -> Attempt<R, E>, attempt: nat, slept: nat, bad: nat)
    requires forall i: nat :: results(i).Transport?
    requires attempt <= bad && 1 <= bad <= s.maxRetries && Delay(s, bad).None?
    ensures From(s, results, attempt, slept).outcome.Panicked?
    decreases bad - attempt
  {
    if attempt < bad {
      var delay := if attempt == 0 then Some(0) else Delay(s, attempt);
      if delay.Some? {
        ReachesBadDelay(s, results, attempt + 1, slept + delay.value, bad);
      }
    }
  }

  /** The last delay the settings allow can be computed: a checked build needs at most 32 retries,
      and the longest delay must be a duration. */
  predicate DelaysFit(s: Settings)
  {
    && (s.checked ==> s.maxRetries <= 32)
    && (s.maxRetries >= 1 ==> s.base * Pow2((if s.maxRetries <= 32 then s.maxRetries else 32) - 1) <= 18_446_744_073_709_551_615_999_999_999)
  }

  lemma AllDelaysFit(s: Settings)
    requires DelaysFit(s)
    ensures forall k: nat :: 1 <= k <= s.maxRetries ==> Delay(s, k).Some?
  {
    hide Pow2;
    var top := if s.maxRetries <= 32 then s.maxRetries else 32;
    forall k: nat | 1 <= k <= s.maxRetries ensures Delay(s, k).Some? {
      if k <= 32 {
        PowMonotone(k - 1, top - 1);
        assert s.base * Pow2(k - 1) <= s.base * Pow2(top - 1);
      }
    }
  }

  /** No sequence of results makes a request panic exactly if the delays fit. */
  lemma PanicFreeExactly<R(!new), E(!new)>(s: Settings, error: E)
    ensures NeverPanics<R, E>(s) <==> DelaysFit(s)
  {
    hide Pow2;
    var always: nat -> Attempt<R, E> := i => Transport(error);
    if s.maxRetries >= 1 {
      var top := if s.maxRetries <= 32 then s.maxRetries else 32;
      var bad := if s.checked && s.maxRetries > 32 then 33 else top;
      if Delay(s, bad).None? {
        ReachesBadDelay(s, always, 0, 0, bad);
        assert From(s, always, 0, 0).outcome.Panicked?;
      }
    }
    if DelaysFit(s) {
      AllDelaysFit(s);
      forall results: nat -> Attempt<R, E> ensures !From(s, results, 0, 0).outcome.Panicked? {
        AllDelaysFine(s, results, 0, 0);
      }
    }
  }

  /** A server that is never reached, 33 retries and a checked build: the 33rd delay panics. */
  lemma PanicExample<R, E>(error: E)
    ensures From(Settings(33, 0, true), (i: nat) => Attempt<R, E>.Transport(error), 0, 0).outcome.Panicked?
  {
    hide From;
    ReachesBadDelay(Settings(33, 0, true), (i: nat) => Attempt<R, E>.Transport(error), 0, 0, 33);
  }
}
