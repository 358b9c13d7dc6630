/**
 The bounded wait for a published version to be served: poll, and between polls
 sleep for a delay that doubles up to a cap, until the window has closed.
 */
module NpmVisibility {
  import opened Wrappers

  // One lookup: the version is not served, the answer is an error, or the exact
  // release is served.
  datatype Poll<+T> = Absent | Failed(error: string) | Served(release: T)

  datatype Wait<+T> = Wait(attempts: nat, lastFailure: Option<string>, observed: Option<T>)

  const WINDOW: nat := 1_500_000
  const FIRST_DELAY: nat := 5_000
  const MAXIMUM_DELAY: nat := 60_000

  function Min(a: int, b: int): int { if a <= b then a else b }

  function Power(n: nat): nat { if n == 0 then 1 else 2 * Power(n - 1) }

  // The source takes a shortcut from the fifth attempt on.
  function Delay(attempt: nat): nat
    requires attempt > 0
  {
    if attempt >= 5 then MAXIMUM_DELAY
    else Min(FIRST_DELAY * Power(attempt - 1), MAXIMUM_DELAY)
  }

  lemma {:induction false} PowerAtLeast16(n: nat)
    requires n >= 4
    ensures Power(n) >= 16
  {
    if n == 4 {
      assert Power(2) == 4;
    } else {
      PowerAtLeast16(n - 1);
    }
  }

  // The shortcut changes nothing: every delay is the capped doubling.
  lemma DelayIsCappedDoubling(attempt: nat)
    requires attempt > 0
    ensures Delay(attempt) == Min(FIRST_DELAY * Power(attempt - 1), MAXIMUM_DELAY)
    ensures 0 < Delay(attempt) <= MAXIMUM_DELAY
  {
    if attempt >= 5 {
      PowerAtLeast16(attempt - 1);
    } else {
      assert Power(1) == 2 && Power(2) == 4;
    }
  }

  // The clock after each poll, when every sleep lasts at least as long as asked.
  ghost predicate SleepsAtLeast(begin: int, clock: nat -> int, window: nat) {
    && clock(1) >= begin
    && forall k: nat {:trigger Delay(k)} ::
      k >= 1 ==> clock(k + 1) >= clock(k) + Min(Delay(k), begin + window - clock(k))
  }

  // The total of the first n uncapped sleeps.
  function Slept(n: nat): nat {
    if n == 0 then 0 else Slept(n - 1) + Delay(n)
  }

  lemma {:induction false} SleptClosed(n: nat)
    requires n >= 4
    ensures Slept(n) == 75_000 + 60_000 * (n - 4)
  {
    if n == 4 {
      assert Power(1) == 2 && Power(2) == 4 && Power(3) == 8;
      assert Slept(1) == 5_000 && Slept(2) == 15_000 && Slept(3) == 35_000;
    } else {
      SleptClosed(n - 1);
    }
  }

  // After k polls either the window has closed or every sleep so far ran in full.
  lemma {:induction false} ClockAfterPolls(begin: int, clock: nat -> int, window: nat, k: nat)
    requires SleepsAtLeast(begin, clock, window) && k >= 1
    ensures clock(k) >= begin + Min(Slept(k - 1), window)
  {
    if k > 1 {
      ClockAfterPolls(begin, clock, window, k - 1);
      assert clock(k - 1 + 1) >= clock(k - 1) + Min(Delay(k - 1), begin + window - clock(k - 1));
      DelayIsCappedDoubling(k - 1);
    }
  }

  lemma ClockAdvances(begin: int, clock: nat -> int, window: nat, k: nat)
    requires SleepsAtLeast(begin, clock, window) && k >= 1
    requires clock(k) < begin + window
    ensures clock(k + 1) > clock(k)
  {
    DelayIsCappedDoubling(k);
  }

  lemma WindowClosesBy29(begin: int, clock: nat -> int, window: nat)
    requires SleepsAtLeast(begin, clock, window)
    ensures window == WINDOW ==> clock(29) >= begin + window
  {
    ClockAfterPolls(begin, clock, window, 29);
    SleptClosed(28);
  }

  // ----------------------------------------------------------------- the wait

  function LastFailure<T>(polls: nat -> Poll<T>, n: nat): Option<string> {
    if n == 0 then None
    else if polls(n).Failed? then Some(polls(n).error)
    else LastFailure(polls, n - 1)
  }

  const ABSENT_STATE := "the exact version is not served yet"

  function StateOf<T>(poll: Poll<T>): string
    requires !poll.Served?
  {
    if poll.Failed? then poll.error else ABSENT_STATE
  }

  // The polls that found another state than the poll before.
  function Changes<T>(polls: nat -> Poll<T>, n: nat): seq<(nat, string)>
    requires forall k :: 1 <= k <= n ==> !polls(k).Served?
  {
    if n == 0 then []
    else if n > 1 && StateOf(polls(n)) == StateOf(polls(n - 1)) then Changes(polls, n - 1)
    else Changes(polls, n - 1) + [(n, StateOf(polls(n)))]
  }

  // Polls until one serves a release, or one ends after the deadline. The
  // answer of poll k is polls(k), and clock(k) is the time once it has ended.
  method AwaitVisibility<T>(polls: nat -> Poll<T>, begin: int, clock: nat -> int, window: nat)
    returns (result: Wait<T>, log: seq<(nat, string)>)
    requires SleepsAtLeast(begin, clock, window)
    ensures result.attempts >= 1
    ensures forall k :: 1 <= k < result.attempts ==> !polls(k).Served? && clock(k) < begin + window
    ensures result.observed.Some? <==> polls(result.attempts).Served?
    ensures result.observed.Some? ==> polls(result.attempts) == Served(result.observed.value)
    ensures result.observed.None? ==> clock(result.attempts) >= begin + window
    ensures result.lastFailure == LastFailure(polls, result.attempts)
    ensures log == Changes(polls, if result.observed.Some? then result.attempts - 1 else result.attempts)
    ensures window == WINDOW ==> result.attempts <= 29
  {
    WindowClosesBy29(begin, clock, window);
    var deadline := begin + window;
    var attempts := 0;
    var lastFailure: Option<string> := None;
    var lastState: Option<string> := None;
    log := [];
    while true
      invariant forall k :: 1 <= k <= attempts ==> !polls(k).Served? && clock(k) < deadline
      invariant lastFailure == LastFailure(polls, attempts)
      invariant lastState == if attempts == 0 then None else Some(StateOf(polls(attempts)))
      invariant log == Changes(polls, attempts)
      invariant window == WINDOW ==> attempts <= 28
      decreases attempts == 0, if attempts == 0 then 0 else deadline - clock(attempts)
    {
      if attempts > 0 {
        ClockAdvances(begin, clock, window, attempts);
      }
      attempts := attempts + 1;
      if polls(attempts).Served? {
        return Wait(attempts, lastFailure, Some(polls(attempts).release)), log;
      }
      var state := ABSENT_STATE;
      if polls(attempts).Failed? {
        lastFailure := Some(polls(attempts).error);
        state := polls(attempts).error;
      }
      if lastState != Some(state) {
        log := log + [(attempts, state)];
        lastState := Some(state);
      }
      var remaining := deadline - clock(attempts);
      if remaining <= 0 {
        return Wait(attempts, lastFailure, None), log;
      }
    }
  }

  // With instant lookups and exact sleeps the bound of 29 polls is reached.
  function ExactClock(k: nat): int {
    if k <= 1 then 0 else ExactClock(k - 1) + Min(Delay(k - 1), WINDOW - ExactClock(k - 1))
  }

  lemma {:induction false} ExactClockIsSlept(k: nat)
    requires k >= 1
    ensures ExactClock(k) == Min(Slept(k - 1), WINDOW)
  {
    if k > 1 {
      ExactClockIsSlept(k - 1);
      DelayIsCappedDoubling(k - 1);
    }
  }

  lemma BoundIsReached()
    ensures SleepsAtLeast(0, (k: nat) => ExactClock(k), WINDOW)
    ensures ExactClock(28) < WINDOW == ExactClock(29)
  {
    ExactClockSleeps();
    ExactClockAt(29);
    ExactClockAt(28);
  }

  lemma ExactClockSleeps()
    ensures SleepsAtLeast(0, (k: nat) => ExactClock(k), WINDOW)
  {
    forall k: nat | k >= 1
      ensures ExactClock(k + 1) >= ExactClock(k) + Min(Delay(k), WINDOW - ExactClock(k))
    {
    }
  }

  lemma ExactClockAt(k: nat)
    requires k >= 5
    ensures ExactClock(k) == Min(75_000 + 60_000 * (k - 5), WINDOW)
  {
    ExactClockIsSlept(k);
    SleptClosed(k - 1);
  }
}
