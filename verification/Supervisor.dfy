/** The supervisor's restart loop: a sliding window of failures, and a growing delay. All times and
    durations are nanoseconds. */
module Supervisor {
  import opened Common

  datatype Options = Options(window: int, maxFailures: int, stableAfter: int, initialDelay: int, maxDelay: int) {
    /** What applyDefaults leaves: nothing zero or negative, durations of 64 bits. */
    predicate Valid() {
      window > 0 && maxFailures > 0 && stableAfter > 0
      && 0 < initialDelay <= MAX_INT64 && 0 < maxDelay <= MAX_INT64
    }
  }

  /** One run of the process pair, by the clock: when it started, when its failure was noted, and when
      its length was measured. `replaced` when the rollback of a candidate exchanged the program. */
  datatype Run = Run(started: int, failed: int, checked: int, replaced: bool)

  datatype State = State(failures: seq<int>, delay: int)

  datatype Outcome = Restart(state: State, wait: int) | Stopped(count: nat) | Replaced

  /** The failure times without the leading ones before the cutoff. */
  function Prune(failures: seq<int>, cutoff: int): seq<int>
    decreases |failures|
  {
    if failures != [] && failures[0] < cutoff then Prune(failures[1..], cutoff) else failures
  }

  /** min(delay*2, MaxDelay), with the 64-bit product. */
  function NextDelay(o: Options, delay: int): int {
    if Wrap64(2 * delay) < o.maxDelay then Wrap64(2 * delay) else o.maxDelay
  }

  predicate Stable(o: Options, r: Run) { r.checked - r.started >= o.stableAfter }

  function Start(o: Options): State { State([], o.initialDelay) }

  /** What follows one failed run. The stop is decided before a long run resets the count. */
  function Step(o: Options, s: State, r: Run): Outcome {
    var failures := Prune(s.failures + [r.failed], r.failed - o.window);
    if r.replaced then Replaced
    else if |failures| >= o.maxFailures then Stopped(|failures|)
    else if Stable(o, r) then Restart(Start(o), o.initialDelay)
    else Restart(State(failures, NextDelay(o, s.delay)), s.delay)
  }

  /** The state after runs that were all followed by a restart. */
  function After(o: Options, runs: seq<Run>): Option<State>
    decreases |runs|
  {
    if runs == [] then Some(Start(o))
    else
      match After(o, runs[..|runs| - 1])
      case None => None
      case Some(s) =>
        match Step(o, s, runs[|runs| - 1])
        case Restart(next, _) => Some(next)
        case _ => None
  }

  /** The clock only moves forward. */
  predicate Clocked(runs: seq<Run>) {
    && (forall i :: 0 <= i < |runs| ==> runs[i].started <= runs[i].failed <= runs[i].checked)
    && (forall i, j :: 0 <= i < j < |runs| ==> runs[i].checked <= runs[j].started)
  }

  /** A failed run that is restarted counts, with the delay so far as its wait, if it was shorter than
      stableAfter; from stableAfter on it clears the count and the delay. */
  lemma LongRunsStartOver(o: Options, s: State, r: Run)
    requires o.Valid() && Step(o, s, r).Restart?
    ensures var length := r.checked - r.started; var x := Step(o, s, r);
            && (length >= o.stableAfter ==> x == Restart(State([], o.initialDelay), o.initialDelay))
            && (length < o.stableAfter ==> r.failed in x.state.failures && x.wait == s.delay)
  {
    if r.checked - r.started < o.stableAfter { NewestStays(s.failures, r.failed, r.failed - o.window); }
  }

  lemma {:induction false} NewestStays(failures: seq<int>, newest: int, cutoff: int)
    requires newest >= cutoff
    ensures newest in Prune(failures + [newest], cutoff)
    decreases |failures|
  {
    var all := failures + [newest];
    assert all[|failures|] == newest;
    if failures == [] {
      assert all == [newest];
    } else if all[0] < cutoff {
      assert all[1..] == failures[1..] + [newest];
      NewestStays(failures[1..], newest, cutoff);
    }
  }

  // ----- The failure list is the window -----

  /** The runs after the last one that was long enough to reset the count. */
  function SinceReset(o: Options, runs: seq<Run>): seq<Run>
    decreases |runs|
  {
    if runs == [] || Stable(o, runs[|runs| - 1]) then []
    else SinceReset(o, runs[..|runs| - 1]) + [runs[|runs| - 1]]
  }

  predicate Rising(times: seq<int>) { forall i, j :: 0 <= i < j < |times| ==> times[i] <= times[j] }

  function Recent(times: seq<int>, cutoff: int): seq<int> {
    if times == [] then []
    else (if times[0] >= cutoff then [times[0]] else []) + Recent(times[1..], cutoff)
  }

  lemma {:induction false} AllRecent(times: seq<int>, cutoff: int)
    requires forall i :: 0 <= i < |times| ==> times[i] >= cutoff
    ensures Recent(times, cutoff) == times
  {
    if times != [] { AllRecent(times[1..], cutoff); }
  }

  /** Dropping the leading old ones of a rising list drops all old ones. */
  lemma {:induction false} PruneIsRecent(times: seq<int>, cutoff: int)
    requires Rising(times)
    ensures Prune(times, cutoff) == Recent(times, cutoff)
    decreases |times|
  {
    if times != [] {
      if times[0] < cutoff {
        PruneIsRecent(times[1..], cutoff);
      } else {
        AllRecent(times, cutoff);
      }
    }
  }

  lemma {:induction false} RecentOfJoined(a: seq<int>, b: seq<int>, cutoff: int)
    ensures Recent(a + b, cutoff) == Recent(a, cutoff) + Recent(b, cutoff)
  {
    if a == [] {
      assert a + b == b;
    } else {
      assert (a + b)[0] == a[0] && (a + b)[1..] == a[1..] + b;
      RecentOfJoined(a[1..], b, cutoff);
      var head := if a[0] >= cutoff then [a[0]] else [];
      assert head + (Recent(a[1..], cutoff) + Recent(b, cutoff)) == head + Recent(a[1..], cutoff) + Recent(b, cutoff);
    }
  }

  /** A later cutoff on top of an earlier one is the later cutoff. */
  lemma {:induction false} RecentTwice(times: seq<int>, early: int, late: int)
    requires early <= late
    ensures Recent(Recent(times, early), late) == Recent(times, late)
  {
    if times != [] {
      RecentTwice(times[1..], early, late);
      RecentOfJoined(if times[0] >= early then [times[0]] else [], Recent(times[1..], early), late);
    }
  }

  function Failures(runs: seq<Run>): seq<int> { seq(|runs|, i requires 0 <= i < |runs| => runs[i].failed) }

  /** The failures since the last reset that lie in the window ending at `now`. */
  function InWindow(o: Options, runs: seq<Run>, now: int): seq<int> {
    Recent(Failures(SinceReset(o, runs)), now - o.window)
  }

  lemma {:induction false} SinceResetIsSuffix(o: Options, runs: seq<Run>)
    ensures |SinceReset(o, runs)| <= |runs| && SinceReset(o, runs) == runs[|runs| - |SinceReset(o, runs)|..]
    decreases |runs|
  {
    if runs != [] && !Stable(o, runs[|runs| - 1]) {
      var before := runs[..|runs| - 1];
      SinceResetIsSuffix(o, before);
      assert runs == before + [runs[|runs| - 1]];
    }
  }

  lemma RisingFailures(o: Options, runs: seq<Run>, r: Run)
    requires Clocked(runs + [r])
    ensures Rising(Failures(SinceReset(o, runs)) + [r.failed])
  {
    SinceResetIsSuffix(o, runs);
    var since := SinceReset(o, runs);
    var all := runs + [r];
    var first := |runs| - |since|;
    var times := Failures(since) + [r.failed];
    forall i, j | 0 <= i < j < |times| ensures times[i] <= times[j] {
      assert times[i] == all[first + i].failed && times[j] == all[first + j].failed;
      assert all[first + i].checked <= all[first + j].started;
    }
  }

  /** The list kept across restarts holds exactly the failures since the last reset that were in the
      window when the last of them was noted. */
  lemma {:induction false} ListIsTheWindow(o: Options, runs: seq<Run>)
    requires o.Valid() && Clocked(runs) && After(o, runs).Some? && runs != []
    ensures After(o, runs).value.failures == InWindow(o, runs, runs[|runs| - 1].failed)
    decreases |runs|, 0
  {
    var before, r := runs[..|runs| - 1], runs[|runs| - 1];
    assert runs == before + [r];
    if !Stable(o, r) {
      WindowAtFailure(o, before, r);
      assert Failures(SinceReset(o, runs)) == Failures(SinceReset(o, before)) + [r.failed];
    }
  }

  /** The list compared with MaxFailures at a failure holds exactly the failures since the last reset,
      this one included, that lie in the window. */
  lemma {:induction false} WindowAtFailure(o: Options, runs: seq<Run>, r: Run)
    requires o.Valid() && Clocked(runs + [r]) && After(o, runs).Some?
    ensures Prune(After(o, runs).value.failures + [r.failed], r.failed - o.window)
            == Recent(Failures(SinceReset(o, runs)) + [r.failed], r.failed - o.window)
    decreases |runs|, 1
  {
    hide Stable;
    var cutoff := r.failed - o.window;
    var failures := After(o, runs).value.failures;
    var all := Failures(SinceReset(o, runs));
    RisingFailures(o, runs, r);
    RecentOfJoined(all, [r.failed], cutoff);
    if runs != [] {
      ClockedPrefix(runs, r);
      ListIsTheWindow(o, runs);
      var early := runs[|runs| - 1].failed - o.window;
      RisingRecent(all + [r.failed], early);
      RecentOfJoined(all, [r.failed], early);
      assert Recent(all + [r.failed], early) == failures + [r.failed];
      PruneIsRecent(failures + [r.failed], cutoff);
      RecentTwice(all + [r.failed], early, cutoff);
    } else {
      PruneIsRecent([r.failed], cutoff);
    }
  }

  lemma ClockedPrefix(runs: seq<Run>, r: Run)
    requires Clocked(runs + [r])
    ensures Clocked(runs)
    ensures runs != [] ==> runs[|runs| - 1].failed <= r.failed
  {
    var all := runs + [r];
    forall i | 0 <= i < |runs| ensures runs[i] == all[i] {}
    assert all[|runs|] == r;
    if runs != [] { assert all[|runs| - 1].checked <= all[|runs|].started; }
  }

  lemma {:induction false} RisingRecent(times: seq<int>, cutoff: int)
    requires Rising(times)
    ensures Rising(Recent(times, cutoff)) && forall i :: 0 <= i < |Recent(times, cutoff)| ==> Recent(times, cutoff)[i] in times
  {
    if times != [] {
      RisingRecent(times[1..], cutoff);
      var rest := Recent(times[1..], cutoff);
      forall i | 0 <= i < |rest| ensures times[0] <= rest[i] && rest[i] in times { assert rest[i] in times[1..]; }
    }
  }

  /** The supervisor stops at a failure exactly when the failures in the window number MaxFailures,
      and never with more of them. */
  lemma StopsAtMaxFailures(o: Options, runs: seq<Run>, r: Run)
    requires o.Valid() && Clocked(runs + [r]) && After(o, runs).Some? && !r.replaced
    ensures var count := |Recent(Failures(SinceReset(o, runs)) + [r.failed], r.failed - o.window)|;
            && count <= o.maxFailures
            && (Step(o, After(o, runs).value, r).Stopped? <==> count == o.maxFailures)
            && (count == o.maxFailures ==> Step(o, After(o, runs).value, r) == Stopped(count))
  {
    WindowAtFailure(o, runs, r);
    KeptBelowMax(o, runs);
    PruneShrinks(After(o, runs).value.failures + [r.failed], r.failed - o.window);
  }

  lemma {:induction false} PruneShrinks(times: seq<int>, cutoff: int)
    ensures |Prune(times, cutoff)| <= |times|
    decreases |times|
  {
    if times != [] && times[0] < cutoff { PruneShrinks(times[1..], cutoff); }
  }

  lemma KeptBelowMax(o: Options, runs: seq<Run>)
    requires o.Valid() && After(o, runs).Some?
    ensures |After(o, runs).value.failures| < o.maxFailures
  {}

  // ----- Waits -----

  /** The wait after the k-th short run since the start or the last reset. */
  function Backoff(o: Options, k: nat): int {
    if k == 0 then o.initialDelay else NextDelay(o, Backoff(o, k - 1))
  }

  /** Every wait is a function of the number of runs since the last reset. */
  lemma {:induction false} DelayIsBackoff(o: Options, runs: seq<Run>)
    requires After(o, runs).Some?
    ensures After(o, runs).value.delay == Backoff(o, |SinceReset(o, runs)|)
    decreases |runs|
  {
    if runs != [] { DelayIsBackoff(o, runs[..|runs| - 1]); }
  }

  /** What is waited after a failure that is not the last: the initial delay after a long run, which
      also starts the series afresh, and otherwise the next delay of the series. */
  lemma WaitAfterFailure(o: Options, runs: seq<Run>, r: Run)
    requires After(o, runs).Some? && Step(o, After(o, runs).value, r).Restart?
    ensures Step(o, After(o, runs).value, r).wait
            == if Stable(o, r) then o.initialDelay else Backoff(o, |SinceReset(o, runs)|)
    ensures |SinceReset(o, runs + [r])| == if Stable(o, r) then 0 else |SinceReset(o, runs)| + 1
  {
    DelayIsBackoff(o, runs);
    assert (runs + [r])[..|runs|] == runs;
  }

  /** initial * 2^k. */
  function Doubled(initial: int, k: nat): int { if k == 0 then initial else 2 * Doubled(initial, k - 1) }

  function Min(a: int, b: int): int { if a < b then a else b }

  /** The capped doubling the delays are meant to follow. */
  predicate Doubles(o: Options, k: nat) { Backoff(o, k) == Min(Doubled(o.initialDelay, k), o.maxDelay) }

  const HALF := TWO_63 / 2

  lemma NextDelayDoubles(o: Options, delay: int)
    requires 0 < delay < TWO_63
    ensures delay < HALF ==> NextDelay(o, delay) == Min(2 * delay, o.maxDelay)
    ensures delay >= HALF ==> NextDelay(o, delay) < 0
  {
    if delay >= HALF { assert Wrap64(2 * delay) == 2 * delay - 2 * TWO_63; }
  }

  lemma {:induction false} BackoffDoubles(o: Options, k: nat)
    requires o.Valid() && o.initialDelay <= o.maxDelay < HALF
    ensures Doubles(o, k) && Doubled(o.initialDelay, k) > 0
  {
    hide NextDelay;
    if k > 0 {
      BackoffDoubles(o, k - 1);
      NextDelayDoubles(o, Backoff(o, k - 1));
    }
  }

  lemma {:induction false} DoubledAdds(initial: int, a: nat, b: nat)
    ensures Doubled(initial, a + b) == Doubled(Doubled(initial, a), b)
  {
    if b > 0 { DoubledAdds(initial, a, b - 1); }
  }

  lemma {:induction false} DoubledGrows(initial: int, k: nat)
    requires initial >= 1
    ensures Doubled(initial, k) >= Doubled(1, k) >= 1
  {
    if k > 0 { DoubledGrows(initial, k - 1); }
  }

  lemma FourDoublings(initial: int)
    ensures Doubled(initial, 4) == 16 * initial
  {
    assert Doubled(initial, 1) == 2 * initial;
    assert Doubled(initial, 2) == 4 * initial;
    assert Doubled(initial, 3) == 8 * initial;
  }

  lemma SixteenDoublings(initial: int)
    ensures Doubled(initial, 16) == 65536 * initial
  {
    FourDoublings(initial);
    DoubledAdds(initial, 4, 4);
    FourDoublings(16 * initial);
    DoubledAdds(initial, 8, 4);
    FourDoublings(256 * initial);
    DoubledAdds(initial, 12, 4);
    FourDoublings(4096 * initial);
  }

  lemma DoubledToHalf()
    ensures Doubled(1, 62) == HALF
  {
    SixteenDoublings(1);
    DoubledAdds(1, 16, 16);
    SixteenDoublings(0x1_0000);
    DoubledAdds(1, 32, 16);
    SixteenDoublings(0x1_0000_0000);
    DoubledAdds(1, 48, 14);
    SixteenDoublings(0x1_0000_0000_0000);
    DoubledAdds(0x1_0000_0000_0000, 14, 2);
    assert Doubled(Doubled(0x1_0000_0000_0000, 14), 2) == 4 * Doubled(0x1_0000_0000_0000, 14);
  }

  /** The delays follow the capped doubling at every step exactly when the initial delay is at most
      the cap and the cap is below half the 64-bit range: the first wait is not capped, and beyond
      that range a doubled delay turns negative. */
  lemma DoublesExactlyWhen(o: Options)
    requires o.Valid()
    ensures (forall k: nat :: Doubles(o, k)) <==> o.initialDelay <= o.maxDelay < HALF
  {
    hide NextDelay, Backoff, Doubled;
    if o.initialDelay <= o.maxDelay < HALF {
      forall k: nat ensures Doubles(o, k) { BackoffDoubles(o, k); }
    } else if o.initialDelay > o.maxDelay {
      FirstDelay(o);
      assert !Doubles(o, 0);
    } else if Doubles(o, 62) {
      DoubledToHalf();
      DoubledGrows(o.initialDelay, 62);
      DoubledGrows(o.initialDelay, 63);
      NextDelayDoubles(o, Backoff(o, 62));
      DelayAfter62(o);
      assert !Doubles(o, 63);
    }
  }

  lemma FirstDelay(o: Options)
    ensures Backoff(o, 0) == Doubled(o.initialDelay, 0) == o.initialDelay
  {}

  lemma DelayAfter62(o: Options)
    ensures Backoff(o, 63) == NextDelay(o, Backoff(o, 62))
  {}

  // ----- A crash loop ends after exactly MaxFailures failures -----

  predicate AllShort(o: Options, runs: seq<Run>) {
    forall i :: 0 <= i < |runs| ==> !Stable(o, runs[i]) && !runs[i].replaced
  }

  lemma {:induction false} ShortRunsCount(o: Options, runs: seq<Run>)
    requires AllShort(o, runs)
    ensures SinceReset(o, runs) == runs
    decreases |runs|
  {
    hide Stable;
    if runs != [] {
      ShortRunsCount(o, runs[..|runs| - 1]);
      assert runs == runs[..|runs| - 1] + [runs[|runs| - 1]];
    }
  }

  /** All of the failures fit one window. */
  predicate FitWindow(o: Options, runs: seq<Run>) {
    runs != [] && runs[|runs| - 1].failed - runs[0].failed <= o.window
  }

  lemma CountOfShortRuns(o: Options, runs: seq<Run>, r: Run)
    requires Clocked(runs + [r]) && AllShort(o, runs) && FitWindow(o, runs + [r])
    ensures |Recent(Failures(SinceReset(o, runs)) + [r.failed], r.failed - o.window)| == |runs| + 1
  {
    ShortRunsCount(o, runs);
    var all := runs + [r];
    var times := Failures(runs) + [r.failed];
    forall i | 0 <= i < |times| ensures times[i] >= r.failed - o.window {
      assert times[i] == all[i].failed;
      if i > 0 { assert all[0].checked <= all[i].started; }
    }
    AllRecent(times, r.failed - o.window);
  }

  /** Short runs whose failures fit one window are restarted until the MaxFailures-th of them, at
      which the supervisor stops. */
  lemma {:induction false} CrashLoopsStop(o: Options, runs: seq<Run>)
    requires o.Valid() && Clocked(runs) && AllShort(o, runs) && FitWindow(o, runs) && |runs| <= o.maxFailures
    ensures var before := runs[..|runs| - 1];
            && After(o, before).Some?
            && (if |runs| == o.maxFailures
                then Step(o, After(o, before).value, runs[|runs| - 1]) == Stopped(o.maxFailures)
                else Step(o, After(o, before).value, runs[|runs| - 1]).Restart?)
    decreases |runs|
  {
    hide Stable, Clocked;
    var before, r := runs[..|runs| - 1], runs[|runs| - 1];
    assert runs == before + [r];
    ClockedPrefix(before, r);
    assert forall i :: 0 <= i < |before| ==> before[i] == runs[i];
    if before != [] {
      ClockedPrefix(before, r);
      CrashLoopsStop(o, before);
    }
    CountOfShortRuns(o, before, r);
    StopsAtMaxFailures(o, before, r);
  }

  /** Waits up to the n-th, summed. */
  function TotalWaits(o: Options, n: nat): int { if n == 0 then 0 else TotalWaits(o, n - 1) + Backoff(o, n - 1) }

  /** Every run fails within `u` of the end of the wait before it. */
  predicate FailFast(o: Options, runs: seq<Run>, u: int) {
    forall i :: 0 < i < |runs| ==> runs[i].failed - runs[i - 1].failed <= u + Backoff(o, i - 1)
  }

  lemma {:induction false} FastRunsSpan(o: Options, runs: seq<Run>, u: int, n: nat)
    requires FailFast(o, runs, u) && n < |runs|
    ensures runs[n].failed - runs[0].failed <= n * u + TotalWaits(o, n)
  {
    if n > 0 {
      FastRunsSpan(o, runs, u, n - 1);
      assert n * u == (n - 1) * u + u;
    }
  }

  /** If every run fails within u, u is short of StableAfter, and MaxFailures - 1 such runs and their
      waits fit the window, the supervisor stops at the MaxFailures-th failure and not before. */
  lemma FastCrashLoopsStop(o: Options, runs: seq<Run>, u: int)
    requires o.Valid() && Clocked(runs) && AllShort(o, runs) && |runs| == o.maxFailures && FailFast(o, runs, u)
    requires (o.maxFailures - 1) * u + TotalWaits(o, o.maxFailures - 1) <= o.window
    ensures After(o, runs[..|runs| - 1]).Some?
    ensures Step(o, After(o, runs[..|runs| - 1]).value, runs[|runs| - 1]) == Stopped(o.maxFailures)
  {
    FastRunsSpan(o, runs, u, |runs| - 1);
    CrashLoopsStop(o, runs);
  }

  const MINUTE := 60_000_000_000
  const DEFAULTS := Options(10 * MINUTE, 5, 5 * MINUTE, MINUTE / 60, MINUTE)

  /** With the default options, runs that fail within 146 seconds are stopped at the fifth failure. */
  lemma DefaultsStopCrashLoops(runs: seq<Run>)
    requires Clocked(runs) && AllShort(DEFAULTS, runs) && |runs| == 5 && FailFast(DEFAULTS, runs, 146 * (MINUTE / 60))
    ensures After(DEFAULTS, runs[..4]).Some? && Step(DEFAULTS, After(DEFAULTS, runs[..4]).value, runs[4]) == Stopped(5)
  {
    DefaultWaits();
    FastCrashLoopsStop(DEFAULTS, runs, 146 * (MINUTE / 60));
  }

  lemma DefaultWaits()
    ensures TotalWaits(DEFAULTS, 4) == 15 * (MINUTE / 60)
  {
    hide NextDelay;
    var second := MINUTE / 60;
    NextDelayDoubles(DEFAULTS, second);
    NextDelayDoubles(DEFAULTS, 2 * second);
    NextDelayDoubles(DEFAULTS, 4 * second);
    assert Backoff(DEFAULTS, 1) == 2 * second;
    assert Backoff(DEFAULTS, 2) == 4 * second;
    assert Backoff(DEFAULTS, 3) == 8 * second;
    assert TotalWaits(DEFAULTS, 1) == second;
    assert TotalWaits(DEFAULTS, 2) == 3 * second;
    assert TotalWaits(DEFAULTS, 3) == 7 * second;
  }

  // ----- The loop -----

  datatype End = Cancelled | GaveUp(count: nat) | Exchanged

  datatype Trace = Trace(waits: seq<int>, end: End)

  function Waited(waits: seq<int>, rest: Trace): Trace { Trace(waits + rest.waits, rest.end) }

  lemma WaitedMore(waits: seq<int>, wait: int, rest: Trace)
    ensures Waited(waits, Waited([wait], rest)) == Waited(waits + [wait], rest)
    ensures Waited([], rest) == rest
  {
    assert waits + ([wait] + rest.waits) == waits + [wait] + rest.waits;
  }

  /** The waits between the runs, and how the supervisor ended: cancelled when the runs are over. */
  function Supervised(o: Options, s: State, runs: seq<Run>): Trace
    decreases |runs|
  {
    if runs == [] then Trace([], Cancelled)
    else
      match Step(o, s, runs[0])
      case Stopped(count) => Trace([], GaveUp(count))
      case Replaced => Trace([], Exchanged)
      case Restart(next, wait) => Waited([wait], Supervised(o, next, runs[1..]))
  }

  /** Run, on the clock readings its runs produce. */
  method RunLoop(o: Options, runs: seq<Run>) returns (t: Trace)
    ensures t == Supervised(o, Start(o), runs)
  {
    hide Waited;
    var failures: seq<int> := [];
    var delay := o.initialDelay;
    var waits: seq<int> := [];
    assert runs[0..] == runs;
    WaitedMore([], 0, Supervised(o, Start(o), runs));
    for n := 0 to |runs|
      invariant Waited(waits, Supervised(o, State(failures, delay), runs[n..])) == Supervised(o, Start(o), runs)
    {
      assert runs[n..][0] == runs[n] && runs[n..][1..] == runs[n + 1..];
      var r := runs[n];
      ghost var s := State(failures, delay);
      failures := failures + [r.failed];
      var cutoff := r.failed - o.window;
      failures := DropOld(failures, cutoff);
      if r.replaced {
        NothingMore(waits, Exchanged);
        return Trace(waits, Exchanged);
      }
      if |failures| >= o.maxFailures {
        NothingMore(waits, GaveUp(|failures|));
        return Trace(waits, GaveUp(|failures|));
      }
      var waitDelay := delay;
      if r.checked - r.started >= o.stableAfter {
        failures := [];
        delay := o.initialDelay;
        waitDelay := o.initialDelay;
      } else {
        var doubled := Wrap64(2 * delay);
        delay := if doubled < o.maxDelay then doubled else o.maxDelay;
      }
      assert Step(o, s, r) == Restart(State(failures, delay), waitDelay);
      WaitedMore(waits, waitDelay, Supervised(o, State(failures, delay), runs[n + 1..]));
      waits := waits + [waitDelay];
    }
    NothingMore(waits, Cancelled);
    t := Trace(waits, Cancelled);
  }

  lemma NothingMore(waits: seq<int>, end: End)
    ensures Waited(waits, Trace([], end)) == Trace(waits, end)
  {}

  method DropOld(failures: seq<int>, cutoff: int) returns (recent: seq<int>)
    ensures recent == Prune(failures, cutoff)
  {
    var firstRecent := 0;
    while firstRecent < |failures| && failures[firstRecent] < cutoff
      invariant 0 <= firstRecent <= |failures|
      invariant Prune(failures[firstRecent..], cutoff) == Prune(failures, cutoff)
    {
      assert failures[firstRecent..][1..] == failures[firstRecent + 1..];
      firstRecent := firstRecent + 1;
    }
    recent := failures[firstRecent..];
  }
}
