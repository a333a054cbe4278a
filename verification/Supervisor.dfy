/**
The process supervisor (plugin-sdk/runtime/supervisor.go:23-112).

What the outside does is a script: when each start begins and ends, what the tickers bring,
and where the context is found cancelled.  A script may end anywhere, so every prefix of a
run is covered.  Times are nanoseconds.
*/
module Supervisor {
  import opened Wrappers

  const Second: int := 1_000_000_000
  const Window: int := 300 * Second // five minutes

  // What one select of the watch loop yields.
  datatype Tick = Exit(exited: bool) | Health(failed: bool) | Done

  // One turn of the outer loop. If no tick ends the watch over a started child, the script ends there.
  datatype Turn = Turn(
    cancelled: bool, began: int, started: bool,
    ready: int, ticks: seq<Tick>, ended: int, // when a child started
    cancelledAfter: bool, now: int, cancelledWaiting: bool)

  datatype Event =
    | Starting(child: nat)
    | Published(child: nat)
    | Withdrawn(child: nat, ticks: nat) // after so many ticks of its watch
    | Closed(child: nat)
    | Backoff(at: int, delay: int)
    | Failed
    | Disabled

  // The clock does not go back.
  predicate ClockAt(script: seq<Turn>, i: nat)
    requires i < |script|
  {
    && script[i].began <= script[i].now
    && (script[i].started ==> script[i].began <= script[i].ready <= script[i].ended <= script[i].now)
    && (i > 0 ==> script[i - 1].now <= script[i].began)
  }

  predicate Clock(script: seq<Turn>) { forall i: nat | i < |script| :: ClockAt(script, i) }

  // ---- the watch over one child ----

  // Failed health checks since the last good one.
  function Failures(ticks: seq<Tick>): nat {
    if ticks == [] then 0
    else
      var init := ticks[..|ticks| - 1];
      match ticks[|ticks| - 1]
      case Health(failed) => if failed then Failures(init) + 1 else 0
      case _ => Failures(init)
  }

  // The tick at k ends the watch: cancellation, an exited child, or a third failure in a row.
  predicate Stops(ticks: seq<Tick>, k: int)
    requires 0 <= k < |ticks|
  {
    match ticks[k]
    case Done => true
    case Exit(exited) => exited
    case Health(_) => Failures(ticks[..k + 1]) >= 3
  }

  // The watch consumes ticks up to and including the first one that stops it.
  method Watch(ticks: seq<Tick>) returns (used: nat, running: bool)
    ensures used <= |ticks| && (running ==> used == |ticks|)
    ensures !running ==> used > 0 && Stops(ticks, used - 1)
    ensures forall k | 0 <= k < (if running then used else used - 1) :: !Stops(ticks, k)
  {
    var failures := 0;
    used, running := 0, true;
    while running && used < |ticks|
      invariant used <= |ticks| && failures == Failures(ticks[..used])
      invariant !running ==> used > 0 && Stops(ticks, used - 1)
      invariant forall k | 0 <= k < (if running then used else used - 1) :: !Stops(ticks, k)
      decreases |ticks| - used
    {
      assert ticks[..used + 1][..used] == ticks[..used];
      match ticks[used] {
        case Done => running := false;
        case Exit(exited) => if exited { running := false; }
        case Health(failed) =>
          failures := if failed then failures + 1 else 0;
          if failures >= 3 { running := false; }
      }
      used := used + 1;
    }
  }

  // How many ticks a watch that has seen `from` of them takes, if it ends.
  function FirstStop(ticks: seq<Tick>, from: nat): Option<nat>
    requires from <= |ticks|
    decreases |ticks| - from
  {
    if from == |ticks| then None else if Stops(ticks, from) then Some(from + 1) else FirstStop(ticks, from + 1)
  }

  predicate StopsAfter(ticks: seq<Tick>, k: nat) {
    0 < k <= |ticks| && Stops(ticks, k - 1) && forall j | 0 <= j < k - 1 :: !Stops(ticks, j)
  }

  lemma {:induction false} FirstStopIs(ticks: seq<Tick>, from: nat)
    requires from <= |ticks| && forall j | 0 <= j < from :: !Stops(ticks, j)
    ensures match FirstStop(ticks, from)
            case Some(k) => StopsAfter(ticks, k)
            case None => forall j | 0 <= j < |ticks| :: !Stops(ticks, j)
    decreases |ticks| - from
  {
    if from < |ticks| && !Stops(ticks, from) { FirstStopIs(ticks, from + 1); }
  }

  lemma StopIsUnique(ticks: seq<Tick>, k: nat, l: nat)
    requires StopsAfter(ticks, k) && StopsAfter(ticks, l)
    ensures k == l
  {
  }

  // ---- the sliding budget ----

  function Recent(attempts: seq<int>, now: int): seq<int> {
    if attempts == [] then []
    else
      var init, last := attempts[..|attempts| - 1], attempts[|attempts| - 1];
      if now - last < Window then Recent(init, now) + [last] else Recent(init, now)
  }

  // Filters the attempts in place, over their own storage.
  method KeepRecent(a: array<int>, n: nat, now: int) returns (m: nat)
    requires n <= a.Length
    modifies a
    ensures m <= n && a[..m] == Recent(old(a[..n]), now)
  {
    m := 0;
    ghost var was := a[..n];
    for i := 0 to n
      invariant m <= i && a[..m] == Recent(was[..i], now)
      invariant forall k | i <= k < n :: a[k] == was[k]
    {
      assert was[..i + 1][..i] == was[..i];
      if now - a[i] < Window {
        a[m] := a[i];
        m := m + 1;
      }
    }
    assert was[..n] == was;
  }

  predicate Sorted(times: seq<int>) { forall i, j | 0 <= i < j < |times| :: times[i] <= times[j] }

  // Of sorted attempts, the recent ones are a suffix.
  lemma {:induction false} RecentIsSuffix(attempts: seq<int>, now: int) returns (k: nat)
    requires Sorted(attempts)
    ensures k <= |attempts| && Recent(attempts, now) == attempts[k..]
    ensures forall i | 0 <= i < k :: now - attempts[i] >= Window
    ensures forall i | k <= i < |attempts| :: now - attempts[i] < Window
  {
    var n := |attempts|;
    if n == 0 {
      k := 0;
    } else if now - attempts[n - 1] < Window {
      k := RecentIsSuffix(attempts[..n - 1], now);
      assert attempts[k..] == attempts[..n - 1][k..] + [attempts[n - 1]];
    } else {
      k := n;
      NoneRecent(attempts, now);
    }
  }

  // ---- what a log shows ----

  function Restarts(log: seq<Event>): seq<int> {
    if log == [] then []
    else
      var rest := Restarts(log[..|log| - 1]);
      match log[|log| - 1]
      case Backoff(at, _) => rest + [at]
      case _ => rest
  }

  function Delays(log: seq<Event>): seq<int> {
    if log == [] then []
    else
      var rest := Delays(log[..|log| - 1]);
      match log[|log| - 1]
      case Backoff(_, delay) => rest + [delay]
      case _ => rest
  }

  function Starts(log: seq<Event>): nat {
    if log == [] then 0 else Starts(log[..|log| - 1]) + if log[|log| - 1].Starting? then 1 else 0
  }

  // Starts and restarts take turns: no start but the first is without a back-off of its own.
  predicate Alternate(log: seq<Event>) {
    log == [] || (Alternate(log[..|log| - 1]) && |Restarts(log)| <= Starts(log) <= |Restarts(log)| + 1)
  }

  // Each delay is a second doubled once for every restart still inside the window.
  predicate DelaysFollow(times: seq<int>, delays: seq<int>) {
    |delays| == |times| && forall k | 0 <= k < |times| :: DelayAt(times, delays, k)
  }

  predicate DelayAt(times: seq<int>, delays: seq<int>, k: nat)
    requires k < |times| && k < |delays|
  {
    delays[k] == PowerOfTwo(|Recent(times[..k], times[k])|) * Second
  }

  lemma OneMoreDelay(times: seq<int>, delays: seq<int>, at: int)
    requires DelaysFollow(times, delays)
    ensures DelaysFollow(times + [at], delays + [PowerOfTwo(|Recent(times, at)|) * Second])
  {
    var more, next := times + [at], delays + [PowerOfTwo(|Recent(times, at)|) * Second];
    forall k | 0 <= k < |more| ensures DelayAt(more, next, k) {
      if k < |times| {
        assert DelayAt(times, delays, k) && more[..k] == times[..k];
      } else {
        assert more[..k] == times;
      }
    }
  }

  // Any six restarts in a row span at least five minutes.
  predicate Spaced(times: seq<int>) { forall i | 0 <= i < |times| - 5 :: times[i + 5] - times[i] >= Window }

  // The restarts at or after `from` and before five minutes later.
  function InWindow(times: seq<int>, from: int): nat {
    if times == [] then 0
    else
      var last := times[|times| - 1];
      InWindow(times[..|times| - 1], from) + if from <= last < from + Window then 1 else 0
  }

  lemma {:induction false} NoneBefore(times: seq<int>, from: int, k: nat)
    requires k <= |times| && forall i | 0 <= i < k :: times[i] < from
    ensures InWindow(times, from) <= |times| - k
  {
    if k < |times| { NoneBefore(times[..|times| - 1], from, k); }
    else if times != [] { NoneBefore(times[..|times| - 1], from, k - 1); }
  }

  // Spaced restarts put at most five in any window of five minutes.
  lemma {:induction false} FiveInEveryWindow(times: seq<int>, from: int)
    requires Sorted(times) && Spaced(times)
    ensures InWindow(times, from) <= 5
    decreases |times|
  {
    if times != [] {
      var n, last := |times|, times[|times| - 1];
      if from <= last < from + Window && n > 5 {
        assert times[n - 6] < from;
        NoneBefore(times, from, n - 5);
      } else if n > 5 {
        FiveInEveryWindow(times[..n - 1], from);
      } else {
        NoneBefore(times, from, 0);
      }
    }
  }

  // The restarts from `from` to five minutes later, both ends included.
  function InClosedWindow(times: seq<int>, from: int): nat {
    if times == [] then 0
    else
      var last := times[|times| - 1];
      InClosedWindow(times[..|times| - 1], from) + if from <= last <= from + Window then 1 else 0
  }

  lemma {:induction false} NoneBeforeClosed(times: seq<int>, from: int, k: nat)
    requires k <= |times| && forall i | 0 <= i < k :: times[i] < from
    ensures InClosedWindow(times, from) <= |times| - k
  {
    if k < |times| { NoneBeforeClosed(times[..|times| - 1], from, k); }
    else if times != [] { NoneBeforeClosed(times[..|times| - 1], from, k - 1); }
  }

  predicate ApartAt(times: seq<int>, i: nat, from: int)
    requires i + 5 < |times|
  {
    times[i] == from && times[i + 5] == from + Window
  }

  predicate ExactlyApart(times: seq<int>, from: int) { exists i | 0 <= i < |times| - 5 :: ApartAt(times, i, from) }

  lemma {:induction false} AtMostFiveInClosedWindow(times: seq<int>, from: int)
    requires Sorted(times) && Spaced(times) && !ExactlyApart(times, from)
    ensures InClosedWindow(times, from) <= 5
    decreases |times|
  {
    if times != [] {
      var n, last := |times|, times[|times| - 1];
      var front := times[..n - 1];
      if n <= 5 {
        NoneBeforeClosed(times, from, 0);
      } else if from <= last <= from + Window {
        assert !ApartAt(times, n - 6, from);
        NoneBeforeClosed(times, from, n - 5);
      } else {
        assert forall i | 0 <= i < |front| - 5 :: ApartAt(front, i, from) == ApartAt(times, i, from);
        AtMostFiveInClosedWindow(front, from);
      }
    }
  }

  // Restarts from the k-th on that all lie in the closed window are all counted.
  lemma {:induction false} CountedFrom(times: seq<int>, from: int, k: nat)
    requires k <= |times| && forall i | k <= i < |times| :: from <= times[i] <= from + Window
    ensures InClosedWindow(times, from) >= |times| - k
  {
    if k < |times| { CountedFrom(times[..|times| - 1], from, k); }
  }

  lemma {:induction false} PrefixCountsLess(times: seq<int>, from: int, k: nat)
    requires k <= |times|
    ensures InClosedWindow(times[..k], from) <= InClosedWindow(times, from)
  {
    if k < |times| {
      assert times[..|times| - 1][..k] == times[..k];
      PrefixCountsLess(times[..|times| - 1], from, k);
    } else {
      assert times[..k] == times;
    }
  }

  lemma ExactlyApartHoldsSix(times: seq<int>, from: int, i: nat)
    requires Sorted(times) && i + 5 < |times| && ApartAt(times, i, from)
    ensures InClosedWindow(times, from) >= 6
  {
    var front := times[..i + 6];
    forall k | i <= k < |front| ensures from <= front[k] <= from + Window {
      assert front[k] == times[k] && times[i] <= times[k] <= times[i + 5];
    }
    CountedFrom(front, from, i);
    PrefixCountsLess(times, from, i + 6);
  }

  // A closed window holds a sixth restart if and only if one restart is at its start and the
  // fifth after it exactly five minutes later.
  lemma SixthInClosedWindow(times: seq<int>, from: int)
    requires Sorted(times) && Spaced(times)
    ensures InClosedWindow(times, from) <= 5 <==> !ExactlyApart(times, from)
  {
    if ExactlyApart(times, from) {
      var i :| 0 <= i < |times| - 5 && ApartAt(times, i, from);
      ExactlyApartHoldsSix(times, from, i);
    } else {
      AtMostFiveInClosedWindow(times, from);
    }
  }

  datatype Out = Nobody | Serving(child: nat) | Stopping(child: nat) | Broken

  // Who is out: a child is published, then withdrawn, then closed, and nothing else happens to
  // any child meanwhile; Broken otherwise.
  function Outside(log: seq<Event>): Out {
    if log == [] then Nobody
    else
      var before := Outside(log[..|log| - 1]);
      match log[|log| - 1]
      case Starting(_) => if before == Nobody then Nobody else Broken
      case Published(c) => if before == Nobody then Serving(c) else Broken
      case Withdrawn(c, _) => if before == Serving(c) then Stopping(c) else Broken
      case Closed(c) => if before == Stopping(c) then Nobody else Broken
      case _ => if before == Nobody then Nobody else Broken
  }

  // Appending an event reads it last.
  lemma Snoc(log: seq<Event>, e: Event)
    ensures (log + [e])[..|log + [e]| - 1] == log && (log + [e])[|log + [e]| - 1] == e
  {
  }

  // ---- a supervisor whose every start fails at once ----

  function PowerOfTwo(k: nat): nat { if k == 0 then 1 else 2 * PowerOfTwo(k - 1) }

  predicate IsDelay(d: int) { d in {Second, 2 * Second, 4 * Second, 8 * Second, 16 * Second} }

  // A turn in which the start fails and nothing is cancelled.
  predicate PlainFailure(turn: Turn) {
    !turn.cancelled && !turn.started && !turn.cancelledAfter && !turn.cancelledWaiting
  }

  // The start fails within ten seconds, nothing is cancelled and the timer before it was on time.
  predicate FastAt(script: seq<Turn>, i: nat)
    requires i < |script|
  {
    && PlainFailure(script[i]) && script[i].now - script[i].began <= 10 * Second
    && (i > 0 ==> script[i].began == script[i - 1].now + PowerOfTwo(i - 1) * Second)
  }

  predicate FailsFast(script: seq<Turn>) { forall i: nat | i < |script| :: FastAt(script, i) }

  function FirstDelays(n: nat): seq<int>
  {
    if n == 0 then [] else FirstDelays(n - 1) + [PowerOfTwo(n - 1) * Second]
  }

  lemma {:induction false} FastFailuresAreClose(script: seq<Turn>, i: nat)
    requires FailsFast(script) && i < |script| && i <= 5
    ensures script[i].now - script[0].now < Window
    ensures script[i].now - script[0].now <= (PowerOfTwo(i) + 10 * i) * Second
  {
    assert FastAt(script, i);
    if i > 0 { FastFailuresAreClose(script, i - 1); }
    assert PowerOfTwo(5) == 32;
    PowerMonotone(i, 5);
  }

  lemma {:induction false} PowerMonotone(i: nat, j: nat)
    requires i <= j
    ensures PowerOfTwo(i) <= PowerOfTwo(j)
    decreases j
  {
    if i < j { PowerMonotone(i, j - 1); }
  }

  // ---- the supervisor ----

  // The remembered attempts are the tail of all restarts, and the forgotten ones have left the
  // window that ends now.
  predicate Remembers(attempts: seq<int>, times: seq<int>, now: int) {
    && |attempts| <= |times| && attempts == times[|times| - |attempts|..]
    && Sorted(times) && Spaced(times)
    && (forall k | 0 <= k < |times| :: times[k] <= now)
    && (forall k | 0 <= k < |times| - |attempts| :: now - times[k] >= Window)
  }

  lemma TimePasses(attempts: seq<int>, times: seq<int>, now: int, later: int)
    requires Remembers(attempts, times, now) && now <= later
    ensures Remembers(attempts, times, later)
  {
  }

  // Forgetting everything after five stable minutes forgets nothing still in the window.
  lemma StableChildClears(attempts: seq<int>, times: seq<int>, ready: int, ended: int)
    requires Remembers(attempts, times, ready) && ended - ready >= Window
    ensures Remembers([], times, ended)
  {
  }

  lemma FilteringRemembers(attempts: seq<int>, times: seq<int>, now: int)
    requires Remembers(attempts, times, now)
    ensures Remembers(Recent(attempts, now), times, now)
  {
    var k := RecentIsSuffix(attempts, now);
    assert attempts[k..] == times[|times| - |attempts[k..]|..];
  }

  lemma {:induction false} RecentAfter(gone: seq<int>, attempts: seq<int>, now: int)
    requires forall k | 0 <= k < |gone| :: now - gone[k] >= Window
    ensures Recent(gone + attempts, now) == Recent(attempts, now)
  {
    var all := gone + attempts;
    if attempts != [] {
      assert all[..|all| - 1] == gone + attempts[..|attempts| - 1];
      RecentAfter(gone, attempts[..|attempts| - 1], now);
    } else {
      assert all == gone;
      NoneRecent(gone, now);
    }
  }

  lemma {:induction false} NoneRecent(gone: seq<int>, now: int)
    requires forall k | 0 <= k < |gone| :: now - gone[k] >= Window
    ensures Recent(gone, now) == []
  {
    if gone != [] { NoneRecent(gone[..|gone| - 1], now); }
  }

  // What is remembered and recent is all that is recent.
  lemma RecentOfAll(attempts: seq<int>, times: seq<int>, now: int)
    requires Remembers(attempts, times, now)
    ensures Recent(attempts, now) == Recent(times, now)
  {
    var gone := times[..|times| - |attempts|];
    assert times == gone + attempts;
    RecentAfter(gone, attempts, now);
  }

  lemma OneMoreRemembered(attempts: seq<int>, times: seq<int>, now: int)
    requires Remembers(attempts, times, now) && |attempts| < 5
    ensures Remembers(attempts + [now], times + [now], now)
  {
    assert attempts + [now] == (times + [now])[|times| - |attempts|..];
  }

  // Filter, check the budget, and remember one more restart.
  method Schedule(a: array<int>, n: nat, now: int, ghost times: seq<int>) returns (allowed: bool, m: nat, delay: int)
    requires a.Length == 5 && n <= 5 && Remembers(a[..n], times, now)
    modifies a
    ensures allowed <==> |Recent(old(a[..n]), now)| < 5
    ensures m <= 5
    ensures allowed ==> a[..m] == Recent(old(a[..n]), now) + [now] && Remembers(a[..m], times + [now], now)
    ensures allowed ==> delay == PowerOfTwo(|Recent(old(a[..n]), now)|) * Second && IsDelay(delay)
  {
    FilteringRemembers(a[..n], times, now);
    m := KeepRecent(a, n, now);
    ghost var recent := a[..m];
    allowed, delay := m < 5, 0;
    if allowed {
      delay := PowerOfTwo(m) * Second;
      DelayIsAllowed(m);
      OneMoreRemembered(recent, times, now);
      a[m] := now;
      m := m + 1;
      assert a[..m] == recent + [now];
    }
  }

  lemma DelayIsAllowed(m: nat)
    requires m < 5
    ensures IsDelay(PowerOfTwo(m) * Second)
  {
    SmallPowers();
  }

  lemma SmallPowers()
    ensures PowerOfTwo(0) == 1 && PowerOfTwo(1) == 2 && PowerOfTwo(2) == 4 && PowerOfTwo(3) == 8 && PowerOfTwo(4) == 16
  {
  }

  // While every start fails fast, every earlier restart is still inside the window.
  predicate OnlyFastFailures(script: seq<Turn>, i: nat, attempts: seq<int>) {
    i <= 5 && |attempts| == i && forall k | 0 <= k < i :: script != [] && script[0].now <= attempts[k]
  }

  lemma {:induction false} AllRecent(attempts: seq<int>, from: int, now: int)
    requires (forall k | 0 <= k < |attempts| :: from <= attempts[k]) && now - from < Window
    ensures Recent(attempts, now) == attempts
  {
    if attempts != [] {
      AllRecent(attempts[..|attempts| - 1], from, now);
    }
  }

  // A started child is published and watched; once the watch ends it is withdrawn and closed.
  method Serve(child: nat, ticks: seq<Tick>, log: seq<Event>) returns (running: bool, r: seq<Event>)
    requires Outside(log) == Nobody && Alternate(log) && |Restarts(log)| <= Starts(log) <= |Restarts(log)| + 1
    ensures running <==> FirstStop(ticks, 0).None?
    ensures r == log + [Published(child)] + Ending(child, ticks)
    ensures !running ==> Outside(r) == Nobody && Alternate(r)
    ensures !running ==> Restarts(r) == Restarts(log) && Delays(r) == Delays(log) && Starts(r) == Starts(log)
  {
    r := Log(log, Published(child));
    var used;
    used, running := Watch(ticks);
    FirstStopIs(ticks, 0);
    if running { return; }
    StopIsUnique(ticks, used, FirstStop(ticks, 0).value);
    r := Log(r, Withdrawn(child, used));
    r := Log(r, Closed(child));
  }

  function ClockBefore(script: seq<Turn>, i: nat): int
    requires i <= |script|
  {
    if script == [] then 0 else if i == 0 then script[0].began else script[i - 1].now
  }

  // ---- what a script gives ----

  // When the turns before the i-th one were restarted.
  function Times(script: seq<Turn>, i: nat): seq<int>
    requires i <= |script|
  {
    if i == 0 then [] else Times(script, i - 1) + [script[i - 1].now]
  }

  function RecentCount(script: seq<Turn>, i: nat): nat
    requires i < |script|
  {
    |Recent(Times(script, i), script[i].now)|
  }

  function Ending(i: nat, ticks: seq<Tick>): seq<Event> {
    match FirstStop(ticks, 0)
    case Some(k) => [Withdrawn(i, k), Closed(i)]
    case None => []
  }

  predicate Watching(turn: Turn) { turn.started && FirstStop(turn.ticks, 0).None? }

  // The events of a turn up to the budget, and from there on.
  function Opening(turn: Turn, i: nat): seq<Event> {
    [Starting(i)] + if turn.started then [Published(i)] + Ending(i, turn.ticks) else []
  }

  function Verdict(turn: Turn, recent: nat): seq<Event> {
    if recent >= 5 then [Failed]
    else [Backoff(turn.now, PowerOfTwo(recent) * Second)] + if turn.cancelledWaiting then [Disabled] else []
  }

  function TurnLog(script: seq<Turn>, i: nat): seq<Event>
    requires i < |script|
  {
    var turn := script[i];
    if turn.cancelled then []
    else if Watching(turn) then Opening(turn, i)
    else Opening(turn, i) + if turn.cancelledAfter then [Disabled] else Verdict(turn, RecentCount(script, i))
  }

  function Story(script: seq<Turn>, n: nat): seq<Event>
    requires n <= |script|
  {
    if n == 0 then [] else Story(script, n - 1) + TurnLog(script, n - 1)
  }

  // The turn leads to the next one: nothing was cancelled, the child stopped, and fewer than five
  // of all the restarts so far fall in the last five minutes.
  predicate Continues(script: seq<Turn>, i: nat)
    requires i < |script|
  {
    && !script[i].cancelled && !Watching(script[i]) && !script[i].cancelledAfter && !script[i].cancelledWaiting
    && RecentCount(script, i) < 5
  }

  predicate Reached(script: seq<Turn>, i: nat) { i <= |script| && forall j: nat | j < i :: Continues(script, j) }

  // Exactly the first n turns were taken.
  predicate Taken(script: seq<Turn>, n: nat) {
    && n <= |script| && (n > 0 ==> Reached(script, n - 1))
    && (n < |script| ==> n > 0 && !Continues(script, n - 1))
  }

  predicate GoodLog(log: seq<Event>) {
    && (forall i | 0 <= i < |Delays(log)| :: IsDelay(Delays(log)[i]))
    && Outside(log) == Nobody && Sorted(Restarts(log)) && Spaced(Restarts(log))
    && Alternate(log) && DelaysFollow(Restarts(log), Delays(log))
  }

  // Between turns every start has had its back-off; within one, one start may be without.
  predicate Balanced(log: seq<Event>, open: nat) { Starts(log) == |Restarts(log)| + open }

  method LogBackoff(log: seq<Event>, at: int, delay: int) returns (r: seq<Event>)
    requires GoodLog(log) && IsDelay(delay) && Sorted(Restarts(log) + [at]) && Spaced(Restarts(log) + [at])
    requires Balanced(log, 1) && delay == PowerOfTwo(|Recent(Restarts(log), at)|) * Second
    ensures GoodLog(r) && Balanced(r, 0) && Restarts(r) == Restarts(log) + [at] && Delays(r) == Delays(log) + [delay]
    ensures Starts(r) == Starts(log) && r == log + [Backoff(at, delay)]
  {
    OneMoreDelay(Restarts(log), Delays(log), at);
    r := Log(log, Backoff(at, delay));
  }

  method LogEnd(log: seq<Event>, e: Event) returns (r: seq<Event>)
    requires GoodLog(log) && (e == Failed || e == Disabled) && (Balanced(log, 0) || Balanced(log, 1))
    ensures GoodLog(r) && Restarts(r) == Restarts(log) && Delays(r) == Delays(log) && Starts(r) == Starts(log)
    ensures r == log + [e] && r[|r| - 1] == e
  {
    r := Log(log, e);
  }

  // Starts the child, and serves it if it came up.
  method Start(turn: Turn, i: nat, log: seq<Event>) returns (running: bool, r: seq<Event>)
    requires GoodLog(log) && Balanced(log, 0)
    ensures running <==> Watching(turn)
    ensures r == log + Opening(turn, i)
    ensures !running ==> GoodLog(r) && Balanced(r, 1) && Starts(r) == Starts(log) + 1
    ensures !running ==> Restarts(r) == Restarts(log) && Delays(r) == Delays(log)
  {
    r := Log(log, Starting(i));
    running := false;
    if turn.started {
      var before := r;
      running, r := Serve(i, turn.ticks, r);
      Regroup(log, [Starting(i)], [Published(i)], Ending(i, turn.ticks));
    }
  }

  lemma Regroup(a: seq<Event>, b: seq<Event>, c: seq<Event>, d: seq<Event>)
    ensures a + b + c + d == a + (b + (c + d))
  { }

  // After five stable minutes nothing is remembered.
  method Stabilize(turn: Turn, a: array<int>, n: nat, ghost times: seq<int>, ghost clock: int) returns (m: nat)
    requires n <= a.Length && Remembers(a[..n], times, clock)
    requires clock <= turn.began <= turn.now && (turn.started ==> turn.began <= turn.ready <= turn.ended <= turn.now)
    ensures m <= n && Remembers(a[..m], times, turn.now)
    ensures m == if turn.started && turn.ended - turn.ready >= Window then 0 else n
  {
    TimePasses(a[..n], times, clock, turn.now);
    m := n;
    if turn.started && turn.ended - turn.ready >= Window {
      TimePasses(a[..n], times, clock, turn.ready);
      StableChildClears(a[..n], times, turn.ready, turn.ended);
      TimePasses([], times, turn.ended, turn.now);
      m := 0;
      assert a[..m] == [];
    }
  }

  // The part of a turn up to the budget: start, serve, and clear after five stable minutes.
  method StartAndServe(turn: Turn, i: nat, a: array<int>, n: nat, log: seq<Event>, ghost clock: int)
    returns (more: bool, m: nat, r: seq<Event>)
    requires n <= a.Length && Remembers(a[..n], Restarts(log), clock) && GoodLog(log) && Balanced(log, 0)
    requires clock <= turn.began <= turn.now && (turn.started ==> turn.began <= turn.ready <= turn.ended <= turn.now)
    ensures more <==> !turn.cancelled && !Watching(turn) && !turn.cancelledAfter
    ensures r == log + if turn.cancelled then [] else if more || Watching(turn) then Opening(turn, i) else Opening(turn, i) + [Disabled]
    ensures turn.cancelled || !Watching(turn) ==> GoodLog(r)
    ensures m <= n
    ensures more ==> Restarts(r) == Restarts(log) && Delays(r) == Delays(log) && Remembers(a[..m], Restarts(r), turn.now)
    ensures more ==> Balanced(r, 1) && Starts(r) == Starts(log) + 1
    ensures PlainFailure(turn) ==> m == n
  {
    more, m, r := false, n, log;
    if turn.cancelled { return; }
    var running;
    running, r := Start(turn, i, log);
    if running { return; }
    if turn.cancelledAfter { r := LogEnd(r, Disabled); return; }
    m := Stabilize(turn, a, n, Restarts(log), clock);
    more := true;
  }

  // The rest of the turn: the budget and the back-off.
  method BackOff(turn: Turn, a: array<int>, n: nat, log: seq<Event>) returns (more: bool, m: nat, r: seq<Event>)
    requires a.Length == 5 && n <= 5 && Remembers(a[..n], Restarts(log), turn.now) && GoodLog(log) && Balanced(log, 1)
    modifies a
    ensures GoodLog(r) && Starts(r) == Starts(log) && m <= 5
    ensures more <==> |Recent(Restarts(log), turn.now)| < 5 && !turn.cancelledWaiting
    ensures r == log + Verdict(turn, |Recent(Restarts(log), turn.now)|)
    ensures more ==> Remembers(a[..m], Restarts(r), turn.now) && Balanced(r, 0) && Restarts(r) == Restarts(log) + [turn.now]
    ensures PlainFailure(turn) && |Recent(old(a[..n]), turn.now)| < 5 ==>
              && more && a[..m] == Recent(old(a[..n]), turn.now) + [turn.now]
              && Delays(r) == Delays(log) + [PowerOfTwo(|Recent(old(a[..n]), turn.now)|) * Second]
    ensures PlainFailure(turn) && |Recent(old(a[..n]), turn.now)| >= 5 ==>
              !more && Delays(r) == Delays(log) && r != [] && r[|r| - 1] == Failed
  {
    RecentOfAll(a[..n], Restarts(log), turn.now);
    var delay;
    more, m, delay := Schedule(a, n, turn.now, Restarts(log));
    if !more {
      r := LogEnd(log, Failed);
    } else {
      more, r := Wait(turn, log, delay);
    }
  }

  method Wait(turn: Turn, log: seq<Event>, delay: int) returns (more: bool, r: seq<Event>)
    requires GoodLog(log) && IsDelay(delay) && Sorted(Restarts(log) + [turn.now]) && Spaced(Restarts(log) + [turn.now])
    requires Balanced(log, 1) && delay == PowerOfTwo(|Recent(Restarts(log), turn.now)|) * Second
    ensures GoodLog(r) && Balanced(r, 0) && more == !turn.cancelledWaiting
    ensures r == log + [Backoff(turn.now, delay)] + if turn.cancelledWaiting then [Disabled] else []
    ensures Restarts(r) == Restarts(log) + [turn.now] && Delays(r) == Delays(log) + [delay] && Starts(r) == Starts(log)
  {
    r := LogBackoff(log, turn.now, delay);
    more := !turn.cancelledWaiting;
    if turn.cancelledWaiting { r := LogEnd(r, Disabled); }
  }

  predicate AtTurn(script: seq<Turn>, i: nat, attempts: seq<int>, log: seq<Event>) {
    && i <= |script| && |attempts| <= 5 && GoodLog(log)
    && Remembers(attempts, Restarts(log), ClockBefore(script, i)) && Balanced(log, 0)
    && Restarts(log) == Times(script, i)
  }

  predicate FastSoFar(script: seq<Turn>, i: nat, attempts: seq<int>, log: seq<Event>) {
    OnlyFastFailures(script, i, attempts) && Starts(log) == i && Delays(log) == FirstDelays(i)
  }

  predicate SixStarts(log: seq<Event>) {
    Starts(log) == 6 && Delays(log) == FirstDelays(5) && log != [] && log[|log| - 1] == Failed
  }

  // What a turn with a plain failure does to the attempts and the log.
  predicate FailedTurn(now: int, before: seq<int>, log: seq<Event>, more: bool, after: seq<int>, r: seq<Event>) {
    var recent := Recent(before, now);
    && Starts(r) == Starts(log) + 1 && more == (|recent| < 5)
    && (if more then after == recent + [now] && Delays(r) == Delays(log) + [PowerOfTwo(|recent|) * Second]
        else Delays(r) == Delays(log) && r != [] && r[|r| - 1] == Failed)
  }

  lemma FastTurn(script: seq<Turn>, i: nat, before: seq<int>, log: seq<Event>, more: bool, after: seq<int>, r: seq<Event>)
    requires FailsFast(script) && Clock(script) && i < |script| && FastSoFar(script, i, before, log)
    requires PlainFailure(script[i]) ==> FailedTurn(script[i].now, before, log, more, after, r)
    ensures if more then FastSoFar(script, i + 1, after, r) else SixStarts(r)
  {
    assert FastAt(script, i);
    FastFailuresAreClose(script, i);
    AllRecent(before, script[0].now, script[i].now);
    FastIsLater(script, i);
  }

  lemma {:induction false} FastIsLater(script: seq<Turn>, i: nat)
    requires FailsFast(script) && Clock(script) && i < |script|
    ensures script[0].now <= script[i].now
  {
    assert ClockAt(script, i);
    if i > 0 { FastIsLater(script, i - 1); }
  }

  lemma WholeTurn(script: seq<Turn>, i: nat, log: seq<Event>, open: seq<Event>, r: seq<Event>)
    requires i < |script| && !script[i].cancelled && !Watching(script[i]) && !script[i].cancelledAfter
    requires open == log + Opening(script[i], i) && r == open + Verdict(script[i], RecentCount(script, i))
    ensures r == log + TurnLog(script, i)
  { }

  // A turn that ends before the budget is asked.
  lemma ShortTurn(script: seq<Turn>, i: nat, log: seq<Event>, r: seq<Event>)
    requires i < |script| && (script[i].cancelled || Watching(script[i]) || script[i].cancelledAfter)
    requires r == log + if script[i].cancelled then [] else if Watching(script[i]) then Opening(script[i], i)
                        else Opening(script[i], i) + [Disabled]
    ensures r == log + TurnLog(script, i) && !Continues(script, i)
  { }

  lemma TurnIsOver(script: seq<Turn>, i: nat, attempts: seq<int>, r: seq<Event>)
    requires i < |script| && |attempts| <= 5 && GoodLog(r) && Balanced(r, 0)
    requires Remembers(attempts, Restarts(r), script[i].now) && Restarts(r) == Times(script, i) + [script[i].now]
    ensures AtTurn(script, i + 1, attempts, r)
  { }

  method TakeTurn(script: seq<Turn>, i: nat, a: array<int>, n: nat, log: seq<Event>) returns (more: bool, m: nat, r: seq<Event>)
    requires Clock(script) && i < |script| && a.Length == 5 && n <= 5 && AtTurn(script, i, a[..n], log)
    modifies a
    ensures m <= 5 && r == log + TurnLog(script, i)
    ensures more <==> Continues(script, i)
    ensures Unwatched(script, i) ==> GoodLog(r)
    ensures more ==> AtTurn(script, i + 1, a[..m], r)
    ensures PlainFailure(script[i]) ==> FailedTurn(script[i].now, old(a[..n]), log, more, a[..m], r)
  {
    assert ClockAt(script, i);
    more, m, r := StartAndServe(script[i], i, a, n, log, ClockBefore(script, i));
    if !more {
      ShortTurn(script, i, log, r);
      return;
    }
    ghost var open := r;
    more, m, r := BackOff(script[i], a, m, r);
    WholeTurn(script, i, log, open, r);
    if more { TurnIsOver(script, i, a[..m], r); }
  }

  predicate Going(script: seq<Turn>, i: nat, attempts: seq<int>, log: seq<Event>) {
    && AtTurn(script, i, attempts, log) && (FailsFast(script) ==> FastSoFar(script, i, attempts, log))
    && log == Story(script, i) && Reached(script, i)
  }

  // The turn does not end with its child still being watched.
  predicate Unwatched(script: seq<Turn>, i: nat)
    requires i < |script|
  {
    script[i].cancelled || !Watching(script[i])
  }

  predicate Ended(script: seq<Turn>, n: nat, log: seq<Event>) {
    && Taken(script, n) && log == Story(script, n)
    && (n == 0 || Unwatched(script, n - 1) ==> GoodLog(log))
    && (n > 0 && !Unwatched(script, n - 1) ==> GoodLog(Story(script, n - 1)))
    && (FailsFast(script) && |script| >= 6 ==> SixStarts(log))
  }

  method NextTurn(script: seq<Turn>, i: nat, a: array<int>, n: nat, log: seq<Event>) returns (more: bool, m: nat, r: seq<Event>)
    requires Clock(script) && i < |script| && a.Length == 5 && n <= 5 && Going(script, i, a[..n], log)
    modifies a
    ensures m <= 5
    ensures if more then Going(script, i + 1, a[..m], r) else Ended(script, i + 1, r)
  {
    ghost var before := a[..n];
    more, m, r := TakeTurn(script, i, a, n, log);
    TurnAdvances(script, i, before, log, more, a[..m], r);
  }

  lemma TurnAdvances(script: seq<Turn>, i: nat, before: seq<int>, log: seq<Event>, more: bool, after: seq<int>, r: seq<Event>)
    requires Clock(script) && i < |script| && Going(script, i, before, log)
    requires r == log + TurnLog(script, i) && (more <==> Continues(script, i))
    requires (Unwatched(script, i) ==> GoodLog(r)) && (more ==> AtTurn(script, i + 1, after, r))
    requires PlainFailure(script[i]) ==> FailedTurn(script[i].now, before, log, more, after, r)
    ensures if more then Going(script, i + 1, after, r) else Ended(script, i + 1, r)
  {
    if FailsFast(script) { FastTurn(script, i, before, log, more, after, r); }
  }

  lemma LastTurn(script: seq<Turn>, attempts: seq<int>, log: seq<Event>)
    requires Going(script, |script|, attempts, log)
    ensures Ended(script, |script|, log)
  { }

  // Restarts a minute apart, from time zero.
  predicate EveryMinute(times: seq<int>) { forall i | 0 <= i < |times| :: times[i] == 60 * i * Second }

  lemma EveryMinuteAllowed(times: seq<int>)
    requires EveryMinute(times) && |times| <= 5
    ensures |Recent(times, 60 * |times| * Second)| < 5
  {
    var j := RecentIsSuffix(times, 60 * |times| * Second);
    assert |times| == 5 ==> times[0] == 0;
  }

  lemma {:induction false} EveryMinuteCounts(times: seq<int>)
    requires EveryMinute(times) && |times| <= 6
    ensures InClosedWindow(times, 0) == |times| && InWindow(times, 0) == if |times| < 6 then |times| else 5
  {
    if times != [] {
      assert times[|times| - 1] == 60 * (|times| - 1) * Second;
      EveryMinuteCounts(times[..|times| - 1]);
    }
  }

  // One restart more, a minute after the one before.
  method RestartNextMinute(a: array<int>, n: nat, ghost times: seq<int>, now: int) returns (m: nat)
    requires a.Length == 5 && n <= 5 && EveryMinute(times) && |times| <= 5 && now == 60 * |times| * Second
    requires Remembers(a[..n], times, now - 60 * Second)
    modifies a
    ensures m <= 5 && Remembers(a[..m], times + [now], now) && EveryMinute(times + [now])
  {
    TimePasses(a[..n], times, now - 60 * Second, now);
    RecentOfAll(a[..n], times, now);
    EveryMinuteAllowed(times);
    var allowed, next, delay := Schedule(a, n, now, times);
    m := next;
  }

  lemma SixMinutesSpan(times: seq<int>)
    requires EveryMinute(times) && |times| == 6
    ensures times[0] == 0 && times[5] - times[0] == Window
  { }

  // Six restarts the budget allows, the last exactly five minutes after the first.
  method SixInFiveMinutes() returns (times: seq<int>)
    ensures |times| == 6 && times[5] - times[0] == Window && Sorted(times) && Spaced(times)
    ensures InClosedWindow(times, times[0]) == 6 && InWindow(times, times[0]) == 5
  {
    var a := new int[5];
    var n: nat, now := 0, 0;
    times := [];
    for k := 0 to 6
      invariant |times| == k && EveryMinute(times) && now == 60 * k * Second
      invariant n <= 5 && Remembers(a[..n], times, now - 60 * Second)
    {
      n := RestartNextMinute(a, n, times, now);
      times := times + [now];
      now := now + 60 * Second;
    }
    EveryMinuteCounts(times);
    SixMinutesSpan(times);
  }

  // ---- every child ----

  predicate Of(e: Event, i: nat) {
    match e
    case Starting(c) => c == i
    case Published(c) => c == i
    case Withdrawn(c, _) => c == i
    case Closed(c) => c == i
    case _ => false
  }

  predicate NoneOf(log: seq<Event>, i: nat) { forall p | 0 <= p < |log| :: !Of(log[p], i) }

  predicate AloneAt(log: seq<Event>, i: nat, at: nat, length: nat) {
    at + length <= |log| && forall p | 0 <= p < |log| :: Of(log[p], i) <==> at <= p < at + length
  }

  // The turn is logged from `at` on: started, and if that went well published, and once the watch
  // ends withdrawn and closed, all once and at no other place.
  predicate ServedAt(turn: Turn, i: nat, log: seq<Event>, at: nat) {
    && at < |log| && log[at] == Starting(i)
    && (!turn.started ==> AloneAt(log, i, at, 1))
    && (turn.started ==> at + 1 < |log| && log[at + 1] == Published(i))
    && (Watching(turn) ==> at + 2 == |log| && AloneAt(log, i, at, 2))
    && (turn.started && !Watching(turn) ==>
          && at + 4 <= |log| && AloneAt(log, i, at, 4) && log[at + 3] == Closed(i)
          && log[at + 2].Withdrawn? && log[at + 2].child == i && StopsAfter(turn.ticks, log[at + 2].ticks))
  }

  ghost predicate ServedOnce(turn: Turn, i: nat, log: seq<Event>) { exists at :: ServedAt(turn, i, log, at) }

  ghost predicate Served(turn: Turn, i: nat, log: seq<Event>) {
    if turn.cancelled then NoneOf(log, i) else ServedOnce(turn, i, log)
  }

  lemma NoneOfBoth(a: seq<Event>, b: seq<Event>, i: nat)
    requires NoneOf(a, i) && NoneOf(b, i)
    ensures NoneOf(a + b, i)
  { }

  lemma OpeningIsOwn(turn: Turn, i: nat, j: nat)
    requires i != j
    ensures NoneOf(Opening(turn, i), j)
  { }

  lemma VerdictIsNobodys(turn: Turn, recent: nat, j: nat)
    ensures NoneOf(Verdict(turn, recent), j)
  { }

  lemma OnlyOwnEvents(script: seq<Turn>, i: nat, j: nat)
    requires i < |script| && i != j
    ensures NoneOf(TurnLog(script, i), j)
  {
    OpeningIsOwn(script[i], i, j);
    VerdictIsNobodys(script[i], RecentCount(script, i), j);
    NoneOfBoth(Opening(script[i], i), Verdict(script[i], RecentCount(script, i)), j);
    NoneOfBoth(Opening(script[i], i), [Disabled], j);
  }

  lemma {:induction false} OnlyTaken(script: seq<Turn>, n: nat, j: nat)
    requires n <= |script| && n <= j
    ensures NoneOf(Story(script, n), j)
  {
    if n > 0 {
      OnlyTaken(script, n - 1, j);
      OnlyOwnEvents(script, n - 1, j);
      NoneOfBoth(Story(script, n - 1), TurnLog(script, n - 1), j);
    }
  }

  lemma OpeningServes(turn: Turn, i: nat)
    ensures ServedAt(turn, i, Opening(turn, i), 0)
  {
    FirstStopIs(turn.ticks, 0);
  }

  lemma ServedBehind(turn: Turn, i: nat, before: seq<Event>, own: seq<Event>)
    requires NoneOf(before, i) && ServedOnce(turn, i, own)
    ensures ServedOnce(turn, i, before + own)
  {
    var at :| ServedAt(turn, i, own, at);
    assert ServedAt(turn, i, before + own, |before| + at);
  }

  lemma ServedBefore(turn: Turn, i: nat, own: seq<Event>, later: seq<Event>)
    requires NoneOf(later, i) && ServedOnce(turn, i, own) && !Watching(turn)
    ensures ServedOnce(turn, i, own + later)
  {
    var at :| ServedAt(turn, i, own, at);
    assert ServedAt(turn, i, own + later, at);
  }

  lemma ServedInTurn(script: seq<Turn>, i: nat)
    requires i < |script| && !script[i].cancelled
    ensures ServedOnce(script[i], i, TurnLog(script, i))
  {
    var turn := script[i];
    OpeningServes(turn, i);
    if !Watching(turn) {
      var rest := if turn.cancelledAfter then [Disabled] else Verdict(turn, RecentCount(script, i));
      VerdictIsNobodys(turn, RecentCount(script, i), i);
      ServedBefore(turn, i, Opening(turn, i), rest);
    }
  }

  lemma LastIsServed(script: seq<Turn>, i: nat)
    requires i < |script|
    ensures Served(script[i], i, Story(script, i) + TurnLog(script, i))
  {
    OnlyTaken(script, i, i);
    if !script[i].cancelled {
      ServedInTurn(script, i);
      ServedBehind(script[i], i, Story(script, i), TurnLog(script, i));
    }
  }

  // Every turn taken is logged as it went.
  lemma {:induction false} EveryChildIsServed(script: seq<Turn>, n: nat, i: nat)
    requires i < n <= |script| && Reached(script, n - 1)
    ensures Served(script[i], i, Story(script, n))
    decreases n
  {
    if i == n - 1 {
      LastIsServed(script, i);
    } else {
      assert Continues(script, i);
      EveryChildIsServed(script, n - 1, i);
      OnlyOwnEvents(script, n - 1, i);
      ServedBefore(script[i], i, Story(script, n - 1), TurnLog(script, n - 1));
    }
  }

  // The turns taken are served, and no other has an event.
  ghost predicate EachServed(script: seq<Turn>, n: nat, log: seq<Event>) {
    forall i: nat | i < |script| :: if i < n then Served(script[i], i, log) else NoneOf(log, i)
  }

  lemma AllServed(script: seq<Turn>, n: nat)
    requires Taken(script, n)
    ensures EachServed(script, n, Story(script, n))
  {
    forall i: nat | i < |script| ensures if i < n then Served(script[i], i, Story(script, n)) else NoneOf(Story(script, n), i) {
      if i < n { EveryChildIsServed(script, n, i); } else { OnlyTaken(script, n, i); }
    }
  }

  // Turns are taken until one is cancelled, is out of budget or watches on.
  method TakeTurns(script: seq<Turn>) returns (log: seq<Event>, turns: nat)
    requires Clock(script)
    ensures Ended(script, turns, log)
  {
    var attempts := new int[5];
    var n: nat := 0;
    log, turns := [], 0;
    while turns < |script|
      invariant turns <= |script| && n <= 5 && Going(script, turns, attempts[..n], log)
      decreases |script| - turns
    {
      var more;
      more, n, log := NextTurn(script, turns, attempts, n, log);
      turns := turns + 1;
      if !more { return; }
    }
    LastTurn(script, attempts[..n], log);
  }

  // Every started child is published, and withdrawn and closed when its watch ends, before the next
  // start or the return; at most five restarts fall in any five minutes; a child that cannot start is
  // given up after six starts.
  method Supervise(script: seq<Turn>) returns (log: seq<Event>, turns: nat)
    requires Clock(script)
    ensures Taken(script, turns) && log == Story(script, turns)
    ensures EachServed(script, turns, log)
    ensures if turns == 0 || Unwatched(script, turns - 1) then GoodLog(log) else GoodLog(Story(script, turns - 1))
    ensures FailsFast(script) && |script| >= 6 ==> SixStarts(log)
  {
    log, turns := TakeTurns(script);
    AllServed(script, turns);
  }

  // One more event, and what it adds to each view of the log.
  method Log(log: seq<Event>, e: Event) returns (r: seq<Event>)
    ensures r == log + [e] && r[|r| - 1] == e
    ensures Restarts(r) == (if e.Backoff? then Restarts(log) + [e.at] else Restarts(log))
    ensures Delays(r) == (if e.Backoff? then Delays(log) + [e.delay] else Delays(log))
    ensures Starts(r) == Starts(log) + if e.Starting? then 1 else 0
    ensures Alternate(r) <==> Alternate(log) && |Restarts(r)| <= Starts(r) <= |Restarts(r)| + 1
    ensures Outside(log) == Nobody && !e.Published? && !e.Withdrawn? && !e.Closed? ==> Outside(r) == Nobody
    ensures Outside(log) == Nobody && e.Published? ==> Outside(r) == Serving(e.child)
    ensures e.Withdrawn? && Outside(log) == Serving(e.child) ==> Outside(r) == Stopping(e.child)
    ensures e.Closed? && Outside(log) == Stopping(e.child) ==> Outside(r) == Nobody
  {
    r := log + [e];
    Snoc(log, e);
  }
}
