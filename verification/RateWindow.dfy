/**
 The bounded ring of timestamps (`common/ring_counter.hpp`) and the two sliding-window meters on
 top of it (`FeedRateMeter` and `SlidingWindowRate` of `multicast/gap_recovery.hpp`).
 */
module RateWindow {
  import opened Numbers
  import opened Ring

  /** The first index from `b` on whose timestamp lies after the cutoff. */
  function FirstAfter(s: seq<int>, b: nat, cutoff: int): (k: nat)
    requires b <= |s|
    ensures b <= k <= |s|
    decreases |s| - b
  {
    if b < |s| && s[b] <= cutoff then FirstAfter(s, b + 1, cutoff) else b
  }

  // ---------------------------------------------------------------- the ring

  /** `log` is everything ever pushed and `base` the index in it of the entry under `head`. */
  class TimestampRing {
    const ts: array<int>
    var head: nat
    var tail: nat
    ghost var log: seq<int>
    ghost var base: nat

    ghost predicate Valid()
      reads this, ts
    {
      Holds(ts[..], head, tail, log, base)
    }

    constructor (n: nat)
      requires n > 0
      ensures Valid() && fresh(ts) && ts.Length == n && log == [] && base == 0
    {
      ts := new int[n](_ => 0);
      head, tail, log, base := 0, 0, [], 0;
    }

    /** Forgets exactly the leading entries at or before the cutoff. */
    method Evict(cutoff: int)
      requires Valid()
      modifies this
      ensures Valid() && log == old(log) && base == FirstAfter(log, old(base), cutoff)
    {
      while head != tail && ts[head] <= cutoff
        invariant Valid() && log == old(log)
        invariant FirstAfter(log, base, cutoff) == FirstAfter(log, old(base), cutoff)
        decreases |log| - base
      {
        EvictStep(ts[..], head, tail, log, base, cutoff);
        head := Wrap(head + 1, ts.Length);
        base := base + 1;
      }
      AtHead(ts[..], head, tail, log, base);
    }

    /** A full ring overwrites its oldest entry. */
    method Push(now: int)
      requires Valid()
      modifies this, ts
      ensures Valid() && log == old(log) + [now] && base == Max(old(base), |log| - (ts.Length - 1))
    {
      Pushed(ts[..], head, tail, log, base, now);
      ts[tail] := now;
      tail := Wrap(tail + 1, ts.Length);
      log := log + [now];
      if tail == head {
        head := Wrap(head + 1, ts.Length);
        base := base + 1;
      }
    }

    method Count() returns (c: nat)
      requires Valid()
      ensures c == |log| - base
    {
      c := Mask(tail - head + ts.Length, ts.Length);
      MaskedDistance(|log|, base, ts.Length);
      MaskAddLap(tail - head, ts.Length);
    }

    method Reset()
      requires Valid()
      modifies this
      ensures Valid() && log == [] && base == 0
    {
      head, tail := 0, 0;
      log, base := [], 0;
    }
  }

  /** The ring's slots, from `head` round to `tail`, hold `log[base..]`. */
  ghost predicate Holds(ts: seq<int>, head: nat, tail: nat, log: seq<int>, base: nat) {
    && |ts| > 0 && base <= |log| < base + |ts|
    && head == Wrap(base, |ts|) && tail == Wrap(|log|, |ts|)
    && forall k: nat {:trigger log[k]} | base <= k < |log| :: ts[Wrap(k, |ts|)] == log[k]
  }

  /** The cursors meet exactly when nothing is held; otherwise `head` is on the oldest entry. */
  ghost predicate AtHeadIs(ts: seq<int>, head: nat, tail: nat, log: seq<int>, base: nat) {
    && base <= |log| && head < |ts|
    && (head == tail <==> base == |log|)
    && (head != tail ==> ts[head] == log[base])
  }

  lemma AtHead(ts: seq<int>, head: nat, tail: nat, log: seq<int>, base: nat)
    requires Holds(ts, head, tail, log, base)
    ensures AtHeadIs(ts, head, tail, log, base)
  {
    if base < |log| {
      assert ts[Wrap(base, |ts|)] == log[base];
      SlotsDiffer(base, |log|, |ts|);
    }
  }

  lemma EvictStep(ts: seq<int>, head: nat, tail: nat, log: seq<int>, base: nat, cutoff: int)
    requires Holds(ts, head, tail, log, base) && head != tail && ts[head] <= cutoff
    ensures base < |log| && log[base] <= cutoff
    ensures Holds(ts, Wrap(head + 1, |ts|), tail, log, base + 1)
  {
    AtHead(ts, head, tail, log, base);
    WrapOffset(base, 1, |ts|);
  }

  lemma Written(ts: seq<int>, head: nat, tail: nat, log: seq<int>, base: nat, now: int)
    requires Holds(ts, head, tail, log, base)
    ensures var ts', log' := ts[tail := now], log + [now];
            forall k: nat {:trigger log'[k]} | base <= k < |log'| :: ts'[Wrap(k, |ts|)] == log'[k]
  {
    var ts', log' := ts[tail := now], log + [now];
    forall k: nat {:trigger log'[k]} | base <= k < |log'| ensures ts'[Wrap(k, |ts|)] == log'[k] {
      if k < |log| {
        SlotsDiffer(k, |log|, |ts|);
        assert ts[Wrap(k, |ts|)] == log[k];
      }
    }
  }

  lemma Pushed(ts: seq<int>, head: nat, tail: nat, log: seq<int>, base: nat, now: int)
    requires Holds(ts, head, tail, log, base)
    ensures var ts', log', tail' := ts[tail := now], log + [now], Wrap(tail + 1, |ts|);
            && (tail' == head <==> |log| - base == |ts| - 1)
            && (if tail' == head then Holds(ts', Wrap(head + 1, |ts|), tail', log', base + 1)
                else Holds(ts', head, tail', log', base))
  {
    Written(ts, head, tail, log, base, now);
    WrapOffset(|log|, 1, |ts|);
    WrapOffset(base, 1, |ts|);
    Meets(base, |log| + 1, |ts|);
  }

  lemma Meets(b: nat, e: nat, n: nat)
    requires n > 0 && b < e <= b + n
    ensures Wrap(b, n) == Wrap(e, n) <==> e == b + n
  {
    if e < b + n {
      SlotsDiffer(b, e, n);
    } else {
      assert Wrap(b + n, n) == Wrap(b, n);
    }
  }

  lemma MaskAddLap(x: int, n: nat)
    requires n > 0
    ensures Mask(x + n, n) == Mask(x, n)
  {
  }

  // ---------------------------------------------------------------- the meters

  /** Everything that arrived, how much of it is no longer held, and the greatest count seen. */
  datatype Meter = Meter(window: int, log: seq<int>, base: nat, peak: int)

  function Held(m: Meter): int {
    |m.log| - m.base
  }

  /** `on_message` and `on_event`, with room for `n - 1` timestamps. */
  function OnArrival(m: Meter, n: nat, now: int): (r: Meter)
    requires n > 0 && m.base <= |m.log|
    ensures r.base <= |r.log|
  {
    var log := m.log + [now];
    var base := FirstAfter(log, Max(m.base, |log| - (n - 1)), now - m.window);
    m.(log := log, base := base, peak := Max(m.peak, |log| - base))
  }

  function OnQuery(m: Meter, now: int): (r: Meter)
    requires m.base <= |m.log|
    ensures r.base <= |r.log|
  {
    m.(base := FirstAfter(m.log, m.base, now - m.window))
  }

  const RING_SIZE: nat := 4096

  class FeedRateMeter {
    const window: int
    const ring: TimestampRing
    var peakCount: nat

    ghost predicate Valid()
      reads this, ring, ring.ts
    {
      ring.Valid() && ring.ts.Length == RING_SIZE
    }

    ghost function View(): Meter
      reads this, ring
    {
      Meter(window, ring.log, ring.base, peakCount)
    }

    /** A window that is not positive is replaced by one nanosecond. */
    constructor (w: int)
      ensures Valid() && fresh(ring) && fresh(ring.ts)
      ensures View() == Meter(if w > 0 then w else 1, [], 0, 0)
    {
      window := if w > 0 then w else 1;
      ring := new TimestampRing(RING_SIZE);
      peakCount := 0;
    }

    method OnMessage(now: int)
      requires Valid()
      modifies this, ring, ring.ts
      ensures Valid() && View() == OnArrival(old(View()), RING_SIZE, now)
    {
      ring.Push(now);
      ring.Evict(now - window);
      var c := ring.Count();
      if c > peakCount { peakCount := c; }
    }

    method Count(now: int) returns (c: nat)
      requires Valid()
      modifies ring
      ensures Valid() && View() == OnQuery(old(View()), now) && c == Held(View())
    {
      ring.Evict(now - window);
      c := ring.Count();
    }
  }

  class SlidingWindowRate {
    const window: int
    const ring: TimestampRing
    var peakCount: nat

    ghost predicate Valid()
      reads this, ring, ring.ts
    {
      ring.Valid() && ring.ts.Length == RING_SIZE
    }

    ghost function View(): Meter
      reads this, ring
    {
      Meter(window, ring.log, ring.base, peakCount)
    }

    constructor (w: int)
      ensures Valid() && fresh(ring) && fresh(ring.ts)
      ensures View() == Meter(w, [], 0, 0)
    {
      window := w;
      ring := new TimestampRing(RING_SIZE);
      peakCount := 0;
    }

    method OnEvent(now: int)
      requires Valid()
      modifies this, ring, ring.ts
      ensures Valid() && View() == OnArrival(old(View()), RING_SIZE, now)
    {
      ring.Push(now);
      ring.Evict(now - window);
      var c := ring.Count();
      if c > peakCount { peakCount := c; }
    }

    /** Unlike the rate meter, reading evicts nothing. */
    method Count() returns (c: nat)
      requires Valid()
      ensures c == Held(View())
    {
      c := ring.Count();
    }
  }

  // ---------------------------------------------------------------- counting, by definition

  /** How many of the first `m` events lie after the cutoff. */
  function CountFirst(log: seq<int>, m: nat, cutoff: int): (c: nat)
    requires m <= |log|
    ensures c <= m
  {
    if m == 0 then 0 else CountFirst(log, m - 1, cutoff) + if log[m - 1] > cutoff then 1 else 0
  }

  /** How many events of the log lie after the cutoff. */
  function CountAfter(log: seq<int>, cutoff: int): nat {
    CountFirst(log, |log|, cutoff)
  }

  ghost predicate NonDecreasing(s: seq<int>) {
    forall i, j | 0 <= i <= j < |s| :: s[i] <= s[j]
  }

  /** In a sorted log the events after the cutoff are its last ones. */
  lemma {:induction false} AfterIsSuffix(log: seq<int>, m: nat, cutoff: int)
    requires NonDecreasing(log) && m <= |log|
    ensures forall i | 0 <= i < m :: log[i] > cutoff <==> i >= m - CountFirst(log, m, cutoff)
  {
    if m > 0 {
      AfterIsSuffix(log, m - 1, cutoff);
      var c := CountFirst(log, m - 1, cutoff);
      assert c > 0 ==> log[m - 1 - c] > cutoff;
    }
  }

  /** Evicting from anywhere in a sorted log stops at the first event after the cutoff. */
  lemma {:induction false} FirstAfterIs(log: seq<int>, b: nat, cutoff: int)
    requires NonDecreasing(log) && b <= |log|
    ensures FirstAfter(log, b, cutoff) == Max(b, |log| - CountAfter(log, cutoff))
    decreases |log| - b
  {
    AfterIsSuffix(log, |log|, cutoff);
    if b < |log| && log[b] <= cutoff {
      FirstAfterIs(log, b + 1, cutoff);
    }
  }

  lemma {:induction false} LaterCutoff(log: seq<int>, m: nat, c1: int, c2: int)
    requires c1 <= c2 && m <= |log|
    ensures CountFirst(log, m, c2) <= CountFirst(log, m, c1)
  {
    if m > 0 {
      LaterCutoff(log, m - 1, c1, c2);
    }
  }

  lemma {:induction false} CountPrefix(log: seq<int>, now: int, m: nat, cutoff: int)
    requires m <= |log|
    ensures CountFirst(log + [now], m, cutoff) == CountFirst(log, m, cutoff)
  {
    if m > 0 {
      CountPrefix(log, now, m - 1, cutoff);
    }
  }

  // ---------------------------------------------------------------- over every run

  datatype Call = Message(now: int) | Query(now: int)

  function Logged(log: seq<int>, c: Call): seq<int> {
    if c.Message? then log + [c.now] else log
  }

  /** The arrival times among the calls. */
  function Arrivals(calls: seq<Call>): seq<int> {
    if calls == [] then [] else Logged(Arrivals(calls[..|calls| - 1]), calls[|calls| - 1])
  }

  ghost predicate InOrder(calls: seq<Call>) {
    forall i, j | 0 <= i <= j < |calls| :: calls[i].now <= calls[j].now
  }

  function FreshMeter(window: int): Meter {
    Meter(window, [], 0, 0)
  }

  function After(m: Meter, n: nat, c: Call): (r: Meter)
    requires n > 0 && m.base <= |m.log|
    ensures r.base <= |r.log|
  {
    if c.Message? then OnArrival(m, n, c.now) else OnQuery(m, c.now)
  }

  function Run(m: Meter, n: nat, calls: seq<Call>): (r: Meter)
    requires n > 0 && m.base <= |m.log|
    ensures r.window == m.window && r.base <= |r.log|
  {
    if calls == [] then m else After(Run(m, n, calls[..|calls| - 1]), n, calls[|calls| - 1])
  }

  /** What a count at `now` should be: the events in the window, saturating at `n - 1`. */
  function InWindow(log: seq<int>, window: int, n: nat, now: int): nat
    requires n > 0
  {
    Min(n - 1, CountAfter(log, now - window))
  }

  /** The greatest window count at any arrival. */
  function Busiest(calls: seq<Call>, window: int, n: nat): int
    requires n > 0
  {
    if calls == [] then 0
    else
      var c, before := calls[|calls| - 1], Busiest(calls[..|calls| - 1], window, n);
      if c.Message? then Max(before, InWindow(Arrivals(calls), window, n, c.now)) else before
  }

  lemma {:induction false} ArrivalsInOrder(calls: seq<Call>)
    requires InOrder(calls)
    ensures NonDecreasing(Arrivals(calls))
    ensures calls != [] ==> forall i | 0 <= i < |Arrivals(calls)| :: Arrivals(calls)[i] <= calls[|calls| - 1].now
  {
    if calls != [] {
      ArrivalsInOrder(calls[..|calls| - 1]);
    }
  }

  lemma LaterCounts(log: seq<int>, c1: int, c2: int, now: int)
    requires c1 <= c2
    ensures CountAfter(log, c2) <= CountAfter(log, c1)
    ensures CountAfter(log + [now], c2) <= CountAfter(log, c1) + 1
  {
    LaterCutoff(log, |log|, c1, c2);
    CountPrefix(log, now, |log|, c2);
  }

  /** One call, on a meter that holds the window of the log so far. */
  lemma CallExact(m: Meter, n: nat, cutoff: int, c: Call)
    requires n > 0 && m.base <= |m.log| && NonDecreasing(Logged(m.log, c)) && cutoff <= c.now - m.window
    requires Held(m) == Min(n - 1, CountAfter(m.log, cutoff))
    ensures var r := After(m, n, c);
            r.log == Logged(m.log, c) && Held(r) == InWindow(r.log, m.window, n, c.now)
  {
    LaterCounts(m.log, cutoff, c.now - m.window, c.now);
    var log := Logged(m.log, c);
    FirstAfterIs(log, if c.Message? then Max(m.base, |log| - (n - 1)) else m.base, c.now - m.window);
  }

  lemma {:induction false} RunHolds(window: int, n: nat, calls: seq<Call>)
    requires n > 0 && InOrder(calls) && calls != []
    ensures var m := Run(FreshMeter(window), n, calls);
            && m.log == Arrivals(calls)
            && Held(m) == InWindow(m.log, window, n, calls[|calls| - 1].now)
            && m.peak == Busiest(calls, window, n)
    decreases |calls|
  {
    var front, c := calls[..|calls| - 1], calls[|calls| - 1];
    var m := Run(FreshMeter(window), n, front);
    var cutoff := (if front == [] then c.now else front[|front| - 1].now) - window;
    if front != [] {
      RunHolds(window, n, front);
      assert front[|front| - 1].now == calls[|calls| - 2].now <= c.now;
    }
    ArrivalsInOrder(calls);
    CallExact(m, n, cutoff, c);
  }

  /**
   For any run of calls at non-decreasing times, the count held after the last call is the number of
   arrivals later than `now - window`, saturating at `n - 1`, and the peak is the greatest such
   count at any arrival.
   */
  lemma CountIsExact(window: int, n: nat, calls: seq<Call>)
    requires n > 0 && InOrder(calls) && calls != []
    ensures var m := Run(FreshMeter(window), n, calls);
            && Held(m) == Min(n - 1, CountAfter(Arrivals(calls), calls[|calls| - 1].now - window))
            && m.peak == Busiest(calls, window, n)
  {
    RunHolds(window, n, calls);
  }

  /** The two meters' rings of 4096 slots hold up to 4095 events. */
  lemma MetersHold4095(window: int, calls: seq<Call>)
    requires InOrder(calls) && calls != []
    ensures var m := Run(FreshMeter(window), RING_SIZE, calls);
            Held(m) == Min(4095, CountAfter(Arrivals(calls), calls[|calls| - 1].now - window))
  {
    CountIsExact(window, RING_SIZE, calls);
  }

  /** Out of order it fails: a newer entry under the head shields an older one behind it. */
  lemma DisorderMiscounts()
    ensures var calls := [Message(10), Message(5), Query(20)];
            Held(Run(FreshMeter(12), 8, calls)) == 2 && CountAfter(Arrivals(calls), 20 - 12) == 1
  {
    var c1, c2, calls := [Message(10)], [Message(10), Message(5)], [Message(10), Message(5), Query(20)];
    assert calls[..2] == c2 && c2[..1] == c1;
    assert Run(FreshMeter(12), 8, c1).log == [10] && Run(FreshMeter(12), 8, c1).base == 0;
    assert Run(FreshMeter(12), 8, c2).log == [10, 5] && Run(FreshMeter(12), 8, c2).base == 0;
    assert Arrivals(c1) == [10] && Arrivals(c2) == [10, 5];
    assert CountFirst([10, 5], 1, 8) == 1;
  }

  // ---------------------------------------------------------------- exactly when the count is exact

  function Messages(times: seq<int>): seq<Call> {
    seq(|times|, i requires 0 <= i < |times| => Message(times[i]))
  }

  /** The meter after these arrivals and nothing else. */
  function Fed(window: int, n: nat, times: seq<int>): (m: Meter)
    requires n > 0
    ensures m.window == window && m.base <= |m.log|
  {
    Run(FreshMeter(window), n, Messages(times))
  }

  lemma FedSnoc(window: int, n: nat, times: seq<int>)
    requires n > 0 && times != []
    ensures Fed(window, n, times) == OnArrival(Fed(window, n, times[..|times| - 1]), n, times[|times| - 1])
  {
    var calls := Messages(times);
    assert calls[..|calls| - 1] == Messages(times[..|times| - 1]);
  }

  lemma {:induction false} FedLog(window: int, n: nat, times: seq<int>)
    requires n > 0
    ensures Fed(window, n, times).log == times && Arrivals(Messages(times)) == times
  {
    if times != [] {
      var front := times[..|times| - 1];
      FedLog(window, n, front);
      FedSnoc(window, n, times);
      assert Messages(times)[..|times| - 1] == Messages(front);
      assert times == front + [times[|times| - 1]];
    }
  }

  /** After these arrivals a count asked for at `now` is the number of them in the window, saturating. */
  ghost predicate ExactAt(window: int, n: nat, times: seq<int>, now: int)
    requires n > 0
  {
    Held(OnQuery(Fed(window, n, times), now)) == InWindow(times, window, n, now)
  }

  /** The count is right after every prefix of the arrivals, whenever it is asked for from the last of them on. */
  ghost predicate AlwaysExact(window: int, n: nat, times: seq<int>)
    requires n > 0
  {
    forall m: nat, now | 0 < m <= |times| && times[m - 1] <= now :: ExactAt(window, n, times[..m], now)
  }

  /** No arrival is more than `slack` earlier than one before it. */
  ghost predicate Orderly(times: seq<int>, slack: int) {
    forall i, j | 0 <= i < j < |times| :: times[i] <= times[j] + slack
  }

  /** There is room for another arrival after every prefix: the full ring never drops an entry. */
  ghost predicate Unsaturated(window: int, n: nat, times: seq<int>) {
    1 < n && forall m: nat | m <= |times| :: Held(Fed(window, n, times[..m])) + 1 < n
  }

  lemma OrderlyPrefix(times: seq<int>, m: nat, now: int)
    requires Orderly(times, 0) && 0 < m <= |times| && times[m - 1] <= now
    ensures InOrder(Messages(times[..m]) + [Query(now)]) && NonDecreasing(times[..m])
  {
  }

  /** In order, every count is exact. */
  lemma OrderlyIsExact(window: int, n: nat, times: seq<int>, m: nat, now: int)
    requires n > 0 && Orderly(times, 0) && 0 < m <= |times| && times[m - 1] <= now
    ensures ExactAt(window, n, times[..m], now)
  {
    var calls := Messages(times[..m]) + [Query(now)];
    OrderlyPrefix(times, m, now);
    CountIsExact(window, n, calls);
    FedLog(window, n, times[..m]);
    assert calls[..|calls| - 1] == Messages(times[..m]);
  }

  /** The first arrival earlier than the one before it. */
  lemma {:induction false} FirstDescent(times: seq<int>) returns (j: nat)
    requires !Orderly(times, 0)
    ensures 0 < j < |times| && NonDecreasing(times[..j]) && times[j] < times[j - 1]
  {
    var last := |times| - 1;
    var front := times[..last];
    OrderlySnoc(times);
    if last > 0 && times[last] < times[last - 1] && Orderly(front, 0) {
      j := last;
    } else {
      j := FirstDescent(front);
      assert front[..j] == times[..j];
    }
  }

  lemma OrderlySnoc(times: seq<int>)
    requires times != []
    ensures var last := |times| - 1;
            Orderly(times[..last], 0) && (last > 0 ==> times[last - 1] <= times[last]) ==> Orderly(times, 0)
  {
    var front := times[..|times| - 1];
    assert forall i | 0 <= i < |front| :: front[i] == times[i];
    assert Orderly(front, 0) ==> forall i | 0 <= i < |front| :: front[i] <= front[|front| - 1];
  }

  lemma {:induction false} FirstAfterLonger(log: seq<int>, x: int, b: nat, cutoff: int)
    requires b <= |log| && FirstAfter(log, b, cutoff) < |log|
    ensures FirstAfter(log + [x], b, cutoff) == FirstAfter(log, b, cutoff)
    decreases |log| - b
  {
    if log[b] <= cutoff {
      FirstAfterLonger(log, x, b + 1, cutoff);
    }
  }

  /** Where the base stands after sorted arrivals that leave room in the ring. */
  lemma SortedBase(window: int, n: nat, log: seq<int>)
    requires 0 < |log| && 1 < n && Held(Fed(window, n, log)) + 1 < n && NonDecreasing(log)
    ensures Fed(window, n, log).base == |log| - CountAfter(log, log[|log| - 1] - window)
  {
    FedLog(window, n, log);
    assert InOrder(Messages(log));
    CountIsExact(window, n, Messages(log));
  }

  /** The arrival `x`, earlier than the last of the sorted `log`: what it leaves, for a positive window. */
  lemma DescentBase(window: int, n: nat, log: seq<int>, x: int)
    requires window > 0 && 0 < |log| && 1 < n && NonDecreasing(log) && x < log[|log| - 1]
    requires Held(Fed(window, n, log)) + 1 < n
    ensures Fed(window, n, log + [x]).base == |log| - CountAfter(log, log[|log| - 1] - window) < |log|
  {
    var last := log[|log| - 1];
    SortedBase(window, n, log);
    FedLog(window, n, log);
    FedSnoc(window, n, log + [x]);
    assert (log + [x])[..|log|] == log;
    AfterIsSuffix(log, |log|, last - window);
  }

  /** Asking at the late arrival itself: too low if something already evicted is back in the window. */
  lemma TooLow(window: int, n: nat, log: seq<int>, x: int)
    requires window > 0 && 0 < |log| && 1 < n && NonDecreasing(log) && x < log[|log| - 1]
    requires Held(Fed(window, n, log)) + 1 < n && Held(Fed(window, n, log + [x])) + 1 < n
    requires CountAfter(log, log[|log| - 1] - window) < CountAfter(log, x - window)
    ensures !ExactAt(window, n, log + [x], x)
  {
    var times := log + [x];
    var b := Fed(window, n, times).base;
    DescentBase(window, n, log, x);
    FedLog(window, n, times);
    CountPrefix(log, x, |log|, x - window);
    AfterIsSuffix(log, |log|, log[|log| - 1] - window);
    assert times[b] == log[b] > x - window;
  }

  /** Asking one window later: too high, because the late arrival hides behind a newer one. */
  lemma TooHigh(window: int, n: nat, log: seq<int>, x: int)
    requires window > 0 && 0 < |log| && 1 < n && NonDecreasing(log) && x < log[|log| - 1]
    requires Held(Fed(window, n, log)) + 1 < n && Held(Fed(window, n, log + [x])) + 1 < n
    requires CountAfter(log, log[|log| - 1] - window) >= CountAfter(log, x - window)
    ensures !ExactAt(window, n, log + [x], x + window)
  {
    var times := log + [x];
    var b := Fed(window, n, times).base;
    DescentBase(window, n, log, x);
    FedLog(window, n, times);
    CountPrefix(log, x, |log|, x);
    LaterCutoff(log, |log|, x - window, x);
    FirstAfterIs(log, b, x);
    AfterIsSuffix(log, |log|, x);
    FirstAfterLonger(log, x, b, x);
  }

  /** With no window at all nothing is held, and the arrival before the late one is missed. */
  lemma NoWindow(n: nat, times: seq<int>, j: nat)
    requires 1 < n && 0 < j < |times| && times[j] < times[j - 1]
    ensures !ExactAt(0, n, times[..j + 1], times[j])
  {
    EvictsAll(0, n, times[..j + 1]);
    FedLog(0, n, times[..j + 1]);
    NoneAfter(times[..j + 1], times[j]);
    assert times[..j + 1][j - 1] > times[j];
  }

  /** A window that is not positive evicts every arrival at once. */
  lemma {:induction false} EvictsAll(window: int, n: nat, times: seq<int>)
    requires window <= 0 && n > 0
    ensures Fed(window, n, times).base == |times|
  {
    FedLog(window, n, times);
    if times != [] {
      var front, x := times[..|times| - 1], times[|times| - 1];
      EvictsAll(window, n, front);
      FedLog(window, n, front);
      FedSnoc(window, n, times);
      assert front + [x] == times;
    }
  }

  lemma {:induction false} NoneFirst(log: seq<int>, m: nat, cutoff: int)
    requires m <= |log|
    ensures CountFirst(log, m, cutoff) == 0 <==> forall i | 0 <= i < m :: log[i] <= cutoff
  {
    if m > 0 {
      NoneFirst(log, m - 1, cutoff);
    }
  }

  lemma NoneAfter(log: seq<int>, cutoff: int)
    ensures CountAfter(log, cutoff) == 0 <==> forall i | 0 <= i < |log| :: log[i] <= cutoff
  {
    NoneFirst(log, |log|, cutoff);
  }

  /** A late arrival makes some count wrong, when the window is not negative. */
  lemma DescentFails(window: int, n: nat, times: seq<int>)
    requires window >= 0 && Unsaturated(window, n, times) && !Orderly(times, 0)
    ensures !AlwaysExact(window, n, times)
  {
    var j := FirstDescent(times);
    var log, x := times[..j], times[j];
    assert times[..j + 1] == log + [x];
    if window == 0 {
      NoWindow(n, times, j);
      assert !ExactAt(window, n, times[..j + 1], x);
    } else if CountAfter(log, log[|log| - 1] - window) < CountAfter(log, x - window) {
      TooLow(window, n, log, x);
      assert !ExactAt(window, n, times[..j + 1], x);
    } else {
      TooHigh(window, n, log, x);
      assert !ExactAt(window, n, times[..j + 1], x + window);
    }
  }

  /** With a negative window nothing is ever held, and a count is right while nothing lies that far ahead. */
  lemma NegativeWindow(window: int, n: nat, times: seq<int>, m: nat, now: int)
    requires window < 0 && 1 < n && 0 < m <= |times|
    ensures ExactAt(window, n, times[..m], now) <==> forall i | 0 <= i < m :: times[i] <= now - window
  {
    EvictsAll(window, n, times[..m]);
    FedLog(window, n, times[..m]);
    NoneAfter(times[..m], now - window);
    assert forall i | 0 <= i < m :: times[..m][i] == times[i];
  }

  lemma NegativeExactIff(window: int, n: nat, times: seq<int>)
    requires window < 0 && 1 < n
    ensures AlwaysExact(window, n, times) <==> Orderly(times, -window)
  {
    if AlwaysExact(window, n, times) {
      forall i, j | 0 <= i < j < |times| ensures times[i] <= times[j] - window {
        assert ExactAt(window, n, times[..j + 1], times[j]);
        NegativeWindow(window, n, times, j + 1, times[j]);
      }
    }
    if Orderly(times, -window) {
      forall m: nat, now | 0 < m <= |times| && times[m - 1] <= now ensures ExactAt(window, n, times[..m], now) {
        NegativeWindow(window, n, times, m, now);
      }
    }
  }

  /**
   As long as the ring keeps room, however many arrivals there are, every count after every arrival is exact if and only if the
   arrivals are in order; a negative window forgives as much disorder as it is long.
   */
  lemma ExactIffOrderly(window: int, n: nat, times: seq<int>)
    requires Unsaturated(window, n, times)
    ensures AlwaysExact(window, n, times) <==> Orderly(times, Max(0, -window))
  {
    if window < 0 {
      NegativeExactIff(window, n, times);
    } else if Orderly(times, 0) {
      forall m: nat, now | 0 < m <= |times| && times[m - 1] <= now ensures ExactAt(window, n, times[..m], now) {
        OrderlyIsExact(window, n, times, m, now);
      }
    } else {
      DescentFails(window, n, times);
    }
  }
}
