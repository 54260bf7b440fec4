/**
 Three independent views of one sequence stream from `multicast/gap_recovery.hpp`:
 `ContiguousTracker`, `ReorderBuffer` and the head of line of `GapRecovery`. They agree, and what
 they agree on is the least sequence not seen yet.
 */
module FeedOrder {
  import opened Numbers
  import opened GapRecovery

  // ---------------------------------------------------------------- ContiguousTracker

  datatype Track = Track(next: nat, ahead: set<nat>)

  /** Pull in everything that has become contiguous. */
  function Drain(t: Track): Track
    decreases |t.ahead|
  {
    if t.next in t.ahead then Drain(Track(t.next + 1, t.ahead - {t.next})) else t
  }

  function Receive(t: Track, s: nat): Track {
    if s < t.next then t
    else if s == t.next then Drain(t.(next := t.next + 1))
    else t.(ahead := t.ahead + {s})
  }

  class ContiguousTracker {
    var nextExpected: nat
    var ahead: set<nat>
    var maxLookahead: nat

    ghost function View(): Track
      reads this
    {
      Track(nextExpected, ahead)
    }

    constructor (start: nat)
      ensures View() == Track(start, {}) && maxLookahead == 0
    {
      nextExpected, ahead, maxLookahead := start, {}, 0;
    }

    method ReceiveSeq(s: nat)
      modifies this
      ensures View() == Receive(old(View()), s)
      ensures maxLookahead == Max(old(maxLookahead), if s > old(nextExpected) then s - old(nextExpected) else 0)
    {
      if s < nextExpected { return; }
      if s == nextExpected {
        nextExpected := nextExpected + 1;
        while nextExpected in ahead
          invariant Drain(View()) == Drain(Track(old(nextExpected) + 1, old(ahead)))
          invariant maxLookahead == old(maxLookahead)
          decreases |ahead|
        {
          ahead := ahead - {nextExpected};
          nextExpected := nextExpected + 1;
        }
      } else {
        if s - nextExpected > maxLookahead { maxLookahead := s - nextExpected; }
        ahead := ahead + {s};
      }
    }
  }

  // ---------------------------------------------------------------- ReorderBuffer

  datatype Reorder<T> = Reorder(expected: nat, initialized: bool, pending: map<nat, T>, out: seq<T>, duplicates: nat)

  function Deliver<T>(r: Reorder<T>): Reorder<T>
    decreases |r.pending|
  {
    if r.expected in r.pending then
      ShrinkPending(r.pending, r.expected);
      Deliver(r.(out := r.out + [r.pending[r.expected]], pending := r.pending - {r.expected}, expected := r.expected + 1))
    else r
  }

  lemma ShrinkPending<T>(m: map<nat, T>, k: nat)
    requires k in m
    ensures |m - {k}| < |m|
  {
    assert (m - {k}).Keys == m.Keys - {k};
  }

  function PushPacket<T>(r: Reorder<T>, s: nat, v: T): Reorder<T> {
    var r := if r.initialized then r else r.(expected := s, initialized := true);
    if s < r.expected then r.(duplicates := r.duplicates + 1)
    else Deliver(r.(pending := r.pending[s := v]))
  }

  class ReorderBuffer<T> {
    var expected: nat
    var initialized: bool
    var pending: map<nat, T>
    var out: seq<T>
    var duplicates: nat
    var maxBuffered: nat

    ghost function View(): Reorder<T>
      reads this
    {
      Reorder(expected, initialized, pending, out, duplicates)
    }

    constructor ()
      ensures View() == Reorder(0, false, map[], [], 0) && maxBuffered == 0
    {
      expected, initialized, pending, out, duplicates, maxBuffered := 0, false, map[], [], 0, 0;
    }

    method Push(s: nat, v: T)
      modifies this
      ensures View() == PushPacket(old(View()), s, v)
      ensures maxBuffered == if old(initialized) && s < old(expected) then old(maxBuffered)
                             else Max(old(maxBuffered), |old(pending)[s := v]|)
    {
      if !initialized { expected, initialized := s, true; }
      if s < expected {
        duplicates := duplicates + 1;
        return;
      }
      pending := pending[s := v];
      if |pending| > maxBuffered { maxBuffered := |pending|; }
      ghost var start := View();
      while expected in pending
        invariant Deliver(View()) == Deliver(start)
        invariant maxBuffered == Max(old(maxBuffered), |old(pending)[s := v]|)
        decreases |pending|
      {
        ShrinkPending(pending, expected);
        out := out + [pending[expected]];
        pending := pending - {expected};
        expected := expected + 1;
      }
    }
  }

  // ---------------------------------------------------------------- the least unseen sequence

  /** The reference answer: everything from `f` up to `n` was seen and `n` was not. */
  ghost predicate IsLeastUnseen(f: nat, seen: set<nat>, n: nat) {
    f <= n && n !in seen && forall x: nat | f <= x < n :: x in seen
  }

  lemma LeastUnseenUnique(f: nat, seen: set<nat>, a: nat, b: nat)
    requires IsLeastUnseen(f, seen, a) && IsLeastUnseen(f, seen, b)
    ensures a == b
  {
  }

  /** What the tracker remembers of the set seen since `f`. */
  ghost predicate TrackInv(t: Track, f: nat, seen: set<nat>) {
    && IsLeastUnseen(f, seen, t.next)
    && forall x: nat :: x in t.ahead <==> x in seen && x > t.next
  }

  lemma {:induction false} DrainReaches(t: Track, f: nat, seen: set<nat>)
    requires f <= t.next && (forall x: nat | f <= x < t.next :: x in seen)
    requires forall x: nat :: x in t.ahead <==> x in seen && x >= t.next
    ensures TrackInv(Drain(t), f, seen)
    decreases |t.ahead|
  {
    if t.next in t.ahead {
      DrainReaches(Track(t.next + 1, t.ahead - {t.next}), f, seen);
    }
  }

  lemma ReceiveKeeps(t: Track, f: nat, seen: set<nat>, s: nat)
    requires TrackInv(t, f, seen)
    ensures TrackInv(Receive(t, s), f, seen + {s})
  {
    if s == t.next {
      DrainReaches(t.(next := t.next + 1), f, seen + {s});
    }
  }

  /** What the reorder buffer remembers: one value per sequence, given by `val`. */
  ghost predicate ReorderInv<T>(r: Reorder<T>, f: nat, seen: set<nat>, val: nat -> T) {
    && r.initialized && IsLeastUnseen(f, seen, r.expected)
    && (forall x: nat :: x in r.pending <==> x in seen && x > r.expected)
    && (forall x: nat | x in r.pending :: r.pending[x] == val(x))
    && DeliveredUpTo(r, f, val)
  }

  ghost predicate DeliveredUpTo<T>(r: Reorder<T>, f: nat, val: nat -> T) {
    && f <= r.expected && |r.out| == r.expected - f
    && forall k: nat | k < |r.out| :: r.out[k] == val(f + k)
  }

  lemma {:induction false} DeliverReaches<T>(r: Reorder<T>, f: nat, seen: set<nat>, val: nat -> T)
    requires r.initialized && DeliveredUpTo(r, f, val)
    requires forall x: nat | f <= x < r.expected :: x in seen
    requires forall x: nat :: x in r.pending <==> x in seen && x >= r.expected
    requires forall x: nat | x in r.pending :: r.pending[x] == val(x)
    ensures ReorderInv(Deliver(r), f, seen, val)
    decreases |r.pending|
  {
    if r.expected in r.pending {
      ShrinkPending(r.pending, r.expected);
      DeliverReaches(r.(out := r.out + [r.pending[r.expected]], pending := r.pending - {r.expected}, expected := r.expected + 1),
                     f, seen, val);
    }
  }

  lemma PushKeeps<T>(r: Reorder<T>, f: nat, seen: set<nat>, val: nat -> T, s: nat)
    requires ReorderInv(r, f, seen, val)
    ensures ReorderInv(PushPacket(r, s, val(s)), f, seen + {s}, val)
  {
    if s >= r.expected {
      DeliverReaches(r.(pending := r.pending[s := val(s)]), f, seen + {s}, val);
    }
  }

  /** Everything from `f` up to and including `s` was seen, so `s` has been delivered or lies below `f`. */
  ghost predicate IsLate(f: nat, seen: set<nat>, s: nat) {
    forall x: nat | f <= x <= s :: x in seen
  }

  /** How many packets of a stream come after they were delivered. */
  ghost function LateCount(f: nat, seen: set<nat>, stream: seq<nat>): nat
    decreases |stream|
  {
    if stream == [] then 0
    else (if IsLate(f, seen, stream[0]) then 1 else 0) + LateCount(f, seen + {stream[0]}, stream[1..])
  }

  lemma {:induction false} DeliverKeepsCount<T>(r: Reorder<T>)
    ensures Deliver(r).duplicates == r.duplicates
    decreases |r.pending|
  {
    if r.expected in r.pending {
      ShrinkPending(r.pending, r.expected);
      DeliverKeepsCount(r.(out := r.out + [r.pending[r.expected]], pending := r.pending - {r.expected}, expected := r.expected + 1));
    }
  }

  /** A packet counts as a duplicate exactly when its sequence was delivered before. */
  lemma PushCounts<T>(r: Reorder<T>, f: nat, seen: set<nat>, val: nat -> T, s: nat)
    requires ReorderInv(r, f, seen, val)
    ensures PushPacket(r, s, val(s)).duplicates == r.duplicates + if IsLate(f, seen, s) then 1 else 0
  {
    if s < r.expected {
      assert IsLate(f, seen, s);
    } else {
      assert r.expected !in seen && f <= r.expected <= s;
      DeliverKeepsCount(r.(pending := r.pending[s := val(s)]));
    }
  }

  lemma {:induction false} RunCounts<T>(r: Reorder<T>, f: nat, seen: set<nat>, stream: seq<nat>, val: nat -> T)
    requires ReorderInv(r, f, seen, val)
    ensures RunReorder(r, stream, val).duplicates == r.duplicates + LateCount(f, seen, stream)
    decreases |stream|
  {
    if stream != [] {
      PushCounts(r, f, seen, val, stream[0]);
      PushKeeps(r, f, seen, val, stream[0]);
      RunCounts(PushPacket(r, stream[0], val(stream[0])), f, seen + {stream[0]}, stream[1..], val);
    }
  }

  /** What the gap recovery remembers. */
  ghost predicate GapInv(g: Gap, f: nat, seen: set<nat>) {
    && g.initialized && f in seen && f < g.expected
    && (forall x: nat | x in seen :: x < g.expected)
    && g.expected - 1 in seen
    && forall x: nat :: x in g.missing <==> f <= x < g.expected && x !in seen
  }

  lemma ObserveKeeps(g: Gap, f: nat, seen: set<nat>, s: nat)
    requires GapInv(g, f, seen)
    ensures GapInv(Observe(g, s), f, seen + {s})
  {
  }

  /** `expected - head_of_line_lag`: the in-order delivery point. */
  lemma HeadOfLineIsLeastUnseen(g: Gap, f: nat, seen: set<nat>)
    requires GapInv(g, f, seen)
    ensures g.expected - HeadOfLineLag(g) >= 0
    ensures IsLeastUnseen(f, seen, g.expected - HeadOfLineLag(g))
  {
  }

  // ---------------------------------------------------------------- over every stream

  function RunTrack(t: Track, stream: seq<nat>): Track
    decreases |stream|
  {
    if stream == [] then t else RunTrack(Receive(t, stream[0]), stream[1..])
  }

  function RunReorder<T>(r: Reorder<T>, stream: seq<nat>, val: nat -> T): Reorder<T>
    decreases |stream|
  {
    if stream == [] then r else RunReorder(PushPacket(r, stream[0], val(stream[0])), stream[1..], val)
  }

  function RunGap(g: Gap, stream: seq<nat>): Gap
    decreases |stream|
  {
    if stream == [] then g else RunGap(Observe(g, stream[0]), stream[1..])
  }

  ghost function SeenIn(stream: seq<nat>): set<nat> {
    set x | x in stream
  }

  lemma {:induction false} RunKeeps<T>(t: Track, r: Reorder<T>, g: Gap, f: nat, seen: set<nat>, stream: seq<nat>, val: nat -> T)
    requires TrackInv(t, f, seen) && ReorderInv(r, f, seen, val) && GapInv(g, f, seen)
    ensures TrackInv(RunTrack(t, stream), f, seen + SeenIn(stream))
    ensures ReorderInv(RunReorder(r, stream, val), f, seen + SeenIn(stream), val)
    ensures GapInv(RunGap(g, stream), f, seen + SeenIn(stream))
    decreases |stream|
  {
    if stream == [] {
      assert seen + SeenIn(stream) == seen;
    } else {
      var s := stream[0];
      ReceiveKeeps(t, f, seen, s);
      PushKeeps(r, f, seen, val, s);
      ObserveKeeps(g, f, seen, s);
      RunKeeps(Receive(t, s), PushPacket(r, s, val(s)), Observe(g, s), f, seen + {s}, stream[1..], val);
      assert stream == [s] + stream[1..];
      assert seen + SeenIn(stream) == seen + {s} + SeenIn(stream[1..]);
    }
  }

  lemma FirstPacket<T>(f: nat, val: nat -> T)
    ensures TrackInv(Receive(Track(f, {}), f), f, {f})
    ensures ReorderInv(PushPacket(Reorder(0, false, map[], [], 0), f, val(f)), f, {f}, val)
    ensures GapInv(Observe(FRESH, f), f, {f})
  {
    DrainReaches(Track(f + 1, {}), f, {f});
    DeliverReaches(Reorder(f, true, map[f := val(f)], [], 0), f, {f}, val);
  }

  /** The three invariants after a whole stream, including its first packet. */
  lemma StreamKeeps<T>(stream: seq<nat>, f: nat, val: nat -> T)
    requires stream != [] && stream[0] == f
    ensures TrackInv(RunTrack(Track(f, {}), stream), f, SeenIn(stream))
    ensures ReorderInv(RunReorder(Reorder(0, false, map[], [], 0), stream, val), f, SeenIn(stream), val)
    ensures GapInv(RunGap(FRESH, stream), f, SeenIn(stream))
  {
    var t0 := Track(f, {});
    var r0: Reorder<T> := Reorder(0, false, map[], [], 0);
    FirstPacket(f, val);
    RunKeeps(Receive(t0, f), PushPacket(r0, f, val(f)), Observe(FRESH, f), f, {f}, stream[1..], val);
    assert {f} + SeenIn(stream[1..]) == SeenIn(stream) by {
      assert stream == [f] + stream[1..];
    }
    Unfold(t0, r0, FRESH, stream, val);
  }

  lemma Unfold<T>(t: Track, r: Reorder<T>, g: Gap, stream: seq<nat>, val: nat -> T)
    requires stream != []
    ensures RunTrack(t, stream) == RunTrack(Receive(t, stream[0]), stream[1..])
    ensures RunReorder(r, stream, val) == RunReorder(PushPacket(r, stream[0], val(stream[0])), stream[1..], val)
    ensures RunGap(g, stream) == RunGap(Observe(g, stream[0]), stream[1..])
  {
  }

  lemma StreamCounts<T>(stream: seq<nat>, f: nat, val: nat -> T)
    requires stream != [] && stream[0] == f
    ensures RunReorder(Reorder(0, false, map[], [], 0), stream, val).duplicates == LateCount(f, {}, stream)
  {
    var r := Reorder(f, true, map[f := val(f)], [], 0);
    FirstPacket(f, val);
    RunCounts(PushPacket(Reorder(0, false, map[], [], 0), f, val(f)), f, {f}, stream[1..], val);
    DeliverKeepsCount(r);
    assert {} + {f} == {f} && !IsLate(f, {}, f);
  }

  lemma InvariantsAgree<T>(t: Track, r: Reorder<T>, g: Gap, f: nat, seen: set<nat>, val: nat -> T)
    requires TrackInv(t, f, seen) && ReorderInv(r, f, seen, val) && GapInv(g, f, seen)
    ensures t.next == r.expected == g.expected - HeadOfLineLag(g)
    ensures r.out == ValuesFrom(f, r.expected, val)
  {
    HeadOfLineIsLeastUnseen(g, f, seen);
    LeastUnseenUnique(f, seen, t.next, r.expected);
    LeastUnseenUnique(f, seen, t.next, g.expected - HeadOfLineLag(g));
  }

  /** The values of the sequences `f..n-1`, in order. */
  function ValuesFrom<T>(f: nat, n: nat, val: nat -> T): seq<T>
    requires f <= n
  {
    seq(n - f, k requires 0 <= k => val(f + k))
  }

  /**
   On every stream starting at `f`, with any loss, duplication and order: tracker, reorder buffer
   and gap recovery stand at the same sequence, the least unseen one, and the reorder buffer has
   delivered exactly the values of `f..expected-1`, in order, counting every later copy of them.
   */
  lemma ViewsAgree<T>(stream: seq<nat>, val: nat -> T)
    requires stream != []
    ensures var f := stream[0];
            var t := RunTrack(Track(f, {}), stream);
            var r := RunReorder(Reorder(0, false, map[], [], 0), stream, val);
            var g := RunGap(FRESH, stream);
            && IsLeastUnseen(f, SeenIn(stream), t.next)
            && t.next == r.expected == g.expected - HeadOfLineLag(g)
            && r.out == ValuesFrom(f, r.expected, val)
            && r.duplicates == LateCount(f, {}, stream)
  {
    var f := stream[0];
    StreamCounts(stream, f, val);
    StreamKeeps(stream, f, val);
    InvariantsAgree(RunTrack(Track(f, {}), stream), RunReorder(Reorder(0, false, map[], [], 0), stream, val),
                    RunGap(FRESH, stream), f, SeenIn(stream), val);
  }
}
