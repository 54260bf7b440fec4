/**
 `GapRecovery` of `multicast/gap_recovery.hpp`: which sequence numbers of a feed are still missing.
 Sequence numbers are unbounded.
 */
module GapRecovery {
  import opened Numbers
  import opened Ordered

  datatype Gap = Gap(
    missing: set<nat>,
    expected: nat,
    initialized: bool,
    packets: nat,
    gapEvents: nat,
    recovered: nat,
    duplicates: nat,
    maxBurst: nat)

  const FRESH := Gap({}, 0, false, 0, 0, 0, 0, 0)

  function NatInterval(lo: nat, hi: nat): (s: set<nat>)
    ensures forall x: nat :: x in s <==> lo <= x < hi
  {
    Interval(lo, hi)
  }

  function Observe(g: Gap, s: nat): Gap {
    var g := g.(packets := g.packets + 1);
    if !g.initialized then g.(initialized := true, expected := s + 1)
    else if s == g.expected then g.(expected := s + 1)
    else if s > g.expected then
      g.(missing := g.missing + NatInterval(g.expected, s), gapEvents := g.gapEvents + 1, expected := s + 1,
         maxBurst := Max(g.maxBurst, s - g.expected))
    else if s in g.missing then g.(missing := g.missing - {s}, recovered := g.recovered + 1)
    else g.(duplicates := g.duplicates + 1)
  }

  function Retransmit(g: Gap, s: nat): (Gap, bool) {
    if s in g.missing then (g.(missing := g.missing - {s}, recovered := g.recovered + 1), true) else (g, false)
  }

  function UpTo(m: set<nat>, s: nat): set<nat> {
    set x | x in m && x <= s
  }

  function Resync(g: Gap, s: nat): Gap {
    g.(missing := g.missing - UpTo(g.missing, s),
       recovered := g.recovered + |UpTo(g.missing, s)|,
       expected := Max(g.expected, s + 1),
       initialized := true)
  }

  /** `head_of_line_lag`. */
  function HeadOfLineLag(g: Gap): int {
    if g.missing == {} then 0 else g.expected - Least(g.missing)
  }

  // ---------------------------------------------------------------- the object

  class Recovery {
    var missing: set<nat>
    var expected: nat
    var initialized: bool
    var packets: nat
    var gapEvents: nat
    var recovered: nat
    var duplicates: nat
    var maxBurst: nat

    ghost function View(): Gap
      reads this
    {
      Gap(missing, expected, initialized, packets, gapEvents, recovered, duplicates, maxBurst)
    }

    constructor ()
      ensures View() == FRESH
    {
      missing, expected, initialized, packets := {}, 0, false, 0;
      gapEvents, recovered, duplicates, maxBurst := 0, 0, 0, 0;
    }

    method ObserveSeq(s: nat)
      modifies this
      ensures View() == Observe(old(View()), s)
    {
      packets := packets + 1;
      if !initialized {
        initialized, expected := true, s + 1;
        return;
      }
      if s == expected {
        expected := expected + 1;
        return;
      }
      if s > expected {
        if s - expected > maxBurst { maxBurst := s - expected; }
        var i := expected;
        while i < s
          invariant expected <= i <= s && expected == old(expected)
          invariant missing == old(missing) + NatInterval(expected, i)
          invariant packets == old(packets) + 1 && maxBurst == Max(old(maxBurst), s - expected)
          invariant View() == old(View()).(packets := packets, maxBurst := maxBurst, missing := missing)
        {
          missing := missing + {i};
          i := i + 1;
        }
        gapEvents := gapEvents + 1;
        expected := s + 1;
        return;
      }
      if s in missing {
        missing, recovered := missing - {s}, recovered + 1;
      } else {
        duplicates := duplicates + 1;
      }
    }

    method OnRetransmit(s: nat) returns (filled: bool)
      modifies this
      ensures (View(), filled) == Retransmit(old(View()), s)
    {
      if s in missing {
        missing, recovered := missing - {s}, recovered + 1;
        return true;
      }
      return false;
    }

    /** `snapshot_resync`: erase from the front of the ordered set while it lies at or below the snapshot. */
    method SnapshotResync(s: nat)
      modifies this
      ensures View() == Resync(old(View()), s)
    {
      var n;
      missing, n := EraseUpTo(missing, s);
      recovered := recovered + n;
      if s + 1 > expected { expected := s + 1; }
      initialized := true;
    }

    method MissingRanges() returns (out: seq<(int, int)>)
      ensures out == Group(Sorted(missing))
    {
      if missing == {} { return []; }
      out := RangesOf(Sorted(missing));
    }

    method OutstandingRangeCount() returns (runs: nat)
      ensures runs == |Group(Sorted(missing))|
    {
      runs := CountRuns(Sorted(missing));
    }

    method LargestOutstandingRun() returns (best: int)
      ensures best == MaxWidth(Group(Sorted(missing)))
    {
      best := LargestRun(Sorted(missing));
    }
  }

  // ---------------------------------------------------------------- loops over the ordered set

  method EraseUpTo(from: set<nat>, s: nat) returns (rest: set<nat>, n: nat)
    ensures rest == from - UpTo(from, s) && n == |UpTo(from, s)|
  {
    rest, n := from, 0;
    ghost var gone: set<nat> := {};
    while rest != {} && Least(rest) <= s
      invariant gone <= from && (forall x | x in gone :: x <= s)
      invariant rest == from - gone && n == |gone|
      decreases |rest|
    {
      var x: nat := Least(rest);
      gone := gone + {x};
      rest, n := rest - {x}, n + 1;
    }
    forall x | x in from && x <= s ensures x in gone {
      assert x in rest || x in gone;
    }
    assert gone == UpTo(from, s);
  }

  method RangesOf(q: seq<int>) returns (out: seq<(int, int)>)
    requires q != []
    ensures out == Group(q)
  {
    out := [];
    var start, prev := q[0], q[0];
    var k := 1;
    GroupPrefix(q, 0);
    while k < |q|
      invariant 1 <= k <= |q|
      invariant Group(q[..k]) == out + [(start, prev)]
    {
      GroupPrefix(q, k);
      if q[k] == prev + 1 {
        prev := q[k];
      } else {
        out := out + [(start, prev)];
        start, prev := q[k], q[k];
      }
      k := k + 1;
    }
    assert q[..k] == q;
    out := out + [(start, prev)];
  }

  method CountRuns(q: seq<int>) returns (runs: nat)
    ensures runs == |Group(q)|
  {
    runs := 0;
    var havePrev, prev := false, 0;
    ghost var g := [];
    for k := 0 to |q|
      invariant g == Group(q[..k]) && runs == |g|
      invariant havePrev <==> g != []
      invariant g != [] ==> prev == g[|g| - 1].1
    {
      GroupPrefix(q, k);
      g := Push(g, q[k]);
      if !havePrev || q[k] != prev + 1 { runs := runs + 1; }
      havePrev, prev := true, q[k];
    }
    assert q[..|q|] == q;
  }

  method LargestRun(q: seq<int>) returns (best: int)
    ensures best == MaxWidth(Group(q))
  {
    best := 0;
    var cur, havePrev, prev := 0, false, 0;
    ghost var g := [];
    for k := 0 to |q|
      invariant g == Group(q[..k]) && Tracks(g, best, cur, havePrev, prev)
    {
      GroupPrefix(q, k);
      TracksStep(g, best, cur, havePrev, prev, q[k]);
      g := Push(g, q[k]);
      if havePrev && q[k] == prev + 1 {
        cur := cur + 1;
      } else {
        cur := 1;
      }
      if cur > best { best := cur; }
      havePrev, prev := true, q[k];
    }
    assert q[..|q|] == q;
  }

  /** The loop's variables describe the runs so far: the greatest width, and the last run with its width. */
  ghost predicate Tracks(g: seq<(int, int)>, best: int, cur: int, havePrev: bool, prev: int) {
    && best == MaxWidth(g) && (havePrev <==> g != [])
    && (g != [] ==> g[|g| - 1] == (prev - cur + 1, prev) && cur > 0)
  }

  lemma TracksStep(g: seq<(int, int)>, best: int, cur: int, havePrev: bool, prev: int, e: int)
    requires Tracks(g, best, cur, havePrev, prev)
    ensures var cur' := if havePrev && e == prev + 1 then cur + 1 else 1;
            Tracks(Push(g, e), if cur' > best then cur' else best, cur', true, e)
  {
    PushWidth(g, e);
  }

  // ---------------------------------------------------------------- ranges

  /** Add the next number of an ascending walk to the runs so far. */
  function Push(g: seq<(int, int)>, e: int): (r: seq<(int, int)>)
    ensures r != [] && r[|r| - 1].1 == e
  {
    if g != [] && g[|g| - 1].1 + 1 == e then g[|g| - 1 := (g[|g| - 1].0, e)] else g + [(e, e)]
  }

  function Group(q: seq<int>): (g: seq<(int, int)>)
    ensures q != [] ==> g != [] && g[|g| - 1].1 == q[|q| - 1]
  {
    if q == [] then [] else Push(Group(q[..|q| - 1]), q[|q| - 1])
  }

  lemma GroupPrefix(q: seq<int>, k: nat)
    requires k < |q|
    ensures Group(q[..k + 1]) == Push(Group(q[..k]), q[k])
  {
    assert q[..k + 1][..k] == q[..k];
  }

  function Width(r: (int, int)): int {
    r.1 - r.0 + 1
  }

  function MaxWidth(g: seq<(int, int)>): int {
    if g == [] then 0
    else
      var w := MaxWidth(g[..|g| - 1]);
      if Width(g[|g| - 1]) > w then Width(g[|g| - 1]) else w
  }

  lemma {:induction false} MaxWidthIsGreatest(g: seq<(int, int)>)
    ensures MaxWidth(g) >= 0 && forall i | 0 <= i < |g| :: Width(g[i]) <= MaxWidth(g)
    ensures MaxWidth(g) > 0 ==> exists i | 0 <= i < |g| :: Width(g[i]) == MaxWidth(g)
  {
    if g != [] {
      var p := g[..|g| - 1];
      MaxWidthIsGreatest(p);
      assert forall i | 0 <= i < |p| :: p[i] == g[i];
      if MaxWidth(p) > 0 {
        var i :| 0 <= i < |p| && Width(p[i]) == MaxWidth(p);
        assert Width(g[i]) == MaxWidth(p);
      }
    }
  }

  /** Pushing a number leaves the old maximum or makes the last run the new one. */
  lemma PushWidth(g: seq<(int, int)>, e: int)
    requires g != [] ==> Width(g[|g| - 1]) >= 0
    ensures var r := Push(g, e);
            MaxWidth(r) == if Width(r[|r| - 1]) > MaxWidth(g) then Width(r[|r| - 1]) else MaxWidth(g)
  {
    var r := Push(g, e);
    if |r| == |g| {
      assert r[..|r| - 1] == g[..|g| - 1];
    } else {
      assert r[..|r| - 1] == g;
    }
  }

  predicate Covers(g: seq<(int, int)>, x: int) {
    exists i | 0 <= i < |g| :: g[i].0 <= x <= g[i].1
  }

  /** Non-empty, sorted, disjoint, never adjacent intervals whose union is `s`: the maximal runs of `s`. */
  ghost predicate IsRuns(g: seq<(int, int)>, s: set<int>) {
    && (forall i | 0 <= i < |g| :: g[i].0 <= g[i].1)
    && (forall i, j | 0 <= i < j < |g| :: g[i].1 + 1 < g[j].0)
    && (forall x :: x in s <==> Covers(g, x))
  }

  lemma CoversAppend(g: seq<(int, int)>, r: (int, int), x: int)
    ensures Covers(g + [r], x) <==> Covers(g, x) || r.0 <= x <= r.1
  {
    if r.0 <= x <= r.1 {
      assert (g + [r])[|g|] == r;
    }
    if Covers(g, x) {
      var i :| 0 <= i < |g| && g[i].0 <= x <= g[i].1;
      assert (g + [r])[i] == g[i];
    }
  }

  lemma {:induction false} GroupIsRuns(q: seq<int>, s: set<int>)
    requires Ascending(q) && forall x :: x in q <==> x in s
    ensures IsRuns(Group(q), s)
    decreases |q|
  {
    if q == [] {
      assert Group(q) == [];
    } else {
      var e := q[|q| - 1];
      var p := q[..|q| - 1];
      LastMember(q, s);
      GroupIsRuns(p, s - {e});
      PushRuns(Group(p), s - {e}, e);
    }
  }

  lemma LastMember(q: seq<int>, s: set<int>)
    requires q != [] && Ascending(q) && forall x :: x in q <==> x in s
    ensures var e, p := q[|q| - 1], q[..|q| - 1];
            && Ascending(p) && (forall x :: x in p <==> x in s - {e})
            && (p != [] ==> p[|p| - 1] < e) && s - {e} + {e} == s
  {
    var e, p := q[|q| - 1], q[..|q| - 1];
    assert q == p + [e];
    assert e in q;
    forall x ensures x in p <==> x in s - {e} {
      assert x in q <==> x in p || x == e;
    }
  }

  lemma PushRuns(g: seq<(int, int)>, s: set<int>, e: int)
    requires IsRuns(g, s) && (g != [] ==> g[|g| - 1].1 < e)
    ensures IsRuns(Push(g, e), s + {e})
  {
    if g != [] && g[|g| - 1].1 + 1 == e {
      GrownRuns(g, s, e);
    } else {
      assert forall i | 0 <= i < |g| :: g[i].1 + 1 < e;
      AppendedRuns(g, s, e);
    }
  }

  lemma AppendedRuns(g: seq<(int, int)>, s: set<int>, e: int)
    requires IsRuns(g, s) && forall i | 0 <= i < |g| :: g[i].1 + 1 < e
    ensures IsRuns(g + [(e, e)], s + {e})
  {
    forall x ensures x in s + {e} <==> Covers(g + [(e, e)], x) {
      CoversAppend(g, (e, e), x);
    }
  }

  lemma GrownRuns(g: seq<(int, int)>, s: set<int>, e: int)
    requires IsRuns(g, s) && g != [] && g[|g| - 1].1 + 1 == e
    ensures IsRuns(g[|g| - 1 := (g[|g| - 1].0, e)], s + {e})
  {
    var front, last := g[..|g| - 1], g[|g| - 1];
    var r := g[|g| - 1 := (last.0, e)];
    assert g == front + [last] && r == front + [(last.0, e)];
    forall x ensures x in s + {e} <==> Covers(r, x) {
      CoversAppend(front, last, x);
      CoversAppend(front, (last.0, e), x);
    }
  }

  /** The decomposition into runs is unique, so every correct answer is this one. */
  lemma {:induction false} RunsUnique(a: seq<(int, int)>, b: seq<(int, int)>, s: set<int>)
    requires IsRuns(a, s) && IsRuns(b, s)
    ensures a == b
    decreases |a|
  {
    if a == [] || b == [] {
      EmptyRuns(a, s);
      EmptyRuns(b, s);
    } else {
      SameFirst(a, b, s);
      DropFirst(a, s);
      DropFirst(b, s);
      var rest := s - Interval(a[0].0, a[0].1 + 1);
      RunsUnique(a[1..], b[1..], rest);
      assert a == [a[0]] + a[1..] && b == [b[0]] + b[1..];
    }
  }

  lemma EmptyRuns(a: seq<(int, int)>, s: set<int>)
    requires IsRuns(a, s)
    ensures a == [] <==> s == {}
  {
    if a != [] {
      assert Covers(a, a[0].0);
    } else {
      assert forall x :: x !in s;
    }
  }

  lemma FirstBounds(a: seq<(int, int)>, b: seq<(int, int)>, s: set<int>)
    requires IsRuns(a, s) && IsRuns(b, s) && a != [] && b != []
    ensures b[0].0 <= a[0].0
  {
    assert Covers(a, a[0].0);
    var j :| 0 <= j < |b| && b[j].0 <= a[0].0 <= b[j].1;
    assert j > 0 ==> b[0].1 + 1 < b[j].0;
  }

  lemma EndBounds(a: seq<(int, int)>, b: seq<(int, int)>, s: set<int>)
    requires IsRuns(a, s) && IsRuns(b, s) && a != [] && b != [] && a[0].0 == b[0].0
    ensures b[0].1 <= a[0].1
  {
    var x := a[0].1 + 1;
    assert !Covers(a, x);
    assert b[0].0 <= x <= b[0].1 ==> Covers(b, x);
  }

  lemma SameFirst(a: seq<(int, int)>, b: seq<(int, int)>, s: set<int>)
    requires IsRuns(a, s) && IsRuns(b, s) && a != [] && b != []
    ensures a[0] == b[0]
  {
    FirstBounds(a, b, s);
    FirstBounds(b, a, s);
    EndBounds(a, b, s);
    EndBounds(b, a, s);
  }

  lemma DropFirst(a: seq<(int, int)>, s: set<int>)
    requires IsRuns(a, s) && a != []
    ensures IsRuns(a[1..], s - Interval(a[0].0, a[0].1 + 1))
  {
    forall x ensures x in s - Interval(a[0].0, a[0].1 + 1) <==> Covers(a[1..], x) {
      if Covers(a[1..], x) {
        var i :| 0 <= i < |a[1..]| && a[1..][i].0 <= x <= a[1..][i].1;
        assert a[i + 1] == a[1..][i];
        assert Covers(a, x);
      }
      if x in s && x !in Interval(a[0].0, a[0].1 + 1) {
        var i :| 0 <= i < |a| && a[i].0 <= x <= a[i].1;
        assert a[1..][i - 1] == a[i];
      }
    }
  }

  /**
   What the three read-outs say about the missing set: the ranges are its maximal runs, the only
   such decomposition, and the count and the largest run are their number and greatest width.
   */
  lemma RangesAreTheRuns(missing: set<nat>)
    ensures var g := Group(Sorted(missing));
            && IsRuns(g, missing)
            && (forall other | IsRuns(other, missing) :: other == g)
            && (forall i | 0 <= i < |g| :: Width(g[i]) <= MaxWidth(g))
            && (missing != {} ==> exists i | 0 <= i < |g| :: Width(g[i]) == MaxWidth(g))
  {
    var g := Group(Sorted(missing));
    GroupIsRuns(Sorted(missing), missing);
    forall other | IsRuns(other, missing) ensures other == g {
      RunsUnique(other, g, missing);
    }
    EmptyRuns(g, missing);
    MaxWidthIsGreatest(g);
    assert g != [] ==> Width(g[0]) > 0;
  }

  // ---------------------------------------------------------------- history

  datatype Event = Seen(s: nat) | Resent(s: nat) | Snapshot(s: nat)

  /**
   What really happened, told without the recovery: the first sequence, one past the greatest,
   everything covered since, and how many packets came, opened a gap or repeated what was covered,
   with the widths of the gaps.
   */
  datatype History = History(
    started: bool, first: nat, next: nat, covered: set<nat>,
    packets: nat, gaps: nat, repeats: nat, widths: nat, widest: nat)

  const NO_HISTORY := History(false, 0, 0, {}, 0, 0, 0, 0, 0)

  function After(g: Gap, e: Event): Gap {
    match e
    case Seen(s) => Observe(g, s)
    case Resent(s) => Retransmit(g, s).0
    case Snapshot(s) => Resync(g, s)
  }

  /** A sequence between the first and the greatest that nothing has covered. */
  predicate Absent(h: History, s: nat) {
    h.started && h.first <= s < h.next && s !in h.covered
  }

  function SeeFirst(h: History, s: nat): History {
    h.(started := true, first := s, next := s + 1, covered := {s}, packets := h.packets + 1)
  }

  function See(h: History, s: nat): History {
    var ahead := if s > h.next then s - h.next else 0;
    h.(next := Max(h.next, s + 1), covered := h.covered + {s}, packets := h.packets + 1,
       gaps := h.gaps + (if ahead > 0 then 1 else 0),
       repeats := h.repeats + (if s < h.next && !Absent(h, s) then 1 else 0),
       widths := h.widths + ahead, widest := Max(h.widest, ahead))
  }

  /** A retransmission of a sequence that was not absent is ignored; a snapshot covers everything up to it. */
  function Remember(h: History, e: Event): History {
    match e
    case Seen(s) => if h.started then See(h, s) else SeeFirst(h, s)
    case Resent(s) => if Absent(h, s) then h.(covered := h.covered + {s}) else h
    case Snapshot(s) =>
      if !h.started then h.(started := true, next := s + 1, covered := NatInterval(0, s + 1))
      else h.(next := Max(h.next, s + 1), covered := h.covered + NatInterval(h.first, s + 1))
  }

  ghost predicate Counts(g: Gap, h: History) {
    && g.initialized == h.started && g.expected == h.next && g.packets == h.packets
    && g.gapEvents == h.gaps && g.duplicates == h.repeats && g.maxBurst == h.widest
    && g.recovered + |g.missing| == h.widths
  }

  /** Every sequence from the first up to `expected` is covered or missing, never both, and no loss goes uncounted. */
  ghost predicate Partition(g: Gap, h: History) {
    && Counts(g, h)
    && (!h.started ==> h.first == h.next == 0 && h.covered == {} && h.widths == 0)
    && h.first <= h.next
    && (forall x: nat :: x in g.missing <==> Absent(h, x))
    && (forall x: nat | x in h.covered :: x < h.next)
  }

  /** A retransmission is answered true exactly when it brings an absent sequence. */
  lemma RetransmitAnswers(g: Gap, h: History, s: nat)
    requires Partition(g, h)
    ensures Retransmit(g, s).1 <==> Absent(h, s)
  {
  }

  lemma EventKeepsPartition(g: Gap, h: History, e: Event)
    requires Partition(g, h)
    ensures Partition(After(g, e), Remember(h, e))
  {
    match e
    case Seen(s) => ObserveKeepsPartition(g, h, s);
    case Resent(s) =>
    case Snapshot(s) => ResyncKeepsPartition(g, h, s);
  }

  lemma GapOpens(g: Gap, h: History, s: nat)
    requires Partition(g, h) && h.started && s > h.next
    ensures Partition(Observe(g, s), See(h, s))
  {
    var gap := NatInterval(g.expected, s);
    IntervalSize(g.expected, s);
    assert g.missing !! gap;
    assert |g.missing + gap| == |g.missing| + |gap|;
  }

  lemma ObserveKeepsPartition(g: Gap, h: History, s: nat)
    requires Partition(g, h)
    ensures Partition(Observe(g, s), Remember(h, Seen(s)))
  {
    if h.started && s > h.next {
      GapOpens(g, h, s);
    } else if !h.started {
      NothingMissing(g);
    }
  }

  lemma NothingMissing(g: Gap)
    requires forall x: nat :: x !in g.missing
    ensures g.missing == {}
  {
  }

  lemma ErasedSize(missing: set<nat>, s: nat)
    ensures |missing - UpTo(missing, s)| + |UpTo(missing, s)| == |missing|
    ensures missing == {} ==> UpTo(missing, s) == {}
  {
    assert (missing - UpTo(missing, s)) + UpTo(missing, s) == missing;
  }

  lemma ResyncKeepsPartition(g: Gap, h: History, s: nat)
    requires Partition(g, h)
    ensures Partition(Resync(g, s), Remember(h, Snapshot(s)))
  {
    var g', h' := Resync(g, s), Remember(h, Snapshot(s));
    ErasedSize(g.missing, s);
    forall x: nat ensures x in g'.missing <==> Absent(h', x) {
      assert x in g'.missing <==> x in g.missing && x > s;
      assert h.started ==> (x in h'.covered <==> x in h.covered || h.first <= x < s + 1);
    }
  }

  function RunEvents(g: Gap, es: seq<Event>): Gap
    decreases |es|
  {
    if es == [] then g else RunEvents(After(g, es[0]), es[1..])
  }

  function RunHistory(h: History, es: seq<Event>): History
    decreases |es|
  {
    if es == [] then h else RunHistory(Remember(h, es[0]), es[1..])
  }

  /** The partition holds after every run of primary packets, retransmissions and snapshots. */
  lemma {:induction false} EveryRunIsPartitioned(g: Gap, h: History, es: seq<Event>)
    requires Partition(g, h)
    ensures Partition(RunEvents(g, es), RunHistory(h, es))
    decreases |es|
  {
    if es != [] {
      EventKeepsPartition(g, h, es[0]);
      EveryRunIsPartitioned(After(g, es[0]), Remember(h, es[0]), es[1..]);
    }
  }

  /** In particular after every run from the start, where a retransmission is answered by the history alone. */
  lemma PartitionFromStart(es: seq<Event>, s: nat)
    ensures var g, h := RunEvents(FRESH, es), RunHistory(NO_HISTORY, es);
            Partition(g, h) && (Retransmit(g, s).1 <==> Absent(h, s))
  {
    EveryRunIsPartitioned(FRESH, NO_HISTORY, es);
    RetransmitAnswers(RunEvents(FRESH, es), RunHistory(NO_HISTORY, es), s);
  }
}
