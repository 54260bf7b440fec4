/**
 The compact duplicate filters of `multicast/gap_recovery.hpp` against remembering everything:
 `ABLineArbitrator` (a gap summary) against `DualFeedReconciler` (the full set), and `DedupWindow`
 (a pruned set) against an unpruned one.
 */
module FeedDedup {
  import opened Numbers
  import opened Ordered
  import opened GapRecovery
  import opened FeedOrder

  /** One packet and whether line A carried it. */
  datatype Packet = Packet(number: nat, lineA: bool)

  // ---------------------------------------------------------------- ABLineArbitrator

  datatype Arb = Arb(rec: Gap, aFirst: nat, bFirst: nat, dups: nat)

  const FRESH_ARB := Arb(FRESH, 0, 0, 0)

  predicate ArbForwards(a: Arb, s: nat) {
    !a.rec.initialized || s >= a.rec.expected || s in a.rec.missing
  }

  function Arbitrate(a: Arb, p: Packet): Arb {
    if !ArbForwards(a, p.number) then a.(dups := a.dups + 1)
    else if p.lineA then a.(rec := Observe(a.rec, p.number), aFirst := a.aFirst + 1)
    else a.(rec := Observe(a.rec, p.number), bFirst := a.bFirst + 1)
  }

  class ABLineArbitrator {
    const rec: Recovery
    var aFirst: nat
    var bFirst: nat
    var dups: nat

    ghost function View(): Arb
      reads this, rec
    {
      Arb(rec.View(), aFirst, bFirst, dups)
    }

    constructor ()
      ensures View() == FRESH_ARB && fresh(rec)
    {
      rec := new Recovery();
      aFirst, bFirst, dups := 0, 0, 0;
    }

    method OnPacket(p: Packet) returns (forwarded: bool)
      modifies this, rec
      ensures forwarded == ArbForwards(old(View()), p.number)
      ensures View() == Arbitrate(old(View()), p)
    {
      var isNew := !rec.initialized || p.number >= rec.expected || p.number in rec.missing;
      if !isNew {
        dups := dups + 1;
        return false;
      }
      rec.ObserveSeq(p.number);
      if p.lineA { aFirst := aFirst + 1; } else { bFirst := bFirst + 1; }
      return true;
    }
  }

  // ---------------------------------------------------------------- DualFeedReconciler

  datatype Recon = Recon(seen: set<nat>, aWins: nat, bWins: nat, duplicates: nat)

  const FRESH_RECON := Recon({}, 0, 0, 0)

  function Reconcile(r: Recon, p: Packet): Recon {
    if p.number in r.seen then r.(duplicates := r.duplicates + 1)
    else if p.lineA then r.(seen := r.seen + {p.number}, aWins := r.aWins + 1)
    else r.(seen := r.seen + {p.number}, bWins := r.bWins + 1)
  }

  class DualFeedReconciler {
    var seen: set<nat>
    var aWins: nat
    var bWins: nat
    var duplicates: nat

    ghost function View(): Recon
      reads this
    {
      Recon(seen, aWins, bWins, duplicates)
    }

    constructor ()
      ensures View() == FRESH_RECON
    {
      seen, aWins, bWins, duplicates := {}, 0, 0, 0;
    }

    method OnPacket(p: Packet) returns (forwarded: bool)
      modifies this
      ensures forwarded == (p.number !in old(seen))
      ensures View() == Reconcile(old(View()), p)
    {
      if p.number in seen {
        duplicates := duplicates + 1;
        return false;
      }
      seen := seen + {p.number};
      if p.lineA { aWins := aWins + 1; } else { bWins := bWins + 1; }
      return true;
    }
  }

  // ---------------------------------------------------------------- the two agree

  /** The forward/drop choices along a stream. */
  function ArbVerdicts(a: Arb, stream: seq<Packet>): (v: seq<bool>)
    ensures |v| == |stream|
    decreases |stream|
  {
    if stream == [] then []
    else [ArbForwards(a, stream[0].number)] + ArbVerdicts(Arbitrate(a, stream[0]), stream[1..])
  }

  function ReconVerdicts(r: Recon, stream: seq<Packet>): (v: seq<bool>)
    ensures |v| == |stream|
    decreases |stream|
  {
    if stream == [] then []
    else [stream[0].number !in r.seen] + ReconVerdicts(Reconcile(r, stream[0]), stream[1..])
  }

  function RunArb(a: Arb, stream: seq<Packet>): Arb
    decreases |stream|
  {
    if stream == [] then a else RunArb(Arbitrate(a, stream[0]), stream[1..])
  }

  function RunRecon(r: Recon, stream: seq<Packet>): Recon
    decreases |stream|
  {
    if stream == [] then r else RunRecon(Reconcile(r, stream[0]), stream[1..])
  }

  predicate NeverBelow(stream: seq<Packet>, f: nat) {
    forall i | 0 <= i < |stream| :: stream[i].number >= f
  }

  ghost predicate SameKnowledge(a: Arb, r: Recon, f: nat) {
    && GapInv(a.rec, f, r.seen) && (forall x | x in r.seen :: x >= f)
    && a.aFirst == r.aWins && a.bFirst == r.bWins && a.dups == r.duplicates
  }

  /** At or above the first sequence both decide alike and stay in step. */
  lemma PacketAgrees(a: Arb, r: Recon, f: nat, p: Packet)
    requires SameKnowledge(a, r, f) && p.number >= f
    ensures ArbForwards(a, p.number) <==> p.number !in r.seen
    ensures SameKnowledge(Arbitrate(a, p), Reconcile(r, p), f)
  {
    if p.number !in r.seen {
      ObserveKeeps(a.rec, f, r.seen, p.number);
    }
  }

  lemma {:induction false} StreamAgrees(a: Arb, r: Recon, f: nat, stream: seq<Packet>)
    requires SameKnowledge(a, r, f)
    ensures ArbVerdicts(a, stream) == ReconVerdicts(r, stream) <==> NeverBelow(stream, f)
    ensures NeverBelow(stream, f) ==> SameKnowledge(RunArb(a, stream), RunRecon(r, stream), f)
    decreases |stream|
  {
    if stream != [] {
      var p, rest := stream[0], stream[1..];
      assert stream == [p] + rest;
      var va, vr := ArbVerdicts(a, stream), ReconVerdicts(r, stream);
      if p.number < f {
        assert va[0] != vr[0];
      } else {
        PacketAgrees(a, r, f, p);
        StreamAgrees(Arbitrate(a, p), Reconcile(r, p), f, rest);
        assert va[1..] == ArbVerdicts(Arbitrate(a, p), rest) && vr[1..] == ReconVerdicts(Reconcile(r, p), rest);
        assert va == [va[0]] + va[1..] && vr == [vr[0]] + vr[1..];
        assert NeverBelow(stream, f) <==> NeverBelow(rest, f);
      }
    }
  }

  /**
   From fresh, the two lines' filters make the same choice on every packet exactly when no packet
   lies below the first one; then their line statistics agree as well.
   */
  lemma ArbitratorIsReconciler(stream: seq<Packet>)
    requires stream != []
    ensures ArbVerdicts(FRESH_ARB, stream) == ReconVerdicts(FRESH_RECON, stream)
            <==> NeverBelow(stream, stream[0].number)
    ensures NeverBelow(stream, stream[0].number) ==>
              var a, r := RunArb(FRESH_ARB, stream), RunRecon(FRESH_RECON, stream);
              a.aFirst == r.aWins && a.bFirst == r.bWins && a.dups == r.duplicates
  {
    var p, rest := stream[0], stream[1..];
    var a, r := Arbitrate(FRESH_ARB, p), Reconcile(FRESH_RECON, p);
    assert stream == [p] + rest;
    StreamAgrees(a, r, p.number, rest);
    var va, vr := ArbVerdicts(FRESH_ARB, stream), ReconVerdicts(FRESH_RECON, stream);
    assert va == [true] + ArbVerdicts(a, rest) && vr == [true] + ReconVerdicts(r, rest);
    assert va[1..] == ArbVerdicts(a, rest) && vr[1..] == ReconVerdicts(r, rest);
    assert NeverBelow(stream, p.number) <==> NeverBelow(rest, p.number);
  }

  /** A packet from before the first one: the arbitrator drops it, the reconciler forwards it. */
  lemma LateStartDisagrees()
    ensures var stream := [Packet(5, true), Packet(3, false)];
            ArbVerdicts(FRESH_ARB, stream) == [true, false] && ReconVerdicts(FRESH_RECON, stream) == [true, true]
  {
    var stream := [Packet(5, true), Packet(3, false)];
    var rest := [Packet(3, false)];
    assert stream[1..] == rest && rest[1..] == [];
    assert ArbVerdicts(Arbitrate(FRESH_ARB, stream[0]), rest) == [false];
    assert ReconVerdicts(Reconcile(FRESH_RECON, stream[0]), rest) == [true];
  }

  // ---------------------------------------------------------------- what the lines' statistics count

  /** An earlier packet carried the same sequence. */
  predicate SeenBefore(earlier: seq<Packet>, s: nat) {
    exists i | 0 <= i < |earlier| :: earlier[i].number == s
  }

  /** How many sequences a line brought first. */
  function FirstCopies(stream: seq<Packet>, lineA: bool): nat {
    if stream == [] then 0
    else
      var front, last := stream[..|stream| - 1], stream[|stream| - 1];
      FirstCopies(front, lineA) + if last.lineA == lineA && !SeenBefore(front, last.number) then 1 else 0
  }

  ghost predicate CountsCopies(r: Recon, stream: seq<Packet>) {
    && (forall s :: s in r.seen <==> SeenBefore(stream, s))
    && r.aWins == FirstCopies(stream, true) && r.bWins == FirstCopies(stream, false)
    && r.aWins + r.bWins + r.duplicates == |stream|
  }

  lemma {:induction false} RunReconLast(r: Recon, front: seq<Packet>, p: Packet)
    ensures RunRecon(r, front + [p]) == Reconcile(RunRecon(r, front), p)
    decreases |front|
  {
    if front == [] {
      assert front + [p] == [p] && [p][1..] == [];
    } else {
      RunReconLast(Reconcile(r, front[0]), front[1..], p);
      assert (front + [p])[1..] == front[1..] + [p];
    }
  }

  lemma SeenBeforeGrows(front: seq<Packet>, p: Packet, s: nat)
    ensures SeenBefore(front + [p], s) <==> SeenBefore(front, s) || s == p.number
  {
    assert (front + [p])[|front|] == p;
    if SeenBefore(front, s) {
      var i :| 0 <= i < |front| && front[i].number == s;
      assert (front + [p])[i].number == s;
    }
  }

  lemma CountOne(r: Recon, front: seq<Packet>, p: Packet)
    requires CountsCopies(r, front)
    ensures CountsCopies(Reconcile(r, p), front + [p])
  {
    assert (front + [p])[..|front|] == front;
    forall s ensures s in Reconcile(r, p).seen <==> SeenBefore(front + [p], s) {
      SeenBeforeGrows(front, p, s);
    }
  }

  /** On every stream: a line wins exactly the sequences it brought first, and every other packet is a duplicate. */
  lemma {:induction false} WinsAreFirstCopies(stream: seq<Packet>)
    ensures CountsCopies(RunRecon(FRESH_RECON, stream), stream)
    decreases |stream|
  {
    if stream != [] {
      var front, p := stream[..|stream| - 1], stream[|stream| - 1];
      assert stream == front + [p];
      WinsAreFirstCopies(front);
      RunReconLast(FRESH_RECON, front, p);
      CountOne(RunRecon(FRESH_RECON, front), front, p);
    }
  }

  /** The reconciler forwards exactly the first copy of each sequence. */
  lemma {:induction false} ForwardsFirstCopies(r: Recon, stream: seq<Packet>, i: nat)
    requires i < |stream|
    ensures ReconVerdicts(r, stream)[i] <==> stream[i].number !in r.seen && !SeenBefore(stream[..i], stream[i].number)
    decreases |stream|
  {
    if i > 0 {
      ForwardsFirstCopies(Reconcile(r, stream[0]), stream[1..], i - 1);
      assert stream[..i] == [stream[0]] + stream[1..][..i - 1];
      SeenBeforeFront(stream[0], stream[1..][..i - 1], stream[i].number);
    }
  }

  lemma SeenBeforeFront(p: Packet, rest: seq<Packet>, s: nat)
    ensures SeenBefore([p] + rest, s) <==> p.number == s || SeenBefore(rest, s)
  {
    assert ([p] + rest)[0] == p;
    if SeenBefore(rest, s) {
      var i :| 0 <= i < |rest| && rest[i].number == s;
      assert ([p] + rest)[i + 1].number == s;
    }
  }

  // ---------------------------------------------------------------- DedupWindow

  datatype Dedup = Dedup(window: nat, high: nat, init: bool, seen: set<nat>, duplicates: nat, accepted: nat)

  /** A zero window is treated as one. */
  function FreshDedup(window: nat): Dedup {
    Dedup(if window == 0 then 1 else window, 0, false, {}, 0, 0)
  }

  predicate Accepts(d: Dedup, s: nat) {
    !d.init || (s + d.window > d.high && s !in d.seen)
  }

  function InWindow(seen: set<nat>, window: nat, high: nat): set<nat> {
    set x | x in seen && x + window > high
  }

  function Accept(d: Dedup, s: nat): Dedup {
    if !Accepts(d, s) then d.(duplicates := d.duplicates + 1)
    else if !d.init then d.(init := true, high := s, seen := d.seen + {s}, accepted := d.accepted + 1)
    else
      var high := Max(d.high, s);
      d.(high := high, seen := InWindow(d.seen + {s}, d.window, high), accepted := d.accepted + 1)
  }

  class DedupWindow {
    const window: nat
    var high: nat
    var init: bool
    var seen: set<nat>
    var duplicates: nat
    var accepted: nat

    ghost function View(): Dedup
      reads this
    {
      Dedup(window, high, init, seen, duplicates, accepted)
    }

    constructor (w: nat)
      ensures View() == FreshDedup(w)
    {
      window := if w == 0 then 1 else w;
      high, init, seen, duplicates, accepted := 0, false, {}, 0, 0;
    }

    method AcceptSeq(s: nat) returns (isNew: bool)
      modifies this
      ensures isNew == Accepts(old(View()), s)
      ensures View() == Accept(old(View()), s)
    {
      if !init {
        init, high, seen, accepted := true, s, seen + {s}, accepted + 1;
        return true;
      }
      if s + window <= high || s in seen {
        duplicates := duplicates + 1;
        return false;
      }
      seen := seen + {s};
      if s > high { high := s; }
      seen := Prune(seen, window, high);
      accepted := accepted + 1;
      return true;
    }
  }

  /** Forget from the front what fell out of the window. */
  method Prune(from: set<nat>, window: nat, high: nat) returns (seen: set<nat>)
    ensures seen == InWindow(from, window, high)
  {
    seen := from;
    while seen != {} && Least(seen) + window <= high
      invariant seen <= from && forall x | x in from && x !in seen :: x + window <= high
      decreases |seen|
    {
      var x: nat := Least(seen);
      seen := seen - {x};
    }
    assert forall x | x in seen :: Least(seen) <= x;
  }

  // ---------------------------------------------------------------- against remembering everything

  /** The unpruned reference: every number ever accepted and the greatest of them. */
  datatype Ledger = Ledger(all: set<nat>, high: nat)

  predicate LedgerAccepts(l: Ledger, window: nat, s: nat) {
    l.all == {} || (s + window > l.high && s !in l.all)
  }

  function Enter(l: Ledger, window: nat, s: nat): Ledger {
    if LedgerAccepts(l, window, s) then Ledger(l.all + {s}, Max(l.high, s)) else l
  }

  ghost predicate IsHigh(l: Ledger) {
    if l.all == {} then l.high == 0 else l.high in l.all && forall x | x in l.all :: x <= l.high
  }

  ghost predicate Summarises(d: Dedup, l: Ledger) {
    && d.window > 0 && IsHigh(l) && d.high == l.high
    && (d.init <==> l.all != {})
    && d.seen == InWindow(l.all, d.window, l.high)
    && d.accepted == |l.all|
  }

  lemma AcceptAgrees(d: Dedup, l: Ledger, s: nat)
    requires Summarises(d, l)
    ensures Accepts(d, s) <==> LedgerAccepts(l, d.window, s)
    ensures Summarises(Accept(d, s), Enter(l, d.window, s))
  {
    if Accepts(d, s) {
      assert s !in l.all;
      assert |l.all + {s}| == |l.all| + 1;
      var high := Max(l.high, s);
      assert InWindow(l.all + {s}, d.window, high) == InWindow(d.seen + {s}, d.window, high);
    }
  }

  /** A summary never stores more than `window` numbers. */
  lemma StoresAtMostWindow(d: Dedup, l: Ledger)
    requires Summarises(d, l)
    ensures |d.seen| <= d.window
  {
    var lo := d.high - d.window + 1;
    SubsetSize(d.seen, Interval(lo, d.high + 1));
    IntervalSize(lo, d.high + 1);
  }

  function DedupVerdicts(d: Dedup, stream: seq<nat>): seq<bool>
    decreases |stream|
  {
    if stream == [] then [] else [Accepts(d, stream[0])] + DedupVerdicts(Accept(d, stream[0]), stream[1..])
  }

  function LedgerVerdicts(l: Ledger, window: nat, stream: seq<nat>): seq<bool>
    decreases |stream|
  {
    if stream == [] then []
    else [LedgerAccepts(l, window, stream[0])] + LedgerVerdicts(Enter(l, window, stream[0]), window, stream[1..])
  }

  function RunDedup(d: Dedup, stream: seq<nat>): Dedup
    decreases |stream|
  {
    if stream == [] then d else RunDedup(Accept(d, stream[0]), stream[1..])
  }

  function RunLedger(l: Ledger, window: nat, stream: seq<nat>): Ledger
    decreases |stream|
  {
    if stream == [] then l else RunLedger(Enter(l, window, stream[0]), window, stream[1..])
  }

  lemma {:induction false} RunSummarises(d: Dedup, l: Ledger, stream: seq<nat>)
    requires Summarises(d, l)
    ensures DedupVerdicts(d, stream) == LedgerVerdicts(l, d.window, stream)
    ensures Summarises(RunDedup(d, stream), RunLedger(l, d.window, stream))
    decreases |stream|
  {
    if stream != [] {
      AcceptAgrees(d, l, stream[0]);
      RunSummarises(Accept(d, stream[0]), Enter(l, d.window, stream[0]), stream[1..]);
    }
  }

  /**
   On every stream the pruned window accepts exactly what the full memory accepts (never accepted
   before and within the window), each number at most once, with at most `window` numbers stored.
   */
  lemma WindowIsFullMemory(window: nat, stream: seq<nat>)
    ensures var d := FreshDedup(window);
            var end, full := RunDedup(d, stream), RunLedger(Ledger({}, 0), d.window, stream);
            && DedupVerdicts(d, stream) == LedgerVerdicts(Ledger({}, 0), d.window, stream)
            && |end.seen| <= d.window && end.accepted == |full.all| && end.accepted + end.duplicates == |stream|
            && end.seen == InWindow(full.all, d.window, full.high)
  {
    var d, l := FreshDedup(window), Ledger({}, 0);
    RunSummarises(d, l, stream);
    RunKeepsWindow(d, stream);
    EveryPacketCounts(d, stream);
    StoresAtMostWindow(RunDedup(d, stream), RunLedger(l, d.window, stream));
  }

  lemma {:induction false} EveryPacketCounts(d: Dedup, stream: seq<nat>)
    ensures var r := RunDedup(d, stream); r.accepted + r.duplicates == d.accepted + d.duplicates + |stream|
    decreases |stream|
  {
    if stream != [] {
      EveryPacketCounts(Accept(d, stream[0]), stream[1..]);
    }
  }

  lemma {:induction false} RunKeepsWindow(d: Dedup, stream: seq<nat>)
    ensures RunDedup(d, stream).window == d.window
    decreases |stream|
  {
    if stream != [] {
      RunKeepsWindow(Accept(d, stream[0]), stream[1..]);
    }
  }
}
