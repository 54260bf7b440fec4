/**
 The price-level book as a value: two maps from price to resting shares and a trade counter. This
 is the algorithm of `ref::MapOrderBook` in `orderbook/orderbook_flat.cpp`, and the specification
 that the flat book and the map book are both proved against.

 Both sides are keyed by rank, lowest rank best: the rank of an ask is its price, the rank of a
 bid is the negated price, which is the order of a `std::map` with `std::greater`.
 */
module BookSpec {
  import opened Numbers
  import opened Ordered

  /** Rank to resting shares; a level that reaches zero is erased. */
  type Levels = map<int, int>

  datatype Book = Book(bids: Levels, asks: Levels, trades: nat)

  predicate Positive(m: Levels) {
    forall p | p in m :: m[p] > 0
  }

  function Qty(m: Levels, p: int): int {
    if p in m then m[p] else 0
  }

  // ---------------------------------------------------------------- best levels

  /** `begin()`: the best level of a side. */
  function Lowest(m: Levels): (p: int)
    requires m != map[]
    ensures p in m && forall x | x in m :: p <= x
  {
    assert |m.Keys| == |m|;
    Least(m.Keys)
  }

  // ---------------------------------------------------------------- adding and matching

  function Add(m: Levels, p: int, q: int): Levels {
    m[p := Qty(m, p) + q]
  }

  /** Take `q` of the shares at `p`, erasing the level when nothing is left. */
  function Take(m: Levels, p: int, q: int): Levels
    requires p in m
  {
    if m[p] == q then m - {p} else m[p := m[p] - q]
  }

  lemma TakeSize(m: Levels, p: int, q: int)
    requires p in m
    ensures |Take(m, p, q)| == if m[p] == q then |m| - 1 else |m|
  {
    assert (m - {p}).Keys == m.Keys - {p};
    assert m[p := m[p] - q].Keys == m.Keys;
  }

  predicate Crossed(b: Book) {
    b.bids != map[] && b.asks != map[] && -Lowest(b.bids) >= Lowest(b.asks)
  }

  /** One trade between the best bid and the best ask. */
  function MatchStep(b: Book): Book
    requires Crossed(b)
  {
    var bb, ba := Lowest(b.bids), Lowest(b.asks);
    var fill := Min(b.bids[bb], b.asks[ba]);
    Book(Take(b.bids, bb, fill), Take(b.asks, ba, fill), b.trades + 1)
  }

  /** Every trade empties a level. */
  lemma MatchStepShrinks(b: Book)
    requires Crossed(b)
    ensures var r := MatchStep(b);
            |r.bids| + |r.asks| < |b.bids| + |b.asks| && r.trades == b.trades + 1
  {
    var bb, ba := Lowest(b.bids), Lowest(b.asks);
    TakeSize(b.bids, bb, Min(b.bids[bb], b.asks[ba]));
    TakeSize(b.asks, ba, Min(b.bids[bb], b.asks[ba]));
  }

  function Match(b: Book): Book
    decreases |b.bids| + |b.asks|
  {
    if Crossed(b) then
      MatchStepShrinks(b);
      Match(MatchStep(b))
    else b
  }

  lemma {:induction false} MatchUncrosses(b: Book)
    ensures !Crossed(Match(b))
    decreases |b.bids| + |b.asks|
  {
    if Crossed(b) {
      MatchStepShrinks(b);
      MatchUncrosses(MatchStep(b));
    }
  }

  function AddBuy(b: Book, p: int, q: int): Book {
    Match(b.(bids := Add(b.bids, -p, q)))
  }

  function AddSell(b: Book, p: int, q: int): Book {
    Match(b.(asks := Add(b.asks, p, q)))
  }

  predicate GoodBook(b: Book) {
    Positive(b.bids) && Positive(b.asks)
  }

  lemma {:induction false} MatchKeepsGood(b: Book)
    requires GoodBook(b)
    ensures GoodBook(Match(b))
    decreases |b.bids| + |b.asks|
  {
    if Crossed(b) {
      MatchStepShrinks(b);
      MatchKeepsGood(MatchStep(b));
    }
  }

  // ---------------------------------------------------------------- the amortised bound

  /** Each trade is paid for by a level that it empties. */
  function Potential(b: Book): nat {
    b.trades + |b.bids| + |b.asks|
  }

  lemma {:induction false} MatchSpendsPotential(b: Book)
    ensures Potential(Match(b)) <= Potential(b)
    decreases |b.bids| + |b.asks|
  {
    if Crossed(b) {
      MatchStepShrinks(b);
      MatchSpendsPotential(MatchStep(b));
    }
  }

  lemma AddGrowsByOne(m: Levels, p: int, q: int)
    ensures |Add(m, p, q)| <= |m| + 1
  {
    assert Add(m, p, q).Keys == m.Keys + {p};
  }

  lemma AddRaisesPotentialByOne(b: Book, p: int, q: int)
    ensures Potential(AddBuy(b, p, q)) <= Potential(b) + 1
    ensures Potential(AddSell(b, p, q)) <= Potential(b) + 1
  {
    MatchSpendsPotential(b.(bids := Add(b.bids, -p, q)));
    MatchSpendsPotential(b.(asks := Add(b.asks, p, q)));
    AddGrowsByOne(b.bids, -p, q);
    AddGrowsByOne(b.asks, p, q);
  }

  // ---------------------------------------------------------------- an add is a price-priority sweep

  /** `l` is the best level of the side. */
  predicate IsBest(m: Levels, l: int) {
    l in m && forall x | x in m :: l <= x
  }

  lemma LowestIs(m: Levels, l: int)
    requires IsBest(m, l)
    ensures m != map[] && Lowest(m) == l
  {
  }

  lemma LowestExists(m: Levels) returns (l: int)
    requires m != map[]
    ensures IsBest(m, l)
  {
    l := Lowest(m);
  }

  /** The levels behind the best one. */
  function Behind(m: Levels, l: int): Levels {
    m - {l}
  }

  lemma BehindShrinks(m: Levels, l: int)
    requires l in m
    ensures |Behind(m, l)| < |m|
  {
    assert Behind(m, l).Keys == m.Keys - {l};
  }

  /** Shares resting at ranks better than `x`. */
  function SharesBelow(m: Levels, x: int): int
    decreases |m|
  {
    if m == map[] || Lowest(m) >= x then 0
    else
      BehindShrinks(m, Lowest(m));
      m[Lowest(m)] + SharesBelow(Behind(m, Lowest(m)), x)
  }

  lemma SharesStep(m: Levels, l: int, x: int)
    requires IsBest(m, l)
    ensures SharesBelow(m, x) == if l >= x then 0 else m[l] + SharesBelow(Behind(m, l), x)
  {
    LowestIs(m, l);
  }

  function Clamp(x: int, lo: int, hi: int): int {
    if x < lo then lo else if x > hi then hi else x
  }

  /** Take `q` shares from the asks at or below `limit`, lowest price first. */
  function Sweep(m: Levels, limit: int, q: int): Levels
    decreases |m|
  {
    if q <= 0 || m == map[] || Lowest(m) > limit then m
    else if m[Lowest(m)] > q then m[Lowest(m) := m[Lowest(m)] - q]
    else
      BehindShrinks(m, Lowest(m));
      Sweep(Behind(m, Lowest(m)), limit, q - m[Lowest(m)])
  }

  lemma SweepStep(m: Levels, l: int, limit: int, q: int)
    requires IsBest(m, l) && q > 0 && l <= limit
    ensures Sweep(m, limit, q) == if m[l] > q then m[l := m[l] - q] else Sweep(Behind(m, l), limit, q - m[l])
  {
    LowestIs(m, l);
  }

  lemma SweepNone(m: Levels, limit: int, q: int)
    requires q <= 0 || forall x | x in m :: x > limit
    ensures Sweep(m, limit, q) == m
  {
    if q > 0 && m != map[] {
      var l := LowestExists(m);
      LowestIs(m, l);
    }
  }

  lemma {:induction false} SharesNonNegative(m: Levels, x: int)
    requires Positive(m)
    ensures SharesBelow(m, x) >= 0
    ensures (forall y | y in m :: y >= x) ==> SharesBelow(m, x) == 0
    decreases |m|
  {
    if m != map[] {
      var l := LowestExists(m);
      BehindShrinks(m, l);
      SharesStep(m, l, x);
      SharesNonNegative(Behind(m, l), x);
    }
  }

  /** What a level holds after a sweep, given the shares at better levels. */
  function SweptQty(here: int, better: int, q: int): int {
    here - Clamp(q - better, 0, here)
  }

  /** Consuming the best level first does not change what another level ends with. */
  lemma SweptBehind(m: Levels, l: int, q: int, x: int, better: int, behind: int)
    requires Positive(m) && IsBest(m, l) && m[l] <= q && behind >= 0 && (x <= l ==> behind == 0)
    requires better == if l >= x then 0 else m[l] + behind
    ensures SweptQty(Qty(Behind(m, l), x), behind, q - m[l]) == SweptQty(Qty(m, x), better, q)
  {
    assert x != l ==> Qty(Behind(m, l), x) == Qty(m, x);
    assert x < l ==> x !in m;
  }

  lemma SweptShort(m: Levels, l: int, q: int, x: int, better: int, behind: int)
    requires Positive(m) && IsBest(m, l) && 0 < q < m[l] && behind >= 0
    requires better == if l >= x then 0 else m[l] + behind
    ensures Qty(m[l := m[l] - q], x) == SweptQty(Qty(m, x), better, q)
  {
    assert x < l ==> x !in m;
  }

  lemma BehindFacts(m: Levels, l: int, x: int)
    requires Positive(m) && IsBest(m, l)
    ensures Positive(Behind(m, l)) && |Behind(m, l)| < |m|
    ensures SharesBelow(Behind(m, l), x) >= 0 && (x <= l ==> SharesBelow(Behind(m, l), x) == 0)
  {
    BehindShrinks(m, l);
    SharesNonNegative(Behind(m, l), x);
  }

  lemma SweptNothing(m: Levels, limit: int, q: int, x: int)
    requires Positive(m) && q >= 0 && (q == 0 || forall y | y in m :: y > limit)
    ensures Sweep(m, limit, q) == m
    ensures Qty(m, x) == if x > limit then Qty(m, x) else SweptQty(Qty(m, x), SharesBelow(m, x), q)
  {
    SweepNone(m, limit, q);
    SharesNonNegative(m, x);
  }

  /** The closed form of the sweep: a level loses what is left of `q` after the better levels. */
  lemma {:induction false} SweepAt(m: Levels, limit: int, q: int, x: int)
    requires Positive(m) && q >= 0
    ensures Qty(Sweep(m, limit, q), x) == if x > limit then Qty(m, x) else SweptQty(Qty(m, x), SharesBelow(m, x), q)
    decreases |m|
  {
    if q == 0 || forall y | y in m :: y > limit {
      SweptNothing(m, limit, q, x);
    } else {
      var l := BestAsk(m, limit);
      var behind := SharesBelow(Behind(m, l), x);
      SweepStep(m, l, limit, q);
      SharesStep(m, l, x);
      BehindFacts(m, l, x);
      if m[l] <= q {
        SweepAt(Behind(m, l), limit, q - m[l], x);
        SweptBehind(m, l, q, x, SharesBelow(m, x), behind);
      } else {
        SweptShort(m, l, q, x, SharesBelow(m, x), behind);
      }
    }
  }

  /** What is left at or below the limit. */
  lemma {:induction false} SweepTotal(m: Levels, limit: int, q: int, r: Levels)
    requires Positive(m) && q >= 0 && r == Sweep(m, limit, q)
    ensures SharesBelow(r, limit + 1) == SharesBelow(m, limit + 1) - Min(q, SharesBelow(m, limit + 1))
    decreases |m|
  {
    if q == 0 || forall y | y in m :: y > limit {
      SweepNone(m, limit, q);
      SharesNonNegative(m, limit + 1);
    } else {
      var l := BestAsk(m, limit);
      TotalStep(m, l, limit, q, r);
      if m[l] <= q {
        SweepTotal(Behind(m, l), limit, q - m[l], r);
      }
    }
  }

  lemma TotalStep(m: Levels, l: int, limit: int, q: int, r: Levels)
    requires Positive(m) && q > 0 && r == Sweep(m, limit, q) && IsBest(m, l) && l <= limit
    ensures Positive(Behind(m, l)) && |Behind(m, l)| < |m| && SharesBelow(Behind(m, l), limit + 1) >= 0
    ensures SharesBelow(m, limit + 1) == m[l] + SharesBelow(Behind(m, l), limit + 1)
    ensures m[l] <= q ==> r == Sweep(Behind(m, l), limit, q - m[l])
    ensures m[l] > q ==> SharesBelow(r, limit + 1) == SharesBelow(m, limit + 1) - q
  {
    SweepStep(m, l, limit, q);
    SharesStep(m, l, limit + 1);
    BehindFacts(m, l, limit + 1);
    ShrunkTotal(m, l, q, limit + 1);
  }

  lemma ShrunkTotal(m: Levels, l: int, q: int, x: int)
    requires IsBest(m, l) && l < x
    ensures SharesBelow(m[l := m[l] - q], x) == SharesBelow(m, x) - q
  {
    var r := m[l := m[l] - q];
    assert IsBest(r, l);
    SharesStep(m, l, x);
    SharesStep(r, l, x);
    assert r - {l} == m - {l};
  }

  /** What a crossing buy of `q` at `p` trades. */
  function Traded(asks: Levels, p: int, q: int): int {
    Min(q, SharesBelow(asks, p + 1))
  }

  /** The levels a buy of `q` at `p` trades with: those it can pay for before its shares are gone. */
  function Touched(asks: Levels, p: int, q: int): set<int> {
    set x | x in asks && x <= p && SharesBelow(asks, x) < q
  }

  lemma TouchedNone(asks: Levels, p: int, q: int)
    requires Clear(asks, p)
    ensures Touched(asks, p, q) == {}
  {
  }

  lemma TouchedFills(asks: Levels, l: int, p: int, q: int)
    requires Positive(asks) && IsBest(asks, l) && l <= p && 0 < q <= asks[l]
    ensures Touched(asks, p, q) == {l}
  {
    forall x | x in asks ensures SharesBelow(asks, x) < q <==> x == l {
      SharesStep(asks, l, x);
      BehindFacts(asks, l, x);
    }
  }

  lemma TouchedConsumes(asks: Levels, l: int, p: int, q: int)
    requires Positive(asks) && IsBest(asks, l) && l <= p && asks[l] < q
    ensures |Touched(asks, p, q)| == 1 + |Touched(Behind(asks, l), p, q - asks[l])|
  {
    var rest := Touched(Behind(asks, l), p, q - asks[l]);
    forall x | x in asks ensures x in Touched(asks, p, q) <==> x == l || x in rest {
      SharesStep(asks, l, x);
    }
    assert Touched(asks, p, q) == {l} + rest;
  }

  /** What is left of the bids when `traded` of the `q` shares at rank `-p` are gone. */
  function Remaining(bids: Levels, p: int, q: int, traded: int): Levels {
    if traded == q then bids else bids[-p := q - traded]
  }

  /** What matching does to an uncrossed book with a new best bid of `q` at price `p`. */
  ghost predicate IsSweep(b: Book, r: Book, p: int, q: int) {
    && r.asks == Sweep(b.asks, p, q) && r.bids == Remaining(b.bids, p, q, Traded(b.asks, p, q))
    && r.trades == b.trades + |Touched(b.asks, p, q)|
  }

  /** Rank `-p` would be the best bid: it is better than every bid. */
  predicate NewBest(bids: Levels, p: int) {
    forall x | x in bids :: -p < x
  }

  /** No ask is at or below `p`. */
  predicate Clear(asks: Levels, p: int) {
    forall x | x in asks :: x > p
  }

  /** No bid is at or above an ask. */
  predicate Apart(b: Book) {
    forall x, y | x in b.bids && y in b.asks :: -x < y
  }

  lemma ApartIffUncrossed(b: Book)
    ensures Apart(b) <==> !Crossed(b)
  {
  }

  function Incoming(b: Book, p: int, q: int): Book {
    b.(bids := b.bids[-p := q])
  }

  lemma MatchUnfolds(b: Book)
    ensures Match(b) == if Crossed(b) then Match(MatchStep(b)) else b
  {
  }

  /** One trade, with the best levels named. */
  lemma MatchStepIs(b: Book, bb: int, ba: int)
    requires IsBest(b.bids, bb) && IsBest(b.asks, ba) && -bb >= ba
    ensures Crossed(b)
    ensures var fill := Min(b.bids[bb], b.asks[ba]);
            MatchStep(b) == Book(Take(b.bids, bb, fill), Take(b.asks, ba, fill), b.trades + 1)
  {
    LowestIs(b.bids, bb);
    LowestIs(b.asks, ba);
  }

  lemma IncomingIsBest(bids: Levels, p: int, q: int)
    requires NewBest(bids, p)
    ensures IsBest(bids[-p := q], -p) && bids[-p := q] - {-p} == bids
  {
  }

  lemma MatchSame(c: Book, next: Book)
    requires Crossed(c) && MatchStep(c) == next
    ensures Match(c) == Match(next)
  {
  }

  /** The incoming order consumes the best ask and goes on with the rest. */
  lemma IncomingConsumes(b: Book, l: int, p: int, q: int, c: Book, next: Book)
    requires NewBest(b.bids, p) && IsBest(b.asks, l) && l <= p && 0 < b.asks[l] < q && c == Incoming(b, p, q)
    requires next == Incoming(Book(b.bids, Behind(b.asks, l), b.trades + 1), p, q - b.asks[l])
    ensures Crossed(c) && MatchStep(c) == next
  {
    IncomingIsBest(b.bids, p, q);
    MatchStepIs(c, -p, l);
    assert b.bids[-p := q][-p := q - b.asks[l]] == b.bids[-p := q - b.asks[l]];
  }

  /** The incoming order is exhausted by the best ask: the book is uncrossed again. */
  lemma IncomingFills(b: Book, l: int, p: int, q: int)
    requires Apart(b) && NewBest(b.bids, p) && IsBest(b.asks, l) && l <= p && 0 < q <= b.asks[l]
    ensures Match(Incoming(b, p, q)) == Book(b.bids, Take(b.asks, l, q), b.trades + 1)
  {
    var c, r := Incoming(b, p, q), Book(b.bids, Take(b.asks, l, q), b.trades + 1);
    IncomingIsBest(b.bids, p, q);
    MatchStepIs(c, -p, l);
    MatchUnfolds(c);
    assert Apart(r);
    ApartIffUncrossed(r);
    MatchUnfolds(r);
  }

  /** The incoming order meets no ask: it rests. */
  lemma IncomingRests(b: Book, p: int, q: int)
    requires Apart(b) && Clear(b.asks, p)
    ensures Match(Incoming(b, p, q)) == Incoming(b, p, q)
  {
    var c := Incoming(b, p, q);
    assert Apart(c);
    ApartIffUncrossed(c);
    MatchUnfolds(c);
  }

  lemma SweepConsumes(asks: Levels, l: int, p: int, q: int)
    requires Positive(asks) && IsBest(asks, l) && l <= p && asks[l] < q
    ensures Sweep(asks, p, q) == Sweep(Behind(asks, l), p, q - asks[l])
    ensures Traded(asks, p, q) == asks[l] + Traded(Behind(asks, l), p, q - asks[l])
  {
    SweepStep(asks, l, p, q);
    SharesStep(asks, l, p + 1);
  }

  lemma SweepFills(asks: Levels, l: int, p: int, q: int)
    requires Positive(asks) && IsBest(asks, l) && l <= p && 0 < q <= asks[l]
    ensures Sweep(asks, p, q) == Take(asks, l, q) && Traded(asks, p, q) == q
  {
    SweepStep(asks, l, p, q);
    SharesStep(asks, l, p + 1);
    BehindShrinks(asks, l);
    SharesNonNegative(Behind(asks, l), p + 1);
    SweepNone(Behind(asks, l), p, 0);
  }

  /** Nothing at or below the limit: nothing is swept. */
  lemma SweepRests(asks: Levels, p: int, q: int)
    requires Positive(asks) && q > 0 && Clear(asks, p)
    ensures Sweep(asks, p, q) == asks && Traded(asks, p, q) == 0
  {
    SweepNone(asks, p, q);
    SharesNonNegative(asks, p + 1);
  }

  lemma BestAsk(asks: Levels, p: int) returns (l: int)
    requires !Clear(asks, p)
    ensures IsBest(asks, l) && l <= p
  {
    var x :| x in asks && x <= p;
    assert asks != map[];
    l := LowestExists(asks);
  }

  lemma RestsIsSweep(b: Book, p: int, q: int, r: Book)
    requires GoodBook(b) && Apart(b) && q > 0 && Clear(b.asks, p) && r == Match(Incoming(b, p, q))
    ensures IsSweep(b, r, p, q)
  {
    IncomingRests(b, p, q);
    SweepRests(b.asks, p, q);
    TouchedNone(b.asks, p, q);
  }

  lemma FillsIsSweep(b: Book, l: int, p: int, q: int, r: Book)
    requires GoodBook(b) && Apart(b) && NewBest(b.bids, p) && IsBest(b.asks, l) && l <= p && 0 < q <= b.asks[l]
    requires r == Match(Incoming(b, p, q))
    ensures IsSweep(b, r, p, q)
  {
    IncomingFills(b, l, p, q);
    SweepFills(b.asks, l, p, q);
    TouchedFills(b.asks, l, p, q);
  }

  lemma ConsumesIsSweep(b: Book, l: int, p: int, q: int, b': Book, r: Book)
    requires Positive(b.asks) && IsBest(b.asks, l) && l <= p && b.asks[l] < q
    requires b' == Book(b.bids, Behind(b.asks, l), b.trades + 1) && IsSweep(b', r, p, q - b.asks[l])
    ensures IsSweep(b, r, p, q)
  {
    SweepConsumes(b.asks, l, p, q);
    TouchedConsumes(b.asks, l, p, q);
  }

  lemma ConsumedStaysGood(b: Book, l: int, b': Book)
    requires GoodBook(b) && Apart(b) && l in b.asks && b' == Book(b.bids, Behind(b.asks, l), b.trades + 1)
    ensures GoodBook(b') && Apart(b') && |b'.asks| < |b.asks|
  {
    BehindShrinks(b.asks, l);
  }

  /** While only the incoming level at `p` crosses, matching is the sweep of the asks. */
  lemma {:induction false} MatchIsSweep(b: Book, p: int, q: int, r: Book)
    requires GoodBook(b) && Apart(b) && q > 0 && NewBest(b.bids, p) && r == Match(Incoming(b, p, q))
    ensures IsSweep(b, r, p, q)
    decreases |b.asks|
  {
    if Clear(b.asks, p) {
      RestsIsSweep(b, p, q, r);
    } else {
      var l := BestAsk(b.asks, p);
      if b.asks[l] < q {
        var b' := Book(b.bids, Behind(b.asks, l), b.trades + 1);
        ConsumedStaysGood(b, l, b');
        IncomingConsumes(b, l, p, q, Incoming(b, p, q), Incoming(b', p, q - b.asks[l]));
        MatchSame(Incoming(b, p, q), Incoming(b', p, q - b.asks[l]));
        MatchIsSweep(b', p, q - b.asks[l], r);
        ConsumesIsSweep(b, l, p, q, b', r);
      } else {
        FillsIsSweep(b, l, p, q, r);
      }
    }
  }

  /** An add on the bid side, in closed form: what every level holds afterwards, and one trade for each ask it reached. */
  ghost predicate IsBuySweep(b: Book, r: Book, p: int, q: int) {
    var traded := Traded(b.asks, p, q);
    && 0 <= traded <= q
    && r.trades == b.trades + |Touched(b.asks, p, q)|
    && (forall x :: Qty(r.bids, x) == Qty(b.bids, x) + if x == -p then q - traded else 0)
    && (forall x :: Qty(r.asks, x) == if x > p then Qty(b.asks, x) else SweptQty(Qty(b.asks, x), SharesBelow(b.asks, x), q))
    && SharesBelow(r.asks, p + 1) == SharesBelow(b.asks, p + 1) - traded
  }

  lemma SweepClosedForm(b: Book, r: Book, p: int, q: int, traded: int)
    requires Positive(b.asks) && q > 0 && traded == Traded(b.asks, p, q)
    requires r.asks == Sweep(b.asks, p, q) && r.bids == (if traded == q then b.bids else Add(b.bids, -p, q - traded))
    requires r.trades == b.trades + |Touched(b.asks, p, q)|
    ensures IsBuySweep(b, r, p, q)
  {
    SharesNonNegative(b.asks, p + 1);
    SweepTotal(b.asks, p, q, r.asks);
    forall x
      ensures Qty(r.asks, x) == if x > p then Qty(b.asks, x) else SweptQty(Qty(b.asks, x), SharesBelow(b.asks, x), q)
    {
      SweepAt(b.asks, p, q, x);
    }
  }

  /** A buy that is not the new best bid meets no ask. */
  lemma RestsWithoutTrade(b: Book, p: int, q: int, r: Book)
    requires GoodBook(b) && Apart(b) && q > 0 && !NewBest(b.bids, p) && r == AddBuy(b, p, q)
    ensures Clear(b.asks, p) && r == b.(bids := Add(b.bids, -p, q))
  {
    var x :| x in b.bids && -p >= x;
    var c := b.(bids := Add(b.bids, -p, q));
    assert Clear(b.asks, p);
    assert Apart(c);
    ApartIffUncrossed(c);
    MatchUnfolds(c);
  }

  lemma BuySweeps(b: Book, p: int, q: int, r: Book, traded: int)
    requires GoodBook(b) && Apart(b) && q > 0 && r == AddBuy(b, p, q) && traded == Traded(b.asks, p, q)
    ensures r.asks == Sweep(b.asks, p, q) && r.bids == if traded == q then b.bids else Add(b.bids, -p, q - traded)
    ensures r.trades == b.trades + |Touched(b.asks, p, q)|
  {
    if NewBest(b.bids, p) {
      assert -p !in b.bids;
      assert b.(bids := Add(b.bids, -p, q)) == Incoming(b, p, q);
      MatchIsSweep(b, p, q, r);
    } else {
      RestsWithoutTrade(b, p, q, r);
      SweepRests(b.asks, p, q);
      TouchedNone(b.asks, p, q);
    }
  }

  /**
   A buy is an exact price-priority sweep: it trades `min(q, shares at or below p)`, best price
   first and one trade a level, changes no other ask, and rests the remainder at `p`.
   */
  lemma BuyIsSweep(b: Book, p: int, q: int)
    requires GoodBook(b) && !Crossed(b) && q > 0
    ensures IsBuySweep(b, AddBuy(b, p, q), p, q)
  {
    ApartIffUncrossed(b);
    BuySweeps(b, p, q, AddBuy(b, p, q), Traded(b.asks, p, q));
    SweepClosedForm(b, AddBuy(b, p, q), p, q, Traded(b.asks, p, q));
  }

  // ---------------------------------------------------------------- the sell side is the mirror image

  /** The book with its sides exchanged, which negates every price. */
  function Swap(b: Book): Book {
    Book(b.asks, b.bids, b.trades)
  }

  lemma MatchStepSwaps(b: Book)
    requires Crossed(b)
    ensures Crossed(Swap(b)) && MatchStep(Swap(b)) == Swap(MatchStep(b))
  {
  }

  lemma {:induction false} MatchSwaps(b: Book)
    ensures Match(Swap(b)) == Swap(Match(b))
    decreases |b.bids| + |b.asks|
  {
    if Crossed(b) {
      MatchStepShrinks(b);
      MatchStepSwaps(b);
      MatchSwaps(MatchStep(b));
    } else {
      assert !Crossed(Swap(b));
    }
  }

  lemma SellMirrorsBuy(b: Book, p: int, q: int)
    ensures AddSell(b, p, q) == Swap(AddBuy(Swap(b), -p, q))
  {
    var c := b.(asks := Add(b.asks, p, q));
    assert Swap(c) == Swap(b).(bids := Add(Swap(b).bids, -(-p), q));
    MatchSwaps(c);
  }

  /** A sell is the mirror image of a buy: the same sweep of the bids, highest price first. */
  lemma SellIsSweep(b: Book, p: int, q: int)
    requires GoodBook(b) && !Crossed(b) && q > 0
    ensures AddSell(b, p, q) == Swap(AddBuy(Swap(b), -p, q))
    ensures IsBuySweep(Swap(b), Swap(AddSell(b, p, q)), -p, q)
  {
    SellMirrorsBuy(b, p, q);
    BuyIsSweep(Swap(b), -p, q);
  }

  // ---------------------------------------------------------------- orders by id

  datatype OrderRef = OrderRef(price: int, qty: int, isBuy: bool)

  datatype Tracked = Tracked(book: Book, orders: map<nat, OrderRef>)

  datatype Op =
    | OpAdd(price: int, qty: int, isBuy: bool)
    | OpSubmit(id: nat, price: int, qty: int, isBuy: bool)
    | OpCancel(id: nat)
    | OpModify(id: nat, price: int, qty: int)

  predicate Acceptable(levels: nat, price: int, qty: int) {
    0 <= price < levels && qty > 0
  }

  function AddSide(b: Book, price: int, qty: int, isBuy: bool): Book {
    if isBuy then AddBuy(b, price, qty) else AddSell(b, price, qty)
  }

  /** Cancelling removes `min(order qty, level qty)`, whoever owns the shares now at the level. */
  function Drop(m: Levels, rank: int, qty: int): Levels {
    if rank in m then Take(m, rank, Min(qty, m[rank])) else m
  }

  function Submit(t: Tracked, levels: nat, id: nat, price: int, qty: int, isBuy: bool): (Tracked, bool) {
    if !Acceptable(levels, price, qty) || id in t.orders then (t, false)
    else (Tracked(AddSide(t.book, price, qty, isBuy), t.orders[id := OrderRef(price, qty, isBuy)]), true)
  }

  function DropOrder(b: Book, o: OrderRef): Book {
    if o.isBuy then b.(bids := Drop(b.bids, -o.price, o.qty))
    else b.(asks := Drop(b.asks, o.price, o.qty))
  }

  function Cancel(t: Tracked, id: nat): (Tracked, bool) {
    if id !in t.orders then (t, false)
    else (Tracked(DropOrder(t.book, t.orders[id]), t.orders - {id}), true)
  }

  /** Cancel, then submit under the same id: a refused new price or quantity leaves the order cancelled. */
  function Modify(t: Tracked, levels: nat, id: nat, price: int, qty: int): (Tracked, bool) {
    if id !in t.orders then (t, false)
    else Submit(Cancel(t, id).0, levels, id, price, qty, t.orders[id].isBuy)
  }

  function Apply(t: Tracked, levels: nat, op: Op): (Tracked, bool) {
    match op
    case OpAdd(price, qty, isBuy) =>
      if Acceptable(levels, price, qty) then (t.(book := AddSide(t.book, price, qty, isBuy)), true) else (t, false)
    case OpSubmit(id, price, qty, isBuy) => Submit(t, levels, id, price, qty, isBuy)
    case OpCancel(id) => Cancel(t, id)
    case OpModify(id, price, qty) => Modify(t, levels, id, price, qty)
  }

  ghost predicate GoodTracked(t: Tracked) {
    GoodBook(t.book) && !Crossed(t.book) && forall id | id in t.orders :: t.orders[id].qty > 0
  }

  lemma AddSideKeepsGood(b: Book, price: int, qty: int, isBuy: bool)
    requires GoodBook(b) && qty > 0
    ensures GoodBook(AddSide(b, price, qty, isBuy)) && !Crossed(AddSide(b, price, qty, isBuy))
  {
    var c := if isBuy then b.(bids := Add(b.bids, -price, qty)) else b.(asks := Add(b.asks, price, qty));
    MatchKeepsGood(c);
    MatchUncrosses(c);
  }

  lemma DropKeepsOrder(m: Levels, rank: int, qty: int)
    requires Positive(m) && qty > 0
    ensures Positive(Drop(m, rank, qty)) && |Drop(m, rank, qty)| <= |m|
    ensures Drop(m, rank, qty) != map[] ==> m != map[] && Lowest(Drop(m, rank, qty)) >= Lowest(m)
  {
    var r := Drop(m, rank, qty);
    if rank in m {
      TakeSize(m, rank, Min(qty, m[rank]));
    }
    if r != map[] {
      assert Lowest(r) in m;
    }
  }

  lemma DropOrderKeepsGood(b: Book, o: OrderRef)
    requires GoodBook(b) && !Crossed(b) && o.qty > 0
    ensures GoodBook(DropOrder(b, o)) && !Crossed(DropOrder(b, o)) && Potential(DropOrder(b, o)) <= Potential(b)
  {
    if o.isBuy {
      DropKeepsOrder(b.bids, -o.price, o.qty);
    } else {
      DropKeepsOrder(b.asks, o.price, o.qty);
    }
  }

  lemma CancelKeepsGood(t: Tracked, id: nat)
    requires GoodTracked(t)
    ensures GoodTracked(Cancel(t, id).0)
    ensures Potential(Cancel(t, id).0.book) <= Potential(t.book)
  {
    if id in t.orders {
      DropOrderKeepsGood(t.book, t.orders[id]);
    }
  }

  lemma SubmitKeepsGood(t: Tracked, levels: nat, id: nat, price: int, qty: int, isBuy: bool)
    requires GoodTracked(t)
    ensures var (r, ok) := Submit(t, levels, id, price, qty, isBuy);
            GoodTracked(r) && Potential(r.book) <= Potential(t.book) + (if ok then 1 else 0)
  {
    if Acceptable(levels, price, qty) {
      AddSideKeepsGood(t.book, price, qty, isBuy);
      AddRaisesPotentialByOne(t.book, price, qty);
    }
  }

  // ---------------------------------------------------------------- what the calls on orders do

  /** An order of `qty` at `price` swept the other side and rested its remainder on its own. */
  ghost predicate IsAdded(b: Book, r: Book, price: int, qty: int, isBuy: bool) {
    if isBuy then IsBuySweep(b, r, price, qty) else IsBuySweep(Swap(b), Swap(r), -price, qty)
  }

  lemma AddSideIsSweep(b: Book, price: int, qty: int, isBuy: bool)
    requires GoodBook(b) && !Crossed(b) && qty > 0
    ensures IsAdded(b, AddSide(b, price, qty, isBuy), price, qty, isBuy)
  {
    if isBuy {
      BuyIsSweep(b, price, qty);
    } else {
      SellIsSweep(b, price, qty);
    }
  }

  /** An add without an id is accepted exactly on a price of the book and a positive quantity, and sweeps. */
  lemma AddLaw(t: Tracked, levels: nat, price: int, qty: int, isBuy: bool)
    requires GoodTracked(t)
    ensures var (r, ok) := Apply(t, levels, OpAdd(price, qty, isBuy));
            && (ok <==> 0 <= price < levels && qty > 0)
            && r.orders == t.orders
            && (if ok then IsAdded(t.book, r.book, price, qty, isBuy) else r == t)
  {
    if 0 <= price < levels && qty > 0 { AddSideIsSweep(t.book, price, qty, isBuy); }
  }

  /**
   A submission is accepted exactly on a valid price and quantity under an id that is not live. It
   sweeps the other side, rests the remainder on its own side, and is remembered as it was given.
   */
  lemma SubmitLaw(t: Tracked, levels: nat, id: nat, price: int, qty: int, isBuy: bool)
    requires GoodTracked(t)
    ensures var (r, ok) := Apply(t, levels, OpSubmit(id, price, qty, isBuy));
            && (ok <==> 0 <= price < levels && qty > 0 && id !in t.orders)
            && (if ok then IsAdded(t.book, r.book, price, qty, isBuy) && r.orders == t.orders[id := OrderRef(price, qty, isBuy)]
                else r == t)
  {
    if 0 <= price < levels && qty > 0 { AddSideIsSweep(t.book, price, qty, isBuy); }
  }

  /** `lost` shares are gone from one level and nothing else changed. */
  ghost predicate IsLowered(b: Book, r: Book, price: int, isBuy: bool, lost: int) {
    && r.trades == b.trades
    && (forall x :: Qty(r.bids, x) == Qty(b.bids, x) - if isBuy && x == -price then lost else 0)
    && (forall x :: Qty(r.asks, x) == Qty(b.asks, x) - if !isBuy && x == price then lost else 0)
  }

  /**
   A cancel is accepted exactly under a live id. It takes the order's quantity, or what is left of its
   level if that is less, from the order's own side and price, and forgets the id: a second cancel is refused.
   */
  lemma CancelLaw(t: Tracked, levels: nat, id: nat)
    requires GoodTracked(t)
    ensures var (r, ok) := Apply(t, levels, OpCancel(id));
            && (ok <==> id in t.orders)
            && !Apply(r, levels, OpCancel(id)).1
            && (if ok then
                  var o := t.orders[id];
                  var level := if o.isBuy then Qty(t.book.bids, -o.price) else Qty(t.book.asks, o.price);
                  r.orders == t.orders - {id} && IsLowered(t.book, r.book, o.price, o.isBuy, Min(o.qty, level))
                else r == t)
  {
  }

  /**
   A modify of a live order takes it out as a cancel does and submits the new price and quantity on the
   same side; refused values leave the order cancelled. `mid` is the book between the two.
   */
  lemma ModifyLaw(t: Tracked, levels: nat, id: nat, price: int, qty: int)
    requires GoodTracked(t)
    ensures var (r, ok) := Apply(t, levels, OpModify(id, price, qty));
            var mid := Apply(t, levels, OpCancel(id)).0;
            && (ok <==> id in t.orders && 0 <= price < levels && qty > 0)
            && (id !in t.orders ==> r == t)
            && (id in t.orders && !ok ==> r == mid)
            && (ok ==> IsAdded(mid.book, r.book, price, qty, t.orders[id].isBuy)
                       && r.orders == t.orders[id := OrderRef(price, qty, t.orders[id].isBuy)])
  {
    if id in t.orders {
      CancelKeepsGood(t, id);
      SubmitLaw(Cancel(t, id).0, levels, id, price, qty, t.orders[id].isBuy);
      assert (t.orders - {id})[id := OrderRef(price, qty, t.orders[id].isBuy)] == t.orders[id := OrderRef(price, qty, t.orders[id].isBuy)];
    }
  }

  // ---------------------------------------------------------------- over whole runs

  /** How many submissions of a run were accepted. */
  function Accepted(t: Tracked, levels: nat, ops: seq<Op>): nat
    decreases |ops|
  {
    if ops == [] then 0
    else (if Apply(t, levels, ops[0]).1 && !ops[0].OpCancel? then 1 else 0)
         + Accepted(Apply(t, levels, ops[0]).0, levels, ops[1..])
  }

  function RunOps(t: Tracked, levels: nat, ops: seq<Op>): Tracked
    decreases |ops|
  {
    if ops == [] then t else RunOps(Apply(t, levels, ops[0]).0, levels, ops[1..])
  }

  lemma ApplyKeepsGood(t: Tracked, levels: nat, op: Op)
    requires GoodTracked(t)
    ensures var (r, ok) := Apply(t, levels, op);
            GoodTracked(r) && Potential(r.book) <= Potential(t.book) + (if ok && !op.OpCancel? then 1 else 0)
  {
    match op
    case OpAdd(price, qty, isBuy) =>
      if Acceptable(levels, price, qty) {
        AddSideKeepsGood(t.book, price, qty, isBuy);
        AddRaisesPotentialByOne(t.book, price, qty);
      }
    case OpSubmit(id, price, qty, isBuy) => SubmitKeepsGood(t, levels, id, price, qty, isBuy);
    case OpCancel(id) => CancelKeepsGood(t, id);
    case OpModify(id, price, qty) =>
      if id in t.orders {
        CancelKeepsGood(t, id);
        SubmitKeepsGood(Cancel(t, id).0, levels, id, price, qty, t.orders[id].isBuy);
      }
  }

  /**
   Over every run of adds, submissions, cancels and modifies: the book is never left crossed, no
   empty level survives, and trades plus occupied levels never exceed the accepted submissions.
   */
  lemma {:induction false} RunBound(t: Tracked, levels: nat, ops: seq<Op>)
    requires GoodTracked(t)
    ensures GoodTracked(RunOps(t, levels, ops))
    ensures Potential(RunOps(t, levels, ops).book) <= Potential(t.book) + Accepted(t, levels, ops)
    decreases |ops|
  {
    if ops != [] {
      ApplyKeepsGood(t, levels, ops[0]);
      RunBound(Apply(t, levels, ops[0]).0, levels, ops[1..]);
    }
  }
}
