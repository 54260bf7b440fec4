/**
 The book-walk queries of `itch-parser/itch_book.hpp` on the levels of one side in walking order:
 a buy walks the asks upward, a sell walks the bids downward.
 */
module ItchQueries {
  import opened Numbers
  import opened Ordered

  datatype Rung = Rung(price: int, qty: int)

  /** Strictly better for the walker: cheaper when buying, dearer when selling. */
  predicate Better(buy: bool, a: int, b: int) {
    if buy then a < b else a > b
  }

  /** The levels at these prices, given in ascending order, as the walker meets them. */
  function Rungs(m: map<int, int>, q: seq<int>, buy: bool): (lad: seq<Rung>)
    requires forall i | 0 <= i < |q| :: q[i] in m
    ensures |lad| == |q|
    ensures forall i | 0 <= i < |q| :: lad[i].price == q[if buy then i else |q| - 1 - i]
    ensures forall i | 0 <= i < |q| :: lad[i].price in m && lad[i].qty == m[lad[i].price]
  {
    seq(|q|, i requires 0 <= i < |q| =>
      var p := q[if buy then i else |q| - 1 - i];
      Rung(p, m[p]))
  }

  lemma RungsBestFirst(m: map<int, int>, q: seq<int>, buy: bool)
    requires Ascending(q) && forall i | 0 <= i < |q| :: q[i] in m
    ensures BestFirst(Rungs(m, q, buy), buy)
  {
  }

  lemma SortedKeys(m: map<int, int>, q: seq<int>)
    requires q == Sorted(m.Keys)
    ensures |q| == |m| && Ascending(q) && forall i | 0 <= i < |q| :: q[i] in m
  {
    assert |m.Keys| == |m|;
    forall i | 0 <= i < |q| ensures q[i] in m {
      assert q[i] in q;
    }
  }

  /** The levels of a price map, best first: as many as there are, all different, so each of them. */
  function Ladder(m: map<int, int>, buy: bool): (lad: seq<Rung>)
    ensures |lad| == |m| && BestFirst(lad, buy)
    ensures forall i | 0 <= i < |lad| :: lad[i].price in m && lad[i].qty == m[lad[i].price]
  {
    var q := Sorted(m.Keys);
    SortedKeys(m, q);
    RungsBestFirst(m, q, buy);
    Rungs(m, q, buy)
  }

  ghost predicate BestFirst(lad: seq<Rung>, buy: bool) {
    forall i, j | 0 <= i < j < |lad| :: Better(buy, lad[i].price, lad[j].price)
  }

  ghost predicate Walkable(lad: seq<Rung>, buy: bool) {
    BestFirst(lad, buy) && forall i | 0 <= i < |lad| :: lad[i].qty > 0
  }

  lemma LadderWalks(m: map<int, int>, buy: bool)
    requires forall p | p in m :: m[p] > 0
    ensures Walkable(Ladder(m, buy), buy)
  {
  }

  // ---------------------------------------------------------------- specifications

  /** Shares on the first `k` levels. */
  function Depth(lad: seq<Rung>, k: nat): int
    requires k <= |lad|
  {
    if k == 0 then 0 else Depth(lad, k - 1) + lad[k - 1].qty
  }

  /** `cumulative_qty`: the top `n` levels, or all there are. */
  function TopDepth(lad: seq<Rung>, n: int): int {
    Depth(lad, if n <= 0 then 0 else if n < |lad| then n else |lad|)
  }

  predicate InLimit(buy: bool, price: int, limit: int) {
    !Better(buy, limit, price)
  }

  /** Shares, among the first `k` levels, priced at or better than the limit. */
  function FillableIn(lad: seq<Rung>, buy: bool, limit: int, k: nat): int
    requires k <= |lad|
  {
    if k == 0 then 0
    else FillableIn(lad, buy, limit, k - 1) + if InLimit(buy, lad[k - 1].price, limit) then lad[k - 1].qty else 0
  }

  function Fillable(lad: seq<Rung>, buy: bool, limit: int): int {
    FillableIn(lad, buy, limit, |lad|)
  }

  /** The least number of levels that covers `n`, from `k` on; -1 when the side cannot. */
  function CoverFrom(lad: seq<Rung>, n: int, k: nat): (c: int)
    requires k <= |lad|
    ensures c == -1 || k < c <= |lad|
    decreases |lad| - k
  {
    if k == |lad| then -1 else if Depth(lad, k + 1) >= n then k + 1 else CoverFrom(lad, n, k + 1)
  }

  function LevelsToFill(lad: seq<Rung>, n: int): (c: int)
    ensures -1 <= c <= |lad|
  {
    if n <= 0 then 0 else CoverFrom(lad, n, 0)
  }

  /** The price of the last level needed; 0 when nothing is asked for or the side cannot cover it. */
  function PriceToFill(lad: seq<Rung>, n: int): int {
    var c := LevelsToFill(lad, n);
    if c <= 0 then 0 else lad[c - 1].price
  }

  /** What a walk takes from a level when this much is still wanted. */
  function Grab(remaining: int, qty: int): int {
    if remaining <= 0 then 0 else Min(remaining, qty)
  }

  /** Shares and value, in ticks, of a sweep for `n` over the first `k` levels. */
  function SweptShares(lad: seq<Rung>, n: int, k: nat): int
    requires k <= |lad|
  {
    if k == 0 then 0 else SweptShares(lad, n, k - 1) + Grab(n - SweptShares(lad, n, k - 1), lad[k - 1].qty)
  }

  /** What the sweep takes at level `j`. */
  function Take(lad: seq<Rung>, n: int, j: nat): int
    requires j < |lad|
  {
    Grab(n - SweptShares(lad, n, j), lad[j].qty)
  }

  function SweptValue(lad: seq<Rung>, n: int, k: nat): int
    requires k <= |lad|
  {
    if k == 0 then 0 else SweptValue(lad, n, k - 1) + lad[k - 1].price * Take(lad, n, k - 1)
  }

  function ExpectedFill(lad: seq<Rung>, n: int): int {
    if n <= 0 then 0 else SweptShares(lad, n, |lad|)
  }

  function Shortfall(lad: seq<Rung>, n: int): int {
    if n <= 0 then 0 else n - ExpectedFill(lad, n)
  }

  // ---------------------------------------------------------------- facts

  lemma {:induction false} DepthGrows(lad: seq<Rung>, buy: bool, j: nat, k: nat)
    requires Walkable(lad, buy) && j <= k <= |lad|
    ensures Depth(lad, j) <= Depth(lad, k)
    ensures j < k ==> Depth(lad, j) < Depth(lad, k)
  {
    if j < k {
      DepthGrows(lad, buy, j, k - 1);
    }
  }

  /** The cover is the first depth that reaches `n`, or nothing reaches it. */
  lemma {:induction false} CoverIsLeast(lad: seq<Rung>, buy: bool, n: int, k: nat)
    requires Walkable(lad, buy) && k <= |lad| && Depth(lad, k) < n
    ensures var c := CoverFrom(lad, n, k);
            if c == -1 then Depth(lad, |lad|) < n else Depth(lad, c) >= n && Depth(lad, c - 1) < n
    decreases |lad| - k
  {
    if k < |lad| && Depth(lad, k + 1) < n {
      CoverIsLeast(lad, buy, n, k + 1);
    }
  }

  /** `levels_to_fill` is the least `k` whose cumulative quantity reaches `n`, and -1 when none does. */
  lemma LevelsToFillIsLeast(lad: seq<Rung>, buy: bool, n: int)
    requires Walkable(lad, buy) && n > 0
    ensures var c := LevelsToFill(lad, n);
            if c == -1 then forall k | 0 <= k <= |lad| :: Depth(lad, k) < n
            else Depth(lad, c) >= n && forall k | 0 <= k < c :: Depth(lad, k) < n
  {
    CoverIsLeast(lad, buy, n, 0);
    var c := LevelsToFill(lad, n);
    var last := if c == -1 then |lad| else c - 1;
    forall k | 0 <= k <= last ensures Depth(lad, k) < n {
      DepthGrows(lad, buy, k, last);
    }
  }

  /** A limit at level `c` reaches exactly the first `c` levels. */
  lemma {:induction false} LimitReaches(lad: seq<Rung>, buy: bool, limit: int, c: nat, k: nat)
    requires Walkable(lad, buy) && c <= |lad| && k <= |lad|
    requires c > 0 ==> InLimit(buy, lad[c - 1].price, limit)
    requires c < |lad| ==> !InLimit(buy, lad[c].price, limit)
    ensures FillableIn(lad, buy, limit, k) == Depth(lad, if k <= c then k else c)
  {
    if k > 0 {
      LimitReaches(lad, buy, limit, c, k - 1);
      if k <= c {
        assert k < c ==> Better(buy, lad[k - 1].price, lad[c - 1].price);
      } else {
        assert c < k - 1 ==> Better(buy, lad[c].price, lad[k - 1].price);
      }
    }
  }

  /** How many levels a limit reaches. */
  lemma {:induction false} Reach(lad: seq<Rung>, buy: bool, limit: int, k: nat) returns (c: nat)
    requires Walkable(lad, buy) && k <= |lad|
    requires k < |lad| ==> !InLimit(buy, lad[k].price, limit)
    ensures c <= |lad|
    ensures c > 0 ==> InLimit(buy, lad[c - 1].price, limit)
    ensures c < |lad| ==> !InLimit(buy, lad[c].price, limit)
  {
    if k > 0 && !InLimit(buy, lad[k - 1].price, limit) {
      c := Reach(lad, buy, limit, k - 1);
    } else {
      c := k;
    }
  }

  /** `price_to_fill` is the tightest limit: a limit can fill `n` exactly when it is no better than it. */
  lemma PriceToFillIsTightest(lad: seq<Rung>, buy: bool, n: int, limit: int)
    requires Walkable(lad, buy) && n > 0 && LevelsToFill(lad, n) != -1
    ensures Fillable(lad, buy, limit) >= n <==> InLimit(buy, PriceToFill(lad, n), limit)
  {
    var c := LevelsToFill(lad, n);
    LevelsToFillIsLeast(lad, buy, n);
    var r := Reach(lad, buy, limit, |lad|);
    LimitReaches(lad, buy, limit, r, |lad|);
    if r >= c {
      DepthGrows(lad, buy, c, r);
      assert r > c ==> Better(buy, lad[c - 1].price, lad[r - 1].price);
    } else {
      assert Depth(lad, r) < n;
      assert c - 1 > r ==> Better(buy, lad[r].price, lad[c - 1].price);
    }
  }

  lemma {:induction false} SweptIs(lad: seq<Rung>, buy: bool, n: int, k: nat)
    requires Walkable(lad, buy) && n > 0 && k <= |lad|
    ensures SweptShares(lad, n, k) == Min(n, Depth(lad, k))
  {
    if k > 0 {
      SweptIs(lad, buy, n, k - 1);
    }
  }

  /** All the queries that can fail do so together, exactly when the shortfall is positive. */
  lemma FailuresAgree(lad: seq<Rung>, buy: bool, n: int)
    requires Walkable(lad, buy) && n > 0 && forall i | 0 <= i < |lad| :: lad[i].price > 0
    ensures ExpectedFill(lad, n) == Min(n, Depth(lad, |lad|)) && Shortfall(lad, n) >= 0
    ensures Shortfall(lad, n) > 0 <==> LevelsToFill(lad, n) == -1
    ensures Shortfall(lad, n) > 0 <==> PriceToFill(lad, n) == 0
  {
    LevelsToFillIsLeast(lad, buy, n);
    SweptIs(lad, buy, n, |lad|);
    var c := LevelsToFill(lad, n);
    if c != -1 {
      DepthGrows(lad, buy, c, |lad|);
    }
  }

  /** Asking for nothing is answered with nothing. */
  lemma NothingAsked(lad: seq<Rung>, n: int)
    requires n <= 0
    ensures LevelsToFill(lad, n) == PriceToFill(lad, n) == ExpectedFill(lad, n) == Shortfall(lad, n) == TopDepth(lad, n) == 0
  {
  }

  ghost predicate Agree(lad: seq<Rung>, buy: bool, n: int) {
    var levels, price, short := LevelsToFill(lad, n), PriceToFill(lad, n), Shortfall(lad, n);
    && short >= 0 && (short > 0 <==> levels == -1) && (short > 0 <==> price == 0)
    && (short == 0 ==>
          && TopDepth(lad, levels) >= n
          && (forall k | k < levels :: TopDepth(lad, k) < n)
          && (forall limit :: Fillable(lad, buy, limit) >= n <==> InLimit(buy, price, limit)))
  }

  lemma WalksAgree(lad: seq<Rung>, buy: bool, n: int)
    requires Walkable(lad, buy) && n > 0 && forall i | 0 <= i < |lad| :: lad[i].price > 0
    ensures Agree(lad, buy, n)
  {
    FailuresAgree(lad, buy, n);
    if Shortfall(lad, n) == 0 {
      LevelsToFillIsLeast(lad, buy, n);
      forall limit ensures Fillable(lad, buy, limit) >= n <==> InLimit(buy, PriceToFill(lad, n), limit) {
        PriceToFillIsTightest(lad, buy, n, limit);
      }
    }
  }

  // ---------------------------------------------------------------- the sweep is the cheapest fill

  /** Some other way to pick shares off the levels. */
  ghost predicate Allocation(lad: seq<Rung>, a: seq<int>) {
    |a| == |lad| && forall i | 0 <= i < |a| :: 0 <= a[i] <= lad[i].qty
  }

  function Shares(a: seq<int>, k: nat): int
    requires k <= |a|
  {
    if k == 0 then 0 else Shares(a, k - 1) + a[k - 1]
  }

  function Value(lad: seq<Rung>, a: seq<int>, k: nat): int
    requires k <= |a| == |lad|
  {
    if k == 0 then 0 else Value(lad, a, k - 1) + lad[k - 1].price * a[k - 1]
  }

  /** What one level adds to the difference in value, measured against the last price touched. */
  lemma ExchangeLevel(buy: bool, price: int, pivot: int, mine: int, other: int)
    requires price == pivot || mine == other || (if mine > other then Better(buy, price, pivot) else Better(buy, pivot, price))
    ensures if buy then price * (other - mine) >= pivot * (other - mine) else price * (other - mine) <= pivot * (other - mine)
  {
    var d := other - mine;
    assert price * d - pivot * d == (price - pivot) * d;
    if price > pivot && d > 0 {
      assert (price - pivot) * d > 0;
    } else if price < pivot && d < 0 {
      assert (price - pivot) * d > 0;
    } else if price > pivot && d < 0 {
      assert (price - pivot) * d < 0;
    } else if price < pivot && d > 0 {
      assert (price - pivot) * d < 0;
    }
  }

  ghost predicate NoWorse(buy: bool, mine: int, other: int) {
    if buy then mine <= other else mine >= other
  }

  lemma ExchangeStep(buy: bool, price: int, pivot: int, mine: int, other: int, shares: int, value: int)
    requires price == pivot || mine == other || (if mine > other then Better(buy, price, pivot) else Better(buy, pivot, price))
    requires NoWorse(buy, pivot * shares, value)
    ensures NoWorse(buy, pivot * (shares + other - mine), value + price * other - price * mine)
  {
    ExchangeLevel(buy, price, pivot, mine, other);
    assert price * (other - mine) == price * other - price * mine;
    assert pivot * (shares + other - mine) == pivot * shares + pivot * (other - mine);
  }

  lemma {:induction false} Exchange(lad: seq<Rung>, buy: bool, n: int, c: nat, a: seq<int>, k: nat)
    requires Walkable(lad, buy) && Allocation(lad, a) && n > 0 && 0 < c <= |lad| && k <= |lad|
    requires Depth(lad, c) >= n && Depth(lad, c - 1) < n
    ensures var pivot := lad[c - 1].price;
            NoWorse(buy, pivot * (Shares(a, k) - SweptShares(lad, n, k)), Value(lad, a, k) - SweptValue(lad, n, k))
  {
    if k == 0 {
      assert lad[c - 1].price * (Shares(a, k) - SweptShares(lad, n, k)) == 0;
    } else {
      Exchange(lad, buy, n, c, a, k - 1);
      var j, pivot := k - 1, lad[c - 1].price;
      var mine, other, price := Take(lad, n, j), a[j], lad[j].price;
      TakeAround(lad, buy, n, c, j);
      assert j < c - 1 ==> Better(buy, price, pivot);
      assert j > c - 1 ==> Better(buy, pivot, price);
      ExchangeStep(buy, price, pivot, mine, other, Shares(a, j) - SweptShares(lad, n, j),
                   Value(lad, a, j) - SweptValue(lad, n, j));
    }
  }

  /** Levels before the last one are taken whole, levels after it not at all. */
  lemma TakeAround(lad: seq<Rung>, buy: bool, n: int, c: nat, j: nat)
    requires Walkable(lad, buy) && n > 0 && 0 < c <= |lad| && j < |lad|
    requires Depth(lad, c) >= n && Depth(lad, c - 1) < n
    ensures j < c - 1 ==> Take(lad, n, j) == lad[j].qty
    ensures j > c - 1 ==> Take(lad, n, j) == 0
  {
    SweptIs(lad, buy, n, j);
    if j < c - 1 {
      DepthGrows(lad, buy, j + 1, c - 1);
    } else if j > c - 1 {
      DepthGrows(lad, buy, c, j);
    }
  }

  /** No other way to trade `n` shares on these levels is better than the sweep the queries describe. */
  lemma SweepIsBest(lad: seq<Rung>, buy: bool, n: int, a: seq<int>)
    requires Walkable(lad, buy) && Allocation(lad, a) && n > 0 && Shares(a, |a|) == n
    requires LevelsToFill(lad, n) != -1
    ensures NoWorse(buy, SweptValue(lad, n, |lad|), Value(lad, a, |lad|))
  {
    var c := LevelsToFill(lad, n);
    CoverIsLeast(lad, buy, n, 0);
    DepthGrows(lad, buy, c, |lad|);
    SweptIs(lad, buy, n, |lad|);
    Exchange(lad, buy, n, c, a, |lad|);
  }
}
