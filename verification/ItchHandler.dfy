/** The feed handler object of `itch-parser/itch_book.hpp`: event handlers, audit and book-walk queries. */
module ItchHandler {
  import opened Numbers
  import opened ItchBook
  import Q = ItchQueries

  // ---------------------------------------------------------------- the audit

  ghost predicate SideMatches(b: Book, bid: bool) {
    forall p :: LevelIs(Levels(b, bid), p, Sum(b.orders, Level(bid, p)))
  }

  ghost predicate HasEmptyLevel(m: map<int, int>) {
    exists p :: p in m && m[p] <= 0
  }

  ghost predicate HasEmptyOrder(orders: map<int, Resting>) {
    exists ref :: ref in orders && orders[ref].shares == 0
  }

  /** The first invariant that fails, in the order the audit looks at them. */
  ghost function AuditCode(b: Book): int {
    if HasEmptyLevel(b.bids) then 1
    else if HasEmptyLevel(b.asks) then 2
    else if HasEmptyOrder(b.orders) then 5
    else if !SideMatches(b, true) then 3
    else if !SideMatches(b, false) then 4
    else 0
  }

  /** The audit passes exactly when levels and orders are in step. */
  lemma AuditZeroIff(b: Book)
    ensures AuditCode(b) == 0 <==> Lockstep(b)
  {
    if Lockstep(b) {
      forall bid, p | p in Levels(b, bid) ensures Levels(b, bid)[p] > 0 {
        assert LevelIs(Levels(b, bid), p, Sum(b.orders, Level(bid, p)));
      }
      assert forall p | p in b.bids :: p in Levels(b, true) && b.bids[p] == Levels(b, true)[p];
      assert forall p | p in b.asks :: p in Levels(b, false) && b.asks[p] == Levels(b, false)[p];
      assert SideMatches(b, true) && SideMatches(b, false);
    }
    if AuditCode(b) == 0 {
      forall bid, p ensures LevelIs(Levels(b, bid), p, Sum(b.orders, Level(bid, p))) {
        assert SideMatches(b, bid);
      }
    }
  }

  /** On every stream from an empty book, the audit returns 0 exactly when no live reference was reused. */
  lemma AuditZeroIffNoReuse(s: State, es: seq<Event>)
    requires Fresh(s)
    ensures AuditCode(Run(s, es).book) == 0 <==> ReusesNothing(s, es)
  {
    AuditZeroIff(Run(s, es).book);
    LockstepIffNoReuse(s, es);
  }

  /** Adding under a live reference breaks the book, and so does a replace onto another live one. */
  lemma ReuseFailsAudit(s: State)
    requires Fresh(s)
    ensures AuditCode(Run(s, [AddOrder(1, true, 100, 5), AddOrder(1, true, 101, 7)]).book) != 0
    ensures AuditCode(Run(s, [AddOrder(1, true, 100, 5), AddOrder(2, true, 100, 7), ReplaceOrder(1, 2, 100, 3)]).book) != 0
  {
    var a, b, c, r := AddOrder(1, true, 100, 5), AddOrder(1, true, 101, 7), AddOrder(2, true, 100, 7), ReplaceOrder(1, 2, 100, 3);
    assert [a, b][..1] == [a] && [a, c, r][..2] == [a, c] && [a, c][..1] == [a] && |[a][..0]| == 0;
    assert Run(s, [a]).book.orders == s.book.orders[1 := Resting(true, 100, 5)];
    assert Reuses(Run(s, [a]).book, b);
    assert Reuses(Run(s, [a, c]).book, r);
    AuditZeroIffNoReuse(s, [a, b]);
    AuditZeroIffNoReuse(s, [a, c, r]);
  }

  ghost predicate Totals(m: map<int, int>, orders: map<int, Resting>, bid: bool) {
    forall p :: LevelIs(m, p, Sum(orders, Level(bid, p)))
  }

  lemma TotalsUnique(m: map<int, int>, n: map<int, int>, orders: map<int, Resting>, bid: bool)
    requires Totals(m, orders, bid)
    ensures n == m <==> Totals(n, orders, bid)
  {
    if Totals(n, orders, bid) {
      forall p ensures (p in m <==> p in n) && (p in m ==> m[p] == n[p]) {
        assert LevelIs(m, p, Sum(orders, Level(bid, p))) && LevelIs(n, p, Sum(orders, Level(bid, p)));
      }
      assert m.Keys == n.Keys;
    }
  }

  function Bump(m: map<int, int>, r: Resting): map<int, int> {
    m[r.price := At(m, r.price) + r.shares]
  }

  lemma TotalsGrow(m: map<int, int>, orders: map<int, Resting>, ref: int, r: Resting, bid: bool)
    requires Totals(m, orders, bid) && ref !in orders && r.shares > 0
    ensures Totals(if r.bid == bid then Bump(m, r) else m, orders[ref := r], bid)
  {
    forall p ensures LevelIs(if r.bid == bid then Bump(m, r) else m, p, Sum(orders[ref := r], Level(bid, p))) {
      SumPut(orders, ref, r, Level(bid, p));
      SumWithout(orders, ref, Level(bid, p));
      assert LevelIs(m, p, Sum(orders, Level(bid, p)));
    }
  }

  lemma TotalsOfNone(bid: bool, orders: map<int, Resting>)
    requires |orders| == 0
    ensures Totals(map[], orders, bid)
  {
    forall p ensures LevelIs(map[], p, Sum(orders, Level(bid, p))) {
      NoOrdersNoSum(orders, Level(bid, p));
    }
  }

  method AnyEmptyLevel(m: map<int, int>) returns (found: bool)
    ensures found <==> HasEmptyLevel(m)
  {
    var todo := m.Keys;
    found := false;
    while todo != {}
      invariant todo <= m.Keys && forall p | p in m && p !in todo :: m[p] > 0
      decreases |todo|
    {
      assert (forall x :: x !in todo) ==> todo == {};
      var p :| p in todo;
      if m[p] <= 0 { return true; }
      todo := todo - {p};
    }
  }

  /** Rebuild both sides' totals from the orders, visited in any order; stops at an order without shares. */
  method Rebuild(orders: map<int, Resting>) returns (clean: bool, b: map<int, int>, a: map<int, int>)
    ensures clean <==> !HasEmptyOrder(orders)
    ensures clean ==> Totals(b, orders, true) && Totals(a, orders, false)
  {
    b, a := map[], map[];
    var todo := orders.Keys;
    TotalsOfNone(true, orders - todo);
    TotalsOfNone(false, orders - todo);
    while todo != {}
      invariant todo <= orders.Keys && !HasEmptyOrder(orders - todo)
      invariant Totals(b, orders - todo, true) && Totals(a, orders - todo, false)
      decreases |todo|
    {
      assert (forall x :: x !in todo) ==> todo == {};
      var ref :| ref in todo;
      var r := orders[ref];
      if r.shares == 0 { return false, b, a; }
      VisitOrder(b, a, orders, todo, ref);
      if r.bid { b := Bump(b, r); } else { a := Bump(a, r); }
      todo := todo - {ref};
    }
    assert orders - todo == orders;
    clean := true;
  }

  lemma VisitOrder(b: map<int, int>, a: map<int, int>, orders: map<int, Resting>, todo: set<int>, ref: int)
    requires ref in todo && ref in orders && orders[ref].shares > 0 && !HasEmptyOrder(orders - todo)
    requires Totals(b, orders - todo, true) && Totals(a, orders - todo, false)
    ensures var r, rest := orders[ref], orders - (todo - {ref});
            && Totals(if r.bid then Bump(b, r) else b, rest, true)
            && Totals(if r.bid then a else Bump(a, r), rest, false)
            && !HasEmptyOrder(rest)
  {
    var r := orders[ref];
    TotalsGrow(b, orders - todo, ref, r, true);
    TotalsGrow(a, orders - todo, ref, r, false);
    assert (orders - todo)[ref := r] == orders - (todo - {ref});
  }

  method Audit(book: Book) returns (code: int)
    ensures code == AuditCode(book)
  {
    var empty := AnyEmptyLevel(book.bids);
    if empty { return 1; }
    empty := AnyEmptyLevel(book.asks);
    if empty { return 2; }
    var clean, b, a := Rebuild(book.orders);
    if !clean { return 5; }
    TotalsUnique(b, book.bids, book.orders, true);
    TotalsUnique(a, book.asks, book.orders, false);
    if b != book.bids { return 3; }
    if a != book.asks { return 4; }
    return 0;
  }

  // ---------------------------------------------------------------- the walks

  /** The levels an order of this side would trade against, best first. */
  function Facing(b: Book, buy: bool): seq<Q.Rung> {
    if buy then Q.Ladder(b.asks, true) else Q.Ladder(b.bids, false)
  }

  /** Every book an event stream can build can be walked: each of its levels holds shares. */
  lemma Walks(b: Book, lost: seq<Resting>, buy: bool)
    requires Matches(b, lost)
    ensures Q.Walkable(Facing(b, buy), buy)
  {
    LevelsHoldShares(b, lost, !buy);
    Q.LadderWalks(Levels(b, !buy), buy);
  }

  lemma LevelsHoldShares(b: Book, lost: seq<Resting>, bid: bool)
    requires Matches(b, lost)
    ensures forall p | p in Levels(b, bid) :: Levels(b, bid)[p] > 0
  {
    forall p | p in Levels(b, bid) ensures Levels(b, bid)[p] > 0 {
      assert LevelIs(Levels(b, bid), p, Sum(b.orders, Level(bid, p)) + Lost(lost, Level(bid, p)));
    }
  }

  ghost predicate Priced(m: map<int, int>) {
    forall p | p in m :: p > 0
  }

  /**
   How the queries fit together, for any size and any book of positive prices that events can build:
   `levels_to_fill` is the least number of levels whose `cumulative_qty` on the opposite side reaches
   the size, `price_to_fill` is the tightest limit whose `fillable_shares` do, and both fail exactly
   when `fill_shortfall` is positive.
   */
  lemma QueriesAgree(b: Book, lost: seq<Resting>, buy: bool, n: int)
    requires Matches(b, lost) && n > 0 && Priced(Levels(b, !buy))
    ensures Q.Agree(Facing(b, buy), buy, n)
  {
    Walks(b, lost, buy);
    Q.WalksAgree(Facing(b, buy), buy, n);
  }

  class ITCHOrderBook {
    var orders: map<int, Resting>
    var bids: map<int, int>
    var asks: map<int, int>
    var tally: Tally

    function Contents(): Book
      reads this
    {
      Book(orders, bids, asks)
    }

    ghost function View(): State
      reads this
    {
      State(Contents(), tally)
    }

    constructor ()
      ensures View() == EMPTY
    {
      orders, bids, asks := map[], map[], map[];
      tally := Tally(0, 0, 0, 0, 0, 0, NO_SHARES, NO_SHARES);
    }

    /** `reduce_`. */
    method Take(ref: int, qty: nat)
      modifies this
      ensures View() == State(Reduce(old(Contents()), ref, qty), Orphan(old(tally), old(Contents()), ref))
    {
      if ref !in orders {
        tally := tally.(orphans := tally.orphans + 1);
        return;
      }
      var r := orders[ref];
      var dec := if qty < r.shares then qty else r.shares;
      if r.bid { bids := TakeLevel(bids, r.price, dec); } else { asks := TakeLevel(asks, r.price, dec); }
      if r.shares == dec {
        orders := orders - {ref};
      } else {
        orders := orders[ref := r.(shares := r.shares - dec)];
      }
    }

    method AddShares(ref: int, bid: bool, price: int, shares: nat)
      modifies this
      ensures View() == OnAdd(old(View()), ref, bid, price, shares)
    {
      if shares == 0 { return; }
      orders := orders[ref := Resting(bid, price, shares)];
      if bid {
        bids := bids[price := At(bids, price) + shares];
      } else {
        asks := asks[price := At(asks, price) + shares];
      }
      tally := tally.(adds := tally.adds + 1);
    }

    method ExecuteShares(ref: int, qty: nat)
      modifies this
      ensures View() == OnExecute(old(View()), ref, qty)
    {
      if ref in orders {
        var r := orders[ref];
        tally := tally.(hit := Plus(tally.hit, r.bid, Less(r, qty)));
      }
      Take(ref, qty);
      tally := tally.(executes := tally.executes + 1);
    }

    method CancelShares(ref: int, qty: nat)
      modifies this
      ensures View() == OnCancel(old(View()), ref, qty)
    {
      if ref in orders {
        var r := orders[ref];
        tally := tally.(pulled := Plus(tally.pulled, r.bid, Less(r, qty)));
      }
      Take(ref, qty);
      tally := tally.(cancels := tally.cancels + 1);
    }

    method Delete(ref: int)
      modifies this
      ensures View() == OnDelete(old(View()), ref)
    {
      if ref !in orders {
        tally := tally.(orphans := tally.orphans + 1, deletes := tally.deletes + 1);
        return;
      }
      var r := orders[ref];
      tally := tally.(pulled := Plus(tally.pulled, r.bid, r.shares));
      Take(ref, r.shares);
      tally := tally.(deletes := tally.deletes + 1);
    }

    method Replace(ref: int, newRef: int, price: int, shares: nat)
      modifies this
      ensures View() == OnReplace(old(View()), ref, newRef, price, shares)
    {
      if ref !in orders {
        tally := tally.(orphans := tally.orphans + 1, replacements := tally.replacements + 1);
        return;
      }
      var r := orders[ref];
      Take(ref, r.shares);
      AddShares(newRef, r.bid, price, shares);
      tally := tally.(adds := tally.adds - 1, replacements := tally.replacements + 1);
    }

    method AuditBook() returns (code: int)
      ensures code == AuditCode(Contents())
    {
      code := Audit(Contents());
    }

    method FillableShares(buy: bool, limit: int) returns (sum: int)
      ensures sum == Q.Fillable(Facing(Contents(), buy), buy, limit)
    {
      sum := WalkFillable(Facing(Contents(), buy), buy, limit);
    }

    method PriceToFill(buy: bool, shares: int) returns (price: int)
      ensures price == Q.PriceToFill(Facing(Contents(), buy), shares)
    {
      price := WalkPrice(Facing(Contents(), buy), shares);
    }

    method LevelsToFill(buy: bool, shares: int) returns (levels: int)
      ensures levels == Q.LevelsToFill(Facing(Contents(), buy), shares)
    {
      levels := WalkLevels(Facing(Contents(), buy), shares);
    }

    /** Shares executable and their value in ticks. */
    method ExpectedFill(buy: bool, shares: int) returns (filled: int, value: int)
      ensures var lad := Facing(Contents(), buy);
              filled == Q.ExpectedFill(lad, shares) && (shares > 0 ==> value == Q.SweptValue(lad, shares, |lad|))
    {
      filled, value := WalkFill(Facing(Contents(), buy), shares);
    }

    method FillShortfall(buy: bool, shares: int) returns (missing: int)
      ensures missing == Q.Shortfall(Facing(Contents(), buy), shares)
    {
      if shares <= 0 { return 0; }
      var filled, _ := ExpectedFill(buy, shares);
      return shares - filled;
    }

    /** The top `n` levels of a side; those a buy faces are the asks. */
    method CumulativeQty(bid: bool, n: int) returns (sum: int)
      ensures sum == Q.TopDepth(Facing(Contents(), !bid), n)
    {
      sum := WalkTop(Facing(Contents(), !bid), n);
    }
  }

  // ---------------------------------------------------------------- the loops of the walks

  method WalkFillable(lad: seq<Q.Rung>, buy: bool, limit: int) returns (sum: int)
    requires Q.BestFirst(lad, buy)
    ensures sum == Q.Fillable(lad, buy, limit)
  {
    sum := 0;
    var i := 0;
    while i < |lad| && Q.InLimit(buy, lad[i].price, limit)
      invariant i <= |lad| && sum == Q.FillableIn(lad, buy, limit, i)
    {
      sum := sum + lad[i].qty;
      i := i + 1;
    }
    NoneBeyond(lad, buy, limit, i, |lad|);
  }

  method WalkPrice(lad: seq<Q.Rung>, shares: int) returns (price: int)
    ensures price == Q.PriceToFill(lad, shares)
  {
    if shares <= 0 { return 0; }
    var remaining := shares;
    for i := 0 to |lad|
      invariant remaining == shares - Q.Depth(lad, i)
      invariant Q.CoverFrom(lad, shares, i) == Q.CoverFrom(lad, shares, 0)
    {
      remaining := remaining - lad[i].qty;
      if remaining <= 0 { return lad[i].price; }
    }
    return 0;
  }

  method WalkLevels(lad: seq<Q.Rung>, shares: int) returns (levels: int)
    ensures levels == Q.LevelsToFill(lad, shares)
  {
    if shares <= 0 { return 0; }
    var remaining := shares;
    levels := 0;
    for i := 0 to |lad|
      invariant levels == i && remaining == shares - Q.Depth(lad, i)
      invariant Q.CoverFrom(lad, shares, i) == Q.CoverFrom(lad, shares, 0)
    {
      levels := levels + 1;
      remaining := remaining - lad[i].qty;
      if remaining <= 0 { return; }
    }
    return -1;
  }

  method WalkFill(lad: seq<Q.Rung>, shares: int) returns (filled: int, value: int)
    ensures filled == Q.ExpectedFill(lad, shares) && (shares > 0 ==> value == Q.SweptValue(lad, shares, |lad|))
  {
    if shares <= 0 { return 0, 0; }
    var remaining := shares;
    filled, value := 0, 0;
    var i := 0;
    while i < |lad| && remaining > 0
      invariant i <= |lad| && remaining == shares - filled
      invariant filled == Q.SweptShares(lad, shares, i) && value == Q.SweptValue(lad, shares, i)
    {
      var take := Min(remaining, lad[i].qty);
      value := value + lad[i].price * take;
      filled, remaining := filled + take, remaining - take;
      i := i + 1;
    }
    NothingMore(lad, shares, i, |lad|);
  }

  method WalkTop(lad: seq<Q.Rung>, n: int) returns (sum: int)
    ensures sum == Q.TopDepth(lad, n)
  {
    if n <= 0 { return 0; }
    sum := 0;
    var i := 0;
    while i < |lad| && i < n
      invariant i <= |lad| && i <= n && sum == Q.Depth(lad, i)
    {
      sum := sum + lad[i].qty;
      i := i + 1;
    }
  }

  /** Past the first level outside the limit, none is inside it. */
  lemma {:induction false} NoneBeyond(lad: seq<Q.Rung>, buy: bool, limit: int, i: nat, k: nat)
    requires Q.BestFirst(lad, buy)
    requires i <= k <= |lad| && (i < |lad| ==> !Q.InLimit(buy, lad[i].price, limit))
    ensures Q.FillableIn(lad, buy, limit, k) == Q.FillableIn(lad, buy, limit, i)
  {
    if i < k {
      NoneBeyond(lad, buy, limit, i, k - 1);
      assert i < k - 1 ==> Q.Better(buy, lad[i].price, lad[k - 1].price);
    }
  }

  /** Once everything asked for is taken, the rest of the walk takes nothing. */
  lemma {:induction false} NothingMore(lad: seq<Q.Rung>, n: int, i: nat, k: nat)
    requires i <= k <= |lad| && (i < |lad| ==> n <= Q.SweptShares(lad, n, i))
    ensures Q.SweptShares(lad, n, k) == Q.SweptShares(lad, n, i) && Q.SweptValue(lad, n, k) == Q.SweptValue(lad, n, i)
  {
    if i < k {
      NothingMore(lad, n, i, k - 1);
      assert lad[k - 1].price * 0 == 0;
    }
  }
}
