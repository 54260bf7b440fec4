/**
 `FlatOrderBook` of `orderbook/orderbook_flat.hpp`: quantities in arrays indexed by price, an
 occupancy bitmap per side and two cursors. Every operation is proved against `BookSpec`.
 */
module FlatBook {
  import opened Numbers
  import opened Bitmap
  import opened BookSpec

  // ---------------------------------------------------------------- one side of the book

  /** A bit is set exactly on the levels that hold shares. */
  ghost predicate SideOk(qty: seq<int>, words: seq<Word>) {
    && |qty| == 64 * |words|
    && (forall p | 0 <= p < |qty| :: qty[p] >= 0)
    && forall p {:trigger Has(words, p)} | 0 <= p < |qty| :: Has(words, p) <==> qty[p] > 0
  }

  ghost predicate IsBestBid(qty: seq<int>, best: int) {
    && -1 <= best < |qty| && (best >= 0 ==> qty[best] > 0)
    && forall p | best < p < |qty| :: qty[p] <= 0
  }

  ghost predicate IsBestAsk(qty: seq<int>, best: int) {
    && 0 <= best <= |qty| && (best < |qty| ==> qty[best] > 0)
    && forall p | 0 <= p < best :: qty[p] <= 0
  }

  ghost function AskLevels(qty: seq<int>): Levels {
    map p | 0 <= p < |qty| && qty[p] > 0 :: qty[p]
  }

  ghost function AtRank(qty: seq<int>, r: int): int {
    if -|qty| < r <= 0 then qty[-r] else 0
  }

  /** Bids by rank, the negated price. */
  ghost function BidLevels(qty: seq<int>): Levels {
    map r | -|qty| < r <= 0 && AtRank(qty, r) > 0 :: AtRank(qty, r)
  }

  lemma AskAdd(qty: seq<int>, p: int, q: int)
    requires 0 <= p < |qty| && qty[p] >= 0 && q > 0
    ensures AskLevels(qty[p := qty[p] + q]) == Add(AskLevels(qty), p, q)
  {
  }

  lemma BidAdd(qty: seq<int>, p: int, q: int)
    requires 0 <= p < |qty| && qty[p] >= 0 && q > 0
    ensures BidLevels(qty[p := qty[p] + q]) == Add(BidLevels(qty), -p, q)
  {
  }

  lemma AskTake(qty: seq<int>, p: int, q: int)
    requires 0 <= p < |qty| && 0 < q <= qty[p]
    ensures p in AskLevels(qty) && AskLevels(qty[p := qty[p] - q]) == Take(AskLevels(qty), p, q)
  {
  }

  lemma BidTake(qty: seq<int>, p: int, q: int)
    requires 0 <= p < |qty| && 0 < q <= qty[p]
    ensures -p in BidLevels(qty) && BidLevels(qty[p := qty[p] - q]) == Take(BidLevels(qty), -p, q)
  {
    assert -p in BidLevels(qty);
  }

  lemma AskDrop(qty: seq<int>, p: int, q: int)
    requires 0 <= p < |qty| && qty[p] >= 0 && q > 0
    ensures AskLevels(qty[p := qty[p] - Min(q, qty[p])]) == Drop(AskLevels(qty), p, q)
  {
    if qty[p] > 0 {
      AskTake(qty, p, Min(q, qty[p]));
      assert AskLevels(qty)[p] == qty[p];
    } else {
      assert qty[p := 0] == qty && p !in AskLevels(qty);
    }
  }

  lemma BidDrop(qty: seq<int>, p: int, q: int)
    requires 0 <= p < |qty| && qty[p] >= 0 && q > 0
    ensures BidLevels(qty[p := qty[p] - Min(q, qty[p])]) == Drop(BidLevels(qty), -p, q)
  {
    if qty[p] > 0 {
      BidTake(qty, p, Min(q, qty[p]));
      assert BidLevels(qty)[-p] == qty[p];
    } else {
      assert qty[p := 0] == qty && -p !in BidLevels(qty);
    }
  }

  lemma BestAskIsLowest(qty: seq<int>, best: int)
    requires IsBestAsk(qty, best)
    ensures best == |qty| <==> AskLevels(qty) == map[]
    ensures best < |qty| ==> Lowest(AskLevels(qty)) == best && AskLevels(qty)[best] == qty[best]
  {
    if best < |qty| {
      assert best in AskLevels(qty);
    }
  }

  lemma BestBidIsLowest(qty: seq<int>, best: int)
    requires IsBestBid(qty, best)
    ensures best == -1 <==> BidLevels(qty) == map[]
    ensures best >= 0 ==> Lowest(BidLevels(qty)) == -best && BidLevels(qty)[-best] == qty[best]
  {
    if best >= 0 {
      assert -best in BidLevels(qty);
    }
  }

  /** An added level is the best one, or the old best one still is. */
  lemma BestBidAfterAdd(qty: seq<int>, p: int, q: int, best: int)
    requires 0 <= p < |qty| && qty[p] >= 0 && q > 0 && IsBestBid(qty, best)
    ensures IsBestBid(qty[p := qty[p] + q], if p > best then p else best)
  {
  }

  lemma BestAskAfterAdd(qty: seq<int>, p: int, q: int, best: int)
    requires 0 <= p < |qty| && qty[p] >= 0 && q > 0 && IsBestAsk(qty, best)
    ensures IsBestAsk(qty[p := qty[p] + q], if p < best then p else best)
  {
  }

  /** `qty[p] += q`, marking a level that was empty. */
  method AddAt(qty: array<int>, bits: array<Word>, p: int, q: int)
    requires SideOk(qty[..], bits[..]) && 0 <= p < qty.Length && q > 0
    modifies qty, bits
    ensures qty[..] == old(qty[..])[p := old(qty[p]) + q]
    ensures SideOk(qty[..], bits[..])
  {
    if qty[p] == 0 {
      SetBit(bits, p);
    }
    qty[p] := qty[p] + q;
  }

  /** `qty[p] -= q`, unmarking a level that becomes empty. */
  method DropAt(qty: array<int>, bits: array<Word>, p: int, q: int)
    requires SideOk(qty[..], bits[..]) && 0 <= p < qty.Length && 0 <= q <= qty[p]
    modifies qty, bits
    ensures qty[..] == old(qty[..])[p := old(qty[p]) - q]
    ensures SideOk(qty[..], bits[..])
  {
    qty[p] := qty[p] - q;
    if qty[p] == 0 {
      ClearBit(bits, p);
    }
  }

  /** From a cursor with nothing better than it, the scan finds the best level of the side. */
  lemma ScanFindsBestBid(qty: seq<int>, words: seq<Word>, from: int, r: int)
    requires SideOk(qty, words) && -1 <= from < |qty| && IsHighest(words, from, r)
    requires forall p | from < p < |qty| :: qty[p] <= 0
    ensures IsBestBid(qty, r)
  {
    forall p | r < p <= from && 0 <= p ensures qty[p] <= 0 {
      assert !Has(words, p);
    }
  }

  lemma ScanFindsBestAsk(qty: seq<int>, words: seq<Word>, from: int, r: int)
    requires SideOk(qty, words) && 0 <= from <= |qty| && IsLowest(words, from, r)
    requires forall p | 0 <= p < from :: qty[p] <= 0
    ensures IsBestAsk(qty, r)
  {
    forall p | from <= p < r ensures qty[p] <= 0 {
      assert !Has(words, p);
    }
  }

  // ---------------------------------------------------------------- the book

  class FlatOrderBook {
    const levels: nat
    const bidQty: array<int>
    const askQty: array<int>
    const bidBits: array<Word>
    const askBits: array<Word>
    var bestBid: int
    var bestAsk: int
    var trades: nat
    var orders: map<nat, OrderRef>

    ghost predicate Shape() {
      && bidQty.Length == askQty.Length == levels
      && 64 * bidBits.Length == 64 * askBits.Length == levels
      && bidQty != askQty && bidBits != askBits
    }

    /** Bitmaps agree with the quantities and the cursors are the true best levels or the sentinels. */
    ghost predicate Valid()
      reads this, bidQty, askQty, bidBits, askBits
    {
      && Shape()
      && SideOk(bidQty[..], bidBits[..]) && SideOk(askQty[..], askBits[..])
      && IsBestBid(bidQty[..], bestBid) && IsBestAsk(askQty[..], bestAsk)
      && forall id | id in orders :: Acceptable(levels, orders[id].price, orders[id].qty)
    }

    ghost function View(): Book
      reads this, bidQty, askQty
    {
      Book(BidLevels(bidQty[..]), AskLevels(askQty[..]), trades)
    }

    ghost function State(): Tracked
      reads this, bidQty, askQty
    {
      Tracked(View(), orders)
    }

    constructor (words: nat)
      ensures Valid() && State() == Tracked(Book(map[], map[], 0), map[])
      ensures levels == 64 * words
      ensures fresh(bidQty) && fresh(askQty) && fresh(bidBits) && fresh(askBits)
    {
      levels := 64 * words;
      bidQty := new int[64 * words](_ => 0);
      askQty := new int[64 * words](_ => 0);
      bidBits := new Word[words](_ => ZERO);
      askBits := new Word[words](_ => ZERO);
      bestBid, bestAsk, trades, orders := -1, 64 * words, 0, map[];
    }

    lemma CrossedMeansCursorsMeet()
      requires Valid()
      ensures Crossed(View()) <==> bestBid != -1 && bestAsk != levels && bestBid >= bestAsk
    {
      BestBidIsLowest(bidQty[..], bestBid);
      BestAskIsLowest(askQty[..], bestAsk);
    }

    /** Take `fill` from the best bid and move the cursor if that emptied the level. */
    method FillBid(fill: int)
      requires Shape() && SideOk(bidQty[..], bidBits[..]) && IsBestBid(bidQty[..], bestBid)
      requires bestBid >= 0 && 0 < fill <= bidQty[bestBid]
      modifies this`bestBid, bidQty, bidBits
      ensures SideOk(bidQty[..], bidBits[..]) && IsBestBid(bidQty[..], bestBid)
      ensures BidLevels(bidQty[..]) == Drop(old(BidLevels(bidQty[..])), -old(bestBid), fill)
    {
      BidTake(bidQty[..], bestBid, fill);
      BestBidIsLowest(bidQty[..], bestBid);
      DropAt(bidQty, bidBits, bestBid, fill);
      if bidQty[bestBid] == 0 {
        ghost var from := bestBid;
        bestBid := ScanDown(bidBits, bestBid);
        ScanFindsBestBid(bidQty[..], bidBits[..], from, bestBid);
      }
    }

    method FillAsk(fill: int)
      requires Shape() && SideOk(askQty[..], askBits[..]) && IsBestAsk(askQty[..], bestAsk)
      requires bestAsk < levels && 0 < fill <= askQty[bestAsk]
      modifies this`bestAsk, askQty, askBits
      ensures SideOk(askQty[..], askBits[..]) && IsBestAsk(askQty[..], bestAsk)
      ensures AskLevels(askQty[..]) == Drop(old(AskLevels(askQty[..])), old(bestAsk), fill)
    {
      AskTake(askQty[..], bestAsk, fill);
      BestAskIsLowest(askQty[..], bestAsk);
      DropAt(askQty, askBits, bestAsk, fill);
      if askQty[bestAsk] == 0 {
        ghost var from := bestAsk;
        bestAsk := ScanUp(askBits, bestAsk);
        ScanFindsBestAsk(askQty[..], askBits[..], from, bestAsk);
      }
    }

    /** One round of the matching loop. */
    method MatchOnce()
      requires Valid() && bestBid != -1 && bestAsk != levels && bestBid >= bestAsk
      modifies this`bestBid, this`bestAsk, this`trades, bidQty, askQty, bidBits, askBits
      ensures Valid()
      ensures Crossed(old(View())) && View() == MatchStep(old(View()))
    {
      CrossedMeansCursorsMeet();
      BestBidIsLowest(bidQty[..], bestBid);
      BestAskIsLowest(askQty[..], bestAsk);
      var fill := Min(bidQty[bestBid], askQty[bestAsk]);
      FillBid(fill);
      FillAsk(fill);
      trades := trades + 1;
    }

    /** `try_match`: match until the cursors no longer meet. */
    method TryMatch()
      requires Valid()
      modifies this`bestBid, this`bestAsk, this`trades, bidQty, askQty, bidBits, askBits
      ensures Valid() && View() == Match(old(View()))
    {
      CrossedMeansCursorsMeet();
      while bestBid != -1 && bestAsk != levels && bestBid >= bestAsk
        invariant Valid()
        invariant Match(View()) == Match(old(View()))
        invariant Crossed(View()) <==> bestBid != -1 && bestAsk != levels && bestBid >= bestAsk
        decreases |View().bids| + |View().asks|
      {
        ghost var before := View();
        MatchOnce();
        CrossedMeansCursorsMeet();
        MatchSame(before, View());
        MatchStepShrinks(before);
      }
      MatchUnfolds(View());
    }

    /** The resting part of an add: quantity, bit and cursor, before matching. */
    method RestBid(price: int, qty: int)
      requires Valid() && Acceptable(levels, price, qty)
      modifies this`bestBid, bidQty, bidBits
      ensures Valid() && View() == old(View()).(bids := Add(old(View().bids), -price, qty))
    {
      BidAdd(bidQty[..], price, qty);
      BestBidAfterAdd(bidQty[..], price, qty, bestBid);
      ghost var was := bidQty[..];
      AddAt(bidQty, bidBits, price, qty);
      assert bidQty[..] == was[price := was[price] + qty];
      if price > bestBid { bestBid := price; }
    }

    method RestAsk(price: int, qty: int)
      requires Valid() && Acceptable(levels, price, qty)
      modifies this`bestAsk, askQty, askBits
      ensures Valid() && View() == old(View()).(asks := Add(old(View().asks), price, qty))
    {
      AskAdd(askQty[..], price, qty);
      BestAskAfterAdd(askQty[..], price, qty, bestAsk);
      ghost var was := askQty[..];
      AddAt(askQty, askBits, price, qty);
      assert askQty[..] == was[price := was[price] + qty];
      if price < bestAsk { bestAsk := price; }
    }

    method RestAndMatch(price: int, qty: int, isBuy: bool)
      requires Valid() && Acceptable(levels, price, qty)
      modifies this`bestBid, this`bestAsk, this`trades, bidQty, askQty, bidBits, askBits
      ensures Valid() && View() == AddSide(old(View()), price, qty, isBuy)
    {
      if isBuy {
        RestBid(price, qty);
      } else {
        RestAsk(price, qty);
      }
      TryMatch();
    }

    method AddBuyOrder(price: int, qty: int) returns (ok: bool)
      requires Valid()
      modifies this`bestBid, this`bestAsk, this`trades, bidQty, askQty, bidBits, askBits
      ensures Valid()
      ensures (State(), ok) == Apply(old(State()), levels, OpAdd(price, qty, true))
    {
      if price < 0 || price >= levels || qty <= 0 { return false; }
      RestAndMatch(price, qty, true);
      return true;
    }

    method AddSellOrder(price: int, qty: int) returns (ok: bool)
      requires Valid()
      modifies this`bestBid, this`bestAsk, this`trades, bidQty, askQty, bidBits, askBits
      ensures Valid()
      ensures (State(), ok) == Apply(old(State()), levels, OpAdd(price, qty, false))
    {
      if price < 0 || price >= levels || qty <= 0 { return false; }
      RestAndMatch(price, qty, false);
      return true;
    }

    method SubmitWithId(id: nat, price: int, qty: int, isBuy: bool) returns (ok: bool)
      requires Valid()
      modifies this, bidQty, askQty, bidBits, askBits
      ensures Valid()
      ensures (State(), ok) == Apply(old(State()), levels, OpSubmit(id, price, qty, isBuy))
    {
      if price < 0 || price >= levels || qty <= 0 { return false; }
      if id in orders { return false; }
      orders := orders[id := OrderRef(price, qty, isBuy)];
      RestAndMatch(price, qty, isBuy);
      return true;
    }

    method CancelBid(price: int, qty: int)
      requires Shape() && SideOk(bidQty[..], bidBits[..]) && IsBestBid(bidQty[..], bestBid)
      requires Acceptable(levels, price, qty)
      modifies this`bestBid, bidQty, bidBits
      ensures SideOk(bidQty[..], bidBits[..]) && IsBestBid(bidQty[..], bestBid)
      ensures BidLevels(bidQty[..]) == Drop(old(BidLevels(bidQty[..])), -price, qty)
    {
      var drop := Min(qty, bidQty[price]);
      BidDrop(bidQty[..], price, qty);
      DropAt(bidQty, bidBits, price, drop);
      ghost var from := bestBid;
      bestBid := ScanDown(bidBits, bestBid);
      ScanFindsBestBid(bidQty[..], bidBits[..], from, bestBid);
    }

    method CancelAsk(price: int, qty: int)
      requires Shape() && SideOk(askQty[..], askBits[..]) && IsBestAsk(askQty[..], bestAsk)
      requires Acceptable(levels, price, qty)
      modifies this`bestAsk, askQty, askBits
      ensures SideOk(askQty[..], askBits[..]) && IsBestAsk(askQty[..], bestAsk)
      ensures AskLevels(askQty[..]) == Drop(old(AskLevels(askQty[..])), price, qty)
    {
      var drop := Min(qty, askQty[price]);
      AskDrop(askQty[..], price, qty);
      DropAt(askQty, askBits, price, drop);
      ghost var from := bestAsk;
      bestAsk := ScanUp(askBits, bestAsk);
      ScanFindsBestAsk(askQty[..], askBits[..], from, bestAsk);
    }

    method Withdraw(o: OrderRef)
      requires Valid() && Acceptable(levels, o.price, o.qty)
      modifies this`bestBid, this`bestAsk, bidQty, askQty, bidBits, askBits
      ensures Valid() && View() == DropOrder(old(View()), o)
    {
      if o.isBuy {
        CancelBid(o.price, o.qty);
      } else {
        CancelAsk(o.price, o.qty);
      }
    }

    method CancelOrder(id: nat) returns (ok: bool)
      requires Valid()
      modifies this, bidQty, askQty, bidBits, askBits
      ensures Valid()
      ensures (State(), ok) == Apply(old(State()), levels, OpCancel(id))
    {
      if id !in orders { return false; }
      var o := orders[id];
      orders := orders - {id};
      Withdraw(o);
      return true;
    }

    method ModifyOrder(id: nat, price: int, qty: int) returns (ok: bool)
      requires Valid()
      modifies this, bidQty, askQty, bidBits, askBits
      ensures Valid()
      ensures (State(), ok) == Apply(old(State()), levels, OpModify(id, price, qty))
    {
      if id !in orders { return false; }
      var isBuy := orders[id].isBuy;
      var cancelled := CancelOrder(id);
      ok := SubmitWithId(id, price, qty, isBuy);
    }
  }

  method Perform(book: FlatOrderBook, op: Op) returns (ok: bool)
    requires book.Valid()
    modifies book, book.bidQty, book.askQty, book.bidBits, book.askBits
    ensures book.Valid()
    ensures (book.State(), ok) == Apply(old(book.State()), book.levels, op)
  {
    match op
    case OpAdd(price, qty, isBuy) =>
      if isBuy { ok := book.AddBuyOrder(price, qty); } else { ok := book.AddSellOrder(price, qty); }
    case OpSubmit(id, price, qty, isBuy) => ok := book.SubmitWithId(id, price, qty, isBuy);
    case OpCancel(id) => ok := book.CancelOrder(id);
    case OpModify(id, price, qty) => ok := book.ModifyOrder(id, price, qty);
  }

  /**
   Any run of the flat book: it stays valid and uncrossed, and trades plus occupied levels never
   exceed the accepted submissions.
   */
  method Replay(words: nat, ops: seq<Op>) returns (book: FlatOrderBook)
    ensures book.Valid() && book.levels == 64 * words
    ensures var start := Tracked(Book(map[], map[], 0), map[]);
            && book.State() == RunOps(start, 64 * words, ops)
            && !Crossed(book.View())
            && book.trades + |book.View().bids| + |book.View().asks| <= Accepted(start, 64 * words, ops)
  {
    book := new FlatOrderBook(words);
    ghost var start := book.State();
    assert ops[0..] == ops;
    for k := 0 to |ops|
      invariant book.Valid() && book.levels == 64 * words
      invariant RunOps(book.State(), 64 * words, ops[k..]) == RunOps(start, 64 * words, ops)
      invariant fresh(book) && fresh(book.bidQty) && fresh(book.askQty) && fresh(book.bidBits) && fresh(book.askBits)
    {
      var ok := Perform(book, ops[k]);
      assert ops[k..][1..] == ops[k + 1..];
    }
    RunBound(start, 64 * words, ops);
  }

  // ---------------------------------------------------------------- the map book

  /** `ref::MapOrderBook` of `orderbook/orderbook_flat.cpp`. */
  class MapOrderBook {
    var bids: Levels
    var asks: Levels
    var trades: nat

    ghost function View(): Book
      reads this
    {
      Book(bids, asks, trades)
    }

    constructor ()
      ensures View() == Book(map[], map[], 0)
    {
      bids, asks, trades := map[], map[], 0;
    }

    method TryMatch()
      modifies this
      ensures View() == Match(old(View()))
    {
      while bids != map[] && asks != map[]
        invariant Match(View()) == Match(old(View()))
        decreases |bids| + |asks|
      {
        var bb, ba := Lowest(bids), Lowest(asks);
        if -bb < ba { break; }
        var fill := Min(bids[bb], asks[ba]);
        ghost var before := View();
        bids, asks, trades := Take(bids, bb, fill), Take(asks, ba, fill), trades + 1;
        MatchSame(before, View());
        MatchStepShrinks(before);
      }
      MatchUnfolds(View());
    }

    method AddBuyOrder(price: int, qty: int)
      modifies this
      ensures View() == AddBuy(old(View()), price, qty)
    {
      bids := Add(bids, -price, qty);
      TryMatch();
    }

    method AddSellOrder(price: int, qty: int)
      modifies this
      ensures View() == AddSell(old(View()), price, qty)
    {
      asks := Add(asks, price, qty);
      TryMatch();
    }
  }

  /**
   The flat book refines the map book: fed the same stream of in-range adds they hold the same
   quantity at every level, the same best prices and the same trade count.
   */
  method RunBoth(words: nat, ops: seq<Op>) returns (flat: FlatOrderBook, ref: MapOrderBook)
    requires forall k | 0 <= k < |ops| :: ops[k].OpAdd? && Acceptable(64 * words, ops[k].price, ops[k].qty)
    ensures flat.Valid() && flat.View() == ref.View()
    ensures forall p | 0 <= p < 64 * words :: flat.levels == 64 * words
                                              && flat.bidQty[p] == Qty(ref.bids, -p) && flat.askQty[p] == Qty(ref.asks, p)
    ensures flat.bestBid == (if ref.bids == map[] then -1 else -Lowest(ref.bids))
    ensures flat.bestAsk == (if ref.asks == map[] then 64 * words else Lowest(ref.asks))
    ensures flat.trades == ref.trades
  {
    flat := new FlatOrderBook(words);
    ref := new MapOrderBook();
    for k := 0 to |ops|
      invariant flat.Valid() && flat.levels == 64 * words && flat.View() == ref.View()
      invariant fresh(flat) && fresh(ref) && fresh(flat.bidQty) && fresh(flat.askQty)
      invariant fresh(flat.bidBits) && fresh(flat.askBits)
    {
      AddToBoth(flat, ref, ops[k]);
    }
    BooksAgree(flat, ref);
  }

  method AddToBoth(flat: FlatOrderBook, ref: MapOrderBook, op: Op)
    requires flat.Valid() && flat.View() == ref.View() && op.OpAdd? && Acceptable(flat.levels, op.price, op.qty)
    modifies ref, flat`bestBid, flat`bestAsk, flat`trades, flat.bidQty, flat.askQty, flat.bidBits, flat.askBits
    ensures flat.Valid() && flat.View() == ref.View()
  {
    if op.isBuy {
      var ok := flat.AddBuyOrder(op.price, op.qty);
      ref.AddBuyOrder(op.price, op.qty);
    } else {
      var ok := flat.AddSellOrder(op.price, op.qty);
      ref.AddSellOrder(op.price, op.qty);
    }
  }

  /** What equal views mean to a reader of either book: the same quantities, best prices and trade count. */
  lemma BooksAgree(flat: FlatOrderBook, ref: MapOrderBook)
    requires flat.Valid() && flat.View() == ref.View()
    ensures forall p | 0 <= p < flat.levels ::
              flat.bidQty[p] == Qty(ref.bids, -p) && flat.askQty[p] == Qty(ref.asks, p)
    ensures flat.bestBid == (if ref.bids == map[] then -1 else -Lowest(ref.bids))
    ensures flat.bestAsk == (if ref.asks == map[] then flat.levels else Lowest(ref.asks))
    ensures flat.trades == ref.trades
  {
    BestBidIsLowest(flat.bidQty[..], flat.bestBid);
    BestAskIsLowest(flat.askQty[..], flat.bestAsk);
    QuantitiesAgree(flat, ref);
  }

  lemma QuantitiesAgree(flat: FlatOrderBook, ref: MapOrderBook)
    requires flat.Valid() && flat.View() == ref.View()
    ensures forall p | 0 <= p < flat.levels ::
              flat.bidQty[p] == Qty(ref.bids, -p) && flat.askQty[p] == Qty(ref.asks, p)
  {
    forall p | 0 <= p < flat.levels
      ensures flat.bidQty[p] == Qty(ref.bids, -p) && flat.askQty[p] == Qty(ref.asks, p)
    {
      assert -p in BidLevels(flat.bidQty[..]) <==> flat.bidQty[..][p] > 0;
      assert p in AskLevels(flat.askQty[..]) <==> flat.askQty[..][p] > 0;
    }
  }
}
