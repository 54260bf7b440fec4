/**
 What each market event does to the book and the tallies, order by order and level by level, in
 every state that a stream of events reaches.
 */
module ItchLaws {
  import opened Numbers
  import opened ItchBook

  /** Every order but those under `refs` is as it was. */
  ghost predicate OtherOrdersSame(b: Book, r: Book, refs: set<int>) {
    forall x | x !in refs :: (x in r.orders <==> x in b.orders) && (x in b.orders ==> r.orders[x] == b.orders[x])
  }

  /** `n` shares more at `price` and `n2` more at `price2`, every other level as it was, and only levels with shares kept. */
  ghost predicate Moved(m: map<int, int>, r: map<int, int>, price: int, n: int, price2: int, n2: int) {
    forall p :: && At(r, p) == At(m, p) + (if p == price then n else 0) + (if p == price2 then n2 else 0)
                && (p in r <==> At(r, p) > 0)
  }

  /** The levels of one side moved; those of the other did not. */
  ghost predicate SideMoved(b: Book, r: Book, bid: bool, price: int, n: int, price2: int, n2: int) {
    if bid then Moved(b.bids, r.bids, price, n, price2, n2) && r.asks == b.asks
    else Moved(b.asks, r.asks, price, n, price2, n2) && r.bids == b.bids
  }

  /** The order under `ref` lost `n` shares, its level the same number, and nothing else changed. */
  ghost predicate IsLowered(b: Book, r: Book, ref: int, n: int)
    requires ref in b.orders
  {
    var o := b.orders[ref];
    && OtherOrdersSame(b, r, {ref})
    && (ref in r.orders <==> n < o.shares)
    && (n < o.shares ==> r.orders[ref].shares == o.shares - n && r.orders[ref] == o.(shares := r.orders[ref].shares))
    && SideMoved(b, r, o.bid, o.price, -n, o.price, 0)
  }

  /** An order rests under `ref`, its level grew by its shares, and nothing else changed. */
  ghost predicate IsAdded(b: Book, r: Book, ref: int, bid: bool, price: int, shares: nat) {
    && OtherOrdersSame(b, r, {ref})
    && ref in r.orders && r.orders[ref] == Resting(bid, price, shares)
    && SideMoved(b, r, bid, price, shares, price, 0)
  }

  /** The shares of `n` under the resting side of `ref`; none for an unknown reference. */
  function Credit(b: Book, p: PerSide, ref: int, n: int): PerSide {
    if ref !in b.orders then p
    else if b.orders[ref].bid then PerSide(p.bid + n, p.ask)
    else PerSide(p.bid, p.ask + n)
  }

  /** What an event of `qty` shares takes from an order. */
  function Takes(b: Book, ref: int, qty: nat): int {
    if ref in b.orders then Min(qty, b.orders[ref].shares) else 0
  }

  function Orphans(b: Book, t: Tally, ref: int): int {
    t.orphans + if ref in b.orders then 0 else 1
  }

  /** Under the invariant a level holds at least what an order resting there holds. */
  lemma LevelCovers(b: Book, lost: seq<Resting>, ref: int)
    requires Matches(b, lost) && ref in b.orders
    ensures var o := b.orders[ref];
            o.shares > 0 && o.price in Levels(b, o.bid) && At(Levels(b, o.bid), o.price) >= o.shares
  {
    var o := b.orders[ref];
    SumRemove(b.orders, ref, Level(o.bid, o.price));
    assert LevelIs(Levels(b, o.bid), o.price, Sum(b.orders, Level(o.bid, o.price)) + Lost(lost, Level(o.bid, o.price)));
  }

  /** Every level that is kept has shares. */
  lemma LevelsPositive(b: Book, lost: seq<Resting>)
    requires Matches(b, lost)
    ensures forall p :: p in b.bids <==> At(b.bids, p) > 0
    ensures forall p :: p in b.asks <==> At(b.asks, p) > 0
  {
    forall bid, p ensures p in Levels(b, bid) <==> At(Levels(b, bid), p) > 0 {
      assert LevelIs(Levels(b, bid), p, Sum(b.orders, Level(bid, p)) + Lost(lost, Level(bid, p)));
    }
    assert Levels(b, true) == b.bids && Levels(b, false) == b.asks;
  }

  lemma TakeLevelLaw(m: map<int, int>, price: int, n: nat)
    requires (forall p :: p in m <==> At(m, p) > 0) && At(m, price) >= n
    ensures Moved(m, TakeLevel(m, price, n), price, 0 - n, price, 0)
  {
  }

  lemma ReduceLaw(b: Book, lost: seq<Resting>, ref: int, qty: nat)
    requires Matches(b, lost) && ref in b.orders
    ensures IsLowered(b, Reduce(b, ref, qty), ref, Min(qty, b.orders[ref].shares))
  {
    var o := b.orders[ref];
    LevelCovers(b, lost, ref);
    LevelsPositive(b, lost);
    TakeLevelLaw(Levels(b, o.bid), o.price, Min(qty, o.shares));
    ReduceIs(b, ref, qty, Min(qty, o.shares));
  }

  lemma ReduceIs(b: Book, ref: int, qty: nat, n: nat)
    requires ref in b.orders && n == Min(qty, b.orders[ref].shares)
    requires var o := b.orders[ref]; Moved(Levels(b, o.bid), TakeLevel(Levels(b, o.bid), o.price, n), o.price, 0 - n, o.price, 0)
    ensures IsLowered(b, Reduce(b, ref, qty), ref, n)
  {
  }

  lemma PutLaw(b: Book, lost: seq<Resting>, ref: int, r: Resting)
    requires Matches(b, lost) && r.shares > 0
    ensures IsAdded(b, Put(b, ref, r), ref, r.bid, r.price, r.shares)
  {
    LevelsPositive(b, lost);
  }

  // ---------------------------------------------------------------- the five events

  /** An add of no shares is ignored; any other rests as it was sent. */
  ghost predicate Adds(s: State, r: State, ref: int, bid: bool, price: int, shares: nat) {
    if shares == 0 then r == s
    else IsAdded(s.book, r.book, ref, bid, price, shares) && r.tally == s.tally.(adds := s.tally.adds + 1)
  }

  /** The order and its level lost `n` shares, if the order is known. */
  ghost predicate Loses(b: Book, r: Book, ref: int, n: int) {
    if ref in b.orders then IsLowered(b, r, ref, n) else r == b
  }

  /** An execution of `qty` takes `min(qty, shares)` from the order and its level, and books it as hit on the resting side. */
  ghost predicate Executes(s: State, r: State, ref: int, qty: nat) {
    && Loses(s.book, r.book, ref, Takes(s.book, ref, qty))
    && r.tally == s.tally.(executes := s.tally.executes + 1, orphans := Orphans(s.book, s.tally, ref),
                           hit := Credit(s.book, s.tally.hit, ref, Takes(s.book, ref, qty)))
  }

  /** A part cancel takes the same and books it as pulled. */
  ghost predicate Cancels(s: State, r: State, ref: int, qty: nat) {
    && Loses(s.book, r.book, ref, Takes(s.book, ref, qty))
    && r.tally == s.tally.(cancels := s.tally.cancels + 1, orphans := Orphans(s.book, s.tally, ref),
                           pulled := Credit(s.book, s.tally.pulled, ref, Takes(s.book, ref, qty)))
  }

  /** A delete removes the whole order and books all of it as pulled. */
  ghost predicate Deletes(s: State, r: State, ref: int) {
    var all := if ref in s.book.orders then s.book.orders[ref].shares else 0;
    && ref !in r.book.orders && Loses(s.book, r.book, ref, all)
    && r.tally == s.tally.(deletes := s.tally.deletes + 1, orphans := Orphans(s.book, s.tally, ref),
                           pulled := Credit(s.book, s.tally.pulled, ref, all))
  }

  /** The order under `ref` is gone, and one of `shares` at `price` rests on its side under `newRef`. */
  ghost predicate IsReplaced(b: Book, r: Book, ref: int, newRef: int, price: int, shares: nat)
    requires ref in b.orders
  {
    var o := b.orders[ref];
    && OtherOrdersSame(b, r, {ref, newRef})
    && newRef in r.orders && r.orders[newRef] == Resting(o.bid, price, shares)
    && (ref != newRef ==> ref !in r.orders)
    && SideMoved(b, r, o.bid, o.price, 0 - o.shares, price, shares)
  }

  /**
   A replace takes the original out whole and rests the new order, with its own price and size, on the
   original's side; down to no shares it only takes out, and the adds counter then loses one.
   */
  ghost predicate Replaces(s: State, r: State, ref: int, newRef: int, price: int, shares: nat) {
    var live := ref in s.book.orders;
    && (if !live then r.book == s.book
        else if shares == 0 then IsLowered(s.book, r.book, ref, s.book.orders[ref].shares)
        else IsReplaced(s.book, r.book, ref, newRef, price, shares))
    && r.tally == s.tally.(replacements := s.tally.replacements + 1, orphans := Orphans(s.book, s.tally, ref),
                           adds := s.tally.adds - if live && shares == 0 then 1 else 0)
  }

  /** What the feed promises of one event. */
  ghost predicate Obeys(s: State, r: State, e: Event) {
    match e
    case AddOrder(ref, bid, price, shares) => Adds(s, r, ref, bid, price, shares)
    case Execute(ref, qty) => Executes(s, r, ref, qty)
    case CancelPart(ref, qty) => Cancels(s, r, ref, qty)
    case DeleteOrder(ref) => Deletes(s, r, ref)
    case ReplaceOrder(ref, newRef, price, shares) => Replaces(s, r, ref, newRef, price, shares)
  }

  lemma LosesLaw(b: Book, lost: seq<Resting>, ref: int, qty: nat)
    requires Matches(b, lost)
    ensures Loses(b, Reduce(b, ref, qty), ref, Takes(b, ref, qty))
  {
    if ref in b.orders { ReduceLaw(b, lost, ref, qty); }
  }

  lemma ExecuteLaw(s: State, lost: seq<Resting>, ref: int, qty: nat)
    requires Matches(s.book, lost)
    ensures Executes(s, OnExecute(s, ref, qty), ref, qty)
  {
    LosesLaw(s.book, lost, ref, qty);
  }

  lemma CancelLaw(s: State, lost: seq<Resting>, ref: int, qty: nat)
    requires Matches(s.book, lost)
    ensures Cancels(s, OnCancel(s, ref, qty), ref, qty)
  {
    LosesLaw(s.book, lost, ref, qty);
  }

  lemma DeleteLaw(s: State, lost: seq<Resting>, ref: int)
    requires Matches(s.book, lost)
    ensures Deletes(s, OnDelete(s, ref), ref)
  {
    LosesLaw(s.book, lost, ref, if ref in s.book.orders then s.book.orders[ref].shares else 0);
  }

  lemma ReplaceLaw(s: State, lost: seq<Resting>, ref: int, newRef: int, price: int, shares: nat)
    requires Matches(s.book, lost)
    ensures Replaces(s, Handle(s, ReplaceOrder(ref, newRef, price, shares)), ref, newRef, price, shares)
  {
    if ref in s.book.orders {
      var o := s.book.orders[ref];
      var mid := Reduce(s.book, ref, o.shares);
      ReduceLaw(s.book, lost, ref, o.shares);
      ReduceKeeps(s.book, lost, ref, o.shares);
      if shares > 0 {
        PutLaw(mid, lost, newRef, Resting(o.bid, price, shares));
        MovedTwice(s.book, mid, Put(mid, newRef, Resting(o.bid, price, shares)), o.bid, o.price, 0 - o.shares, price, shares);
      }
    }
  }

  lemma EventLaw(s: State, lost: seq<Resting>, e: Event)
    requires Matches(s.book, lost)
    ensures Obeys(s, Handle(s, e), e)
  {
    match e
    case AddOrder(ref, bid, price, shares) =>
      if shares > 0 { PutLaw(s.book, lost, ref, Resting(bid, price, shares)); }
    case ReplaceOrder(ref, newRef, price, shares) => ReplaceLaw(s, lost, ref, newRef, price, shares);
    case Execute(ref, qty) => ExecuteLaw(s, lost, ref, qty);
    case CancelPart(ref, qty) => CancelLaw(s, lost, ref, qty);
    case DeleteOrder(ref) => DeleteLaw(s, lost, ref);
  }

  /** After every stream from an empty book, whatever it contained, the next event does what the feed promises. */
  lemma EveryEventObeys(s: State, es: seq<Event>, e: Event)
    requires Fresh(s)
    ensures Obeys(Run(s, es), Handle(Run(s, es), e), e)
  {
    StreamFromEmpty(s, es);
    EventLaw(Run(s, es), RunTrace(s, NO_TRACE, es).lost, e);
  }

  lemma MovedTwice(b: Book, mid: Book, r: Book, bid: bool, price: int, n: int, price2: int, n2: int)
    requires SideMoved(b, mid, bid, price, n, price, 0) && SideMoved(mid, r, bid, price2, n2, price2, 0)
    ensures SideMoved(b, r, bid, price, n, price2, n2)
  {
  }
}
