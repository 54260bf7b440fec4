/**
 The reconstructed market book of `itch-parser/itch_book.hpp`: a map of resting orders and two maps of
 price-level totals that every event updates in lockstep, with the audit that compares them.
 Prices are integer ticks.
 */
module ItchBook {
  import opened Ordered

  datatype Resting = Resting(bid: bool, price: int, shares: nat)

  datatype Book = Book(orders: map<int, Resting>, bids: map<int, int>, asks: map<int, int>)

  datatype PerSide = PerSide(bid: int, ask: int)

  /** The handler's event counters and its executed and withdrawn shares by resting side. */
  datatype Tally = Tally(
    adds: int, executes: nat, cancels: nat, deletes: nat, replacements: nat, orphans: nat,
    hit: PerSide, pulled: PerSide)

  datatype Event =
    | AddOrder(ref: int, bid: bool, price: int, shares: nat)
    | Execute(ref: int, shares: nat)
    | CancelPart(ref: int, shares: nat)
    | DeleteOrder(ref: int)
    | ReplaceOrder(ref: int, newRef: int, price: int, shares: nat)

  datatype State = State(book: Book, tally: Tally)

  const NO_SHARES := PerSide(0, 0)
  const EMPTY_BOOK := Book(map[], map[], map[])
  const EMPTY := State(EMPTY_BOOK, Tally(0, 0, 0, 0, 0, 0, NO_SHARES, NO_SHARES))

  function Of(p: PerSide, bid: bool): int {
    if bid then p.bid else p.ask
  }

  function Plus(p: PerSide, bid: bool, n: int): PerSide {
    if bid then p.(bid := p.bid + n) else p.(ask := p.ask + n)
  }

  function Levels(b: Book, bid: bool): map<int, int> {
    if bid then b.bids else b.asks
  }

  function WithLevels(b: Book, bid: bool, m: map<int, int>): Book {
    if bid then b.(bids := m) else b.(asks := m)
  }

  function At(m: map<int, int>, p: int): int {
    if p in m then m[p] else 0
  }

  // ---------------------------------------------------------------- events on the book

  function Less(r: Resting, qty: nat): nat {
    if qty < r.shares then qty else r.shares
  }

  function TakeLevel(m: map<int, int>, p: int, dec: nat): map<int, int> {
    if p !in m then m else if m[p] - dec <= 0 then m - {p} else m[p := m[p] - dec]
  }

  /** `reduce_`. */
  function Reduce(b: Book, ref: int, qty: nat): Book {
    if ref !in b.orders then b
    else
      var r := b.orders[ref];
      var dec := Less(r, qty);
      var left := WithLevels(b, r.bid, TakeLevel(Levels(b, r.bid), r.price, dec));
      left.(orders := if r.shares == dec then b.orders - {ref} else b.orders[ref := r.(shares := r.shares - dec)])
  }

  function Put(b: Book, ref: int, r: Resting): Book {
    var m := Levels(b, r.bid);
    WithLevels(b, r.bid, m[r.price := At(m, r.price) + r.shares]).(orders := b.orders[ref := r])
  }

  /** What of an order an event may take: nothing for an unknown reference. */
  function Taken(b: Book, ref: int, qty: nat): nat {
    if ref in b.orders then Less(b.orders[ref], qty) else 0
  }

  function TookSide(b: Book, ref: int): bool {
    ref in b.orders && b.orders[ref].bid
  }

  function Orphan(t: Tally, b: Book, ref: int): Tally {
    if ref in b.orders then t else t.(orphans := t.orphans + 1)
  }

  function OnAdd(s: State, ref: int, bid: bool, price: int, shares: nat): State {
    if shares == 0 then s
    else State(Put(s.book, ref, Resting(bid, price, shares)), s.tally.(adds := s.tally.adds + 1))
  }

  function OnExecute(s: State, ref: int, qty: nat): State {
    var t := Orphan(s.tally, s.book, ref);
    State(Reduce(s.book, ref, qty),
          t.(executes := t.executes + 1, hit := Plus(t.hit, TookSide(s.book, ref), Taken(s.book, ref, qty))))
  }

  function OnCancel(s: State, ref: int, qty: nat): State {
    var t := Orphan(s.tally, s.book, ref);
    State(Reduce(s.book, ref, qty),
          t.(cancels := t.cancels + 1, pulled := Plus(t.pulled, TookSide(s.book, ref), Taken(s.book, ref, qty))))
  }

  function OnDelete(s: State, ref: int): State {
    var t := Orphan(s.tally, s.book, ref);
    var all := if ref in s.book.orders then s.book.orders[ref].shares else 0;
    State(Reduce(s.book, ref, all),
          t.(deletes := t.deletes + 1, pulled := Plus(t.pulled, TookSide(s.book, ref), all)))
  }

  function OnReplace(s: State, ref: int, newRef: int, price: int, shares: nat): State {
    var t := Orphan(s.tally, s.book, ref);
    if ref !in s.book.orders then State(s.book, t.(replacements := t.replacements + 1))
    else
      var r := s.book.orders[ref];
      var s' := OnAdd(s.(book := Reduce(s.book, ref, r.shares)), newRef, r.bid, price, shares);
      s'.(tally := s'.tally.(adds := s'.tally.adds - 1, replacements := s'.tally.replacements + 1))
  }

  function Handle(s: State, e: Event): State {
    match e
    case AddOrder(ref, bid, price, shares) => OnAdd(s, ref, bid, price, shares)
    case Execute(ref, shares) => OnExecute(s, ref, shares)
    case CancelPart(ref, shares) => OnCancel(s, ref, shares)
    case DeleteOrder(ref) => OnDelete(s, ref)
    case ReplaceOrder(ref, newRef, price, shares) => OnReplace(s, ref, newRef, price, shares)
  }

  // ---------------------------------------------------------------- sums over the orders

  /** Which shares are added up: those at one level, or a whole side. */
  datatype Where = Level(bid: bool, price: int) | Side(bid: bool)

  function Part(r: Resting, w: Where): nat {
    if r.bid != w.bid || (w.Level? && r.price != w.price) then 0 else r.shares
  }

  function Sum(orders: map<int, Resting>, w: Where): nat
    decreases |orders|
  {
    if orders.Keys == {} then 0
    else
      var k := Least(orders.Keys);
      Shrinks(orders, k);
      Part(orders[k], w) + Sum(orders - {k}, w)
  }

  lemma Shrinks(orders: map<int, Resting>, k: int)
    requires k in orders
    ensures |orders - {k}| < |orders|
  {
    assert (orders - {k}).Keys == orders.Keys - {k};
  }

  /** An order's part can be split off the sum, whichever order it is. */
  lemma {:induction false} SumRemove(orders: map<int, Resting>, k: int, w: Where)
    requires k in orders
    ensures Sum(orders, w) == Part(orders[k], w) + Sum(orders - {k}, w)
    decreases |orders|
  {
    var l := Least(orders.Keys);
    if l != k {
      Shrinks(orders, l);
      SumRemove(orders - {l}, k, w);
      LeastStays(orders, k, l);
      assert orders - {l} - {k} == orders - {k} - {l};
    }
  }

  lemma LeastStays(orders: map<int, Resting>, k: int, l: int)
    requires k in orders && l in orders && l != k && l == Least(orders.Keys)
    ensures (orders - {k}).Keys != {} && Least((orders - {k}).Keys) == l
  {
    assert l in (orders - {k}).Keys;
  }

  lemma SumPut(orders: map<int, Resting>, k: int, r: Resting, w: Where)
    ensures Sum(orders[k := r], w) == Part(r, w) + Sum(orders - {k}, w)
  {
    SumRemove(orders[k := r], k, w);
    assert orders[k := r] - {k} == orders - {k};
  }

  lemma SumWithout(orders: map<int, Resting>, k: int, w: Where)
    requires k !in orders
    ensures Sum(orders - {k}, w) == Sum(orders, w)
  {
    assert orders - {k} == orders;
  }

  // ---------------------------------------------------------------- lockstep

  /** Shares of orders that were overwritten while live; the level totals still carry them. */
  function Lost(lost: seq<Resting>, w: Where): nat {
    if lost == [] then 0 else Lost(lost[..|lost| - 1], w) + Part(lost[|lost| - 1], w)
  }

  ghost predicate LevelIs(m: map<int, int>, p: int, n: int) {
    At(m, p) == n && (p in m <==> n > 0)
  }

  /** Every level total is the sum of the orders resting there plus what was overwritten there. */
  ghost predicate Matches(b: Book, lost: seq<Resting>) {
    && (forall ref | ref in b.orders :: b.orders[ref].shares > 0)
    && (forall r | r in lost :: r.shares > 0)
    && (forall bid, p :: LevelIs(Levels(b, bid), p, Sum(b.orders, Level(bid, p)) + Lost(lost, Level(bid, p))))
  }

  /** The two structures agree: what the audit is for. */
  ghost predicate Lockstep(b: Book) {
    && (forall ref | ref in b.orders :: b.orders[ref].shares > 0)
    && (forall bid, p :: LevelIs(Levels(b, bid), p, Sum(b.orders, Level(bid, p))))
  }

  lemma ReducedLevel(b: Book, lost: seq<Resting>, ref: int, qty: nat, bid: bool, p: int)
    requires Matches(b, lost) && ref in b.orders
    ensures var b' := Reduce(b, ref, qty);
            LevelIs(Levels(b', bid), p, Sum(b'.orders, Level(bid, p)) + Lost(lost, Level(bid, p)))
  {
    var r, w := b.orders[ref], Level(bid, p);
    SumRemove(b.orders, ref, w);
    if r.shares != Less(r, qty) {
      SumPut(b.orders, ref, r.(shares := r.shares - Less(r, qty)), w);
    }
    assert LevelIs(Levels(b, bid), p, Sum(b.orders, w) + Lost(lost, w));
  }

  lemma ReduceKeeps(b: Book, lost: seq<Resting>, ref: int, qty: nat)
    requires Matches(b, lost)
    ensures Matches(Reduce(b, ref, qty), lost)
  {
    if ref in b.orders {
      var b' := Reduce(b, ref, qty);
      forall bid, p ensures LevelIs(Levels(b', bid), p, Sum(b'.orders, Level(bid, p)) + Lost(lost, Level(bid, p))) {
        ReducedLevel(b, lost, ref, qty, bid, p);
      }
    }
  }

  lemma ReduceSide(b: Book, ref: int, qty: nat, bid: bool)
    ensures Sum(Reduce(b, ref, qty).orders, Side(bid))
            == Sum(b.orders, Side(bid)) - if TookSide(b, ref) == bid then Taken(b, ref, qty) else 0
  {
    if ref in b.orders {
      var r := b.orders[ref];
      SumRemove(b.orders, ref, Side(bid));
      if r.shares != Less(r, qty) {
        SumPut(b.orders, ref, r.(shares := r.shares - Less(r, qty)), Side(bid));
      }
    }
  }

  /** What putting an order at `ref` overwrites. */
  function Overwritten(b: Book, ref: int): seq<Resting> {
    if ref in b.orders then [b.orders[ref]] else []
  }

  lemma LostMore(lost: seq<Resting>, b: Book, ref: int, w: Where)
    ensures Lost(lost + Overwritten(b, ref), w) == Lost(lost, w) + if ref in b.orders then Part(b.orders[ref], w) else 0
  {
    if ref in b.orders {
      assert (lost + [b.orders[ref]])[..|lost|] == lost;
    } else {
      assert lost + [] == lost;
    }
  }

  lemma PutSum(b: Book, ref: int, r: Resting, w: Where)
    ensures Sum(Put(b, ref, r).orders, w) + (if ref in b.orders then Part(b.orders[ref], w) else 0)
            == Sum(b.orders, w) + Part(r, w)
  {
    SumPut(b.orders, ref, r, w);
    if ref in b.orders {
      SumRemove(b.orders, ref, w);
    } else {
      SumWithout(b.orders, ref, w);
    }
  }

  lemma PutKeeps(b: Book, lost: seq<Resting>, ref: int, r: Resting)
    requires Matches(b, lost) && r.shares > 0
    ensures Matches(Put(b, ref, r), lost + Overwritten(b, ref))
  {
    var b', lost' := Put(b, ref, r), lost + Overwritten(b, ref);
    forall bid, p ensures LevelIs(Levels(b', bid), p, Sum(b'.orders, Level(bid, p)) + Lost(lost', Level(bid, p))) {
      LostMore(lost, b, ref, Level(bid, p));
      PutSum(b, ref, r, Level(bid, p));
      assert LevelIs(Levels(b, bid), p, Sum(b.orders, Level(bid, p)) + Lost(lost, Level(bid, p)));
    }
  }

  lemma {:induction false} LostCounts(lost: seq<Resting>, r: Resting)
    requires r in lost
    ensures Lost(lost, Level(r.bid, r.price)) >= r.shares
  {
    if lost[|lost| - 1] != r {
      LostCounts(lost[..|lost| - 1], r);
    }
  }

  /** The structures agree exactly when nothing was ever overwritten. */
  lemma LockstepIffNothingLost(b: Book, lost: seq<Resting>)
    requires Matches(b, lost)
    ensures Lockstep(b) <==> lost == []
  {
    if lost == [] {
      forall bid, p ensures LevelIs(Levels(b, bid), p, Sum(b.orders, Level(bid, p))) {
        assert LevelIs(Levels(b, bid), p, Sum(b.orders, Level(bid, p)) + Lost(lost, Level(bid, p)));
      }
    } else {
      var r := lost[0];
      LostCounts(lost, r);
      var m := Levels(b, r.bid);
      assert LevelIs(m, r.price, Sum(b.orders, Level(r.bid, r.price)) + Lost(lost, Level(r.bid, r.price)));
      assert !LevelIs(m, r.price, Sum(b.orders, Level(r.bid, r.price)));
    }
  }

  // ---------------------------------------------------------------- over every stream

  /**
   What really happened: shares added (adds and replacement sizes) and shares replaced away by side,
   the orders overwritten while live, the adds that took effect, and the replaces down to nothing.
   */
  datatype Trace = Trace(added: PerSide, away: PerSide, lost: seq<Resting>, addEvents: nat, voided: nat)

  const NO_TRACE := Trace(NO_SHARES, NO_SHARES, [], 0, 0)

  function NoteAdd(tr: Trace, b: Book, ref: int, bid: bool, shares: nat): Trace {
    if shares == 0 then tr
    else tr.(added := Plus(tr.added, bid, shares), lost := tr.lost + Overwritten(b, ref))
  }

  function Note(tr: Trace, s: State, e: Event): Trace {
    match e
    case AddOrder(ref, bid, price, shares) =>
      NoteAdd(tr, s.book, ref, bid, shares).(addEvents := tr.addEvents + if shares > 0 then 1 else 0)
    case ReplaceOrder(ref, newRef, price, shares) =>
      if ref !in s.book.orders then tr
      else
        var r := s.book.orders[ref];
        NoteAdd(tr.(away := Plus(tr.away, r.bid, r.shares), voided := tr.voided + if shares == 0 then 1 else 0),
                Reduce(s.book, ref, r.shares), newRef, r.bid, shares)
    case _ => tr
  }

  /** Shares added on a side are resting, executed, pulled, replaced away or overwritten. */
  ghost predicate Balanced(s: State, tr: Trace, bid: bool) {
    Of(tr.added, bid) == Sum(s.book.orders, Side(bid)) + Of(s.tally.hit, bid) + Of(s.tally.pulled, bid)
                         + Of(tr.away, bid) + Lost(tr.lost, Side(bid))
  }

  /** `adds_` falls short of the adds by one for every replace down to nothing, and never runs below zero. */
  ghost predicate AddsExact(s: State, tr: Trace) {
    s.tally.adds + tr.voided == tr.addEvents && |s.book.orders| <= s.tally.adds
  }

  ghost predicate Accounted(s: State, tr: Trace) {
    Matches(s.book, tr.lost) && Balanced(s, tr, true) && Balanced(s, tr, false) && AddsExact(s, tr)
  }

  lemma {:induction false} OrderCount(b: Book, ref: int, qty: nat, r: Resting)
    ensures |Reduce(b, ref, qty).orders| <= |b.orders|
    ensures |Put(b, ref, r).orders| <= |b.orders| + 1
    ensures ref in b.orders && b.orders[ref].shares <= qty ==> |Reduce(b, ref, qty).orders| == |b.orders| - 1
  {
    KeysCount(b.orders, ref, r);
    if ref in b.orders {
      KeysCount(b.orders, ref, b.orders[ref].(shares := b.orders[ref].shares - Less(b.orders[ref], qty)));
    }
  }

  lemma KeysCount(m: map<int, Resting>, k: int, r: Resting)
    ensures |m[k := r]| == if k in m then |m| else |m| + 1
    ensures |m - {k}| == if k in m then |m| - 1 else |m|
  {
    assert m[k := r].Keys == m.Keys + {k};
    assert (m - {k}).Keys == m.Keys - {k};
  }

  /** The common part of an add and of the second half of a replace. */
  lemma AddBalances(s: State, tr: Trace, ref: int, bid: bool, price: int, shares: nat, side: bool)
    requires Balanced(s, tr, side)
    ensures Balanced(OnAdd(s, ref, bid, price, shares), NoteAdd(tr, s.book, ref, bid, shares), side)
  {
    if shares > 0 {
      PutSum(s.book, ref, Resting(bid, price, shares), Side(side));
      LostMore(tr.lost, s.book, ref, Side(side));
    }
  }

  lemma AddKeeps(s: State, tr: Trace, e: Event)
    requires Accounted(s, tr) && e.AddOrder?
    ensures Accounted(Handle(s, e), Note(tr, s, e))
  {
    AddBalances(s, tr, e.ref, e.bid, e.price, e.shares, true);
    AddBalances(s, tr, e.ref, e.bid, e.price, e.shares, false);
    if e.shares > 0 {
      PutKeeps(s.book, tr.lost, e.ref, Resting(e.bid, e.price, e.shares));
      OrderCount(s.book, e.ref, 0, Resting(e.bid, e.price, e.shares));
    }
  }

  lemma TakeKeeps(s: State, tr: Trace, e: Event)
    requires Accounted(s, tr) && (e.Execute? || e.CancelPart? || e.DeleteOrder?)
    ensures Accounted(Handle(s, e), Note(tr, s, e))
  {
    var qty := if !e.DeleteOrder? then e.shares else if e.ref in s.book.orders then s.book.orders[e.ref].shares else 0;
    ReduceKeeps(s.book, tr.lost, e.ref, qty);
    ReduceSide(s.book, e.ref, qty, true);
    ReduceSide(s.book, e.ref, qty, false);
    OrderCount(s.book, e.ref, qty, Resting(true, 0, 0));
  }

  /** First half of a replace: the original goes, booked as replaced away. */
  lemma AwayBalances(s: State, tr: Trace, ref: int, side: bool)
    requires Balanced(s, tr, side) && ref in s.book.orders
    ensures var r := s.book.orders[ref];
            Balanced(s.(book := Reduce(s.book, ref, r.shares)), tr.(away := Plus(tr.away, r.bid, r.shares)), side)
  {
    ReduceSide(s.book, ref, s.book.orders[ref].shares, side);
  }

  lemma ReplaceBalances(s: State, tr: Trace, e: Event, side: bool)
    requires Balanced(s, tr, side) && e.ReplaceOrder? && e.ref in s.book.orders
    ensures Balanced(Handle(s, e), Note(tr, s, e), side)
  {
    var r := s.book.orders[e.ref];
    var s1 := s.(book := Reduce(s.book, e.ref, r.shares));
    var tr1 := tr.(away := Plus(tr.away, r.bid, r.shares), voided := tr.voided + if e.shares == 0 then 1 else 0);
    AwayBalances(s, tr, e.ref, side);
    assert Balanced(s1, tr1, side);
    AddBalances(s1, tr1, e.newRef, r.bid, e.price, e.shares, side);
  }

  lemma ReplaceKeeps(s: State, tr: Trace, e: Event)
    requires Accounted(s, tr) && e.ReplaceOrder?
    ensures Accounted(Handle(s, e), Note(tr, s, e))
  {
    if e.ref in s.book.orders {
      var r := s.book.orders[e.ref];
      var gone := Reduce(s.book, e.ref, r.shares);
      ReplaceBalances(s, tr, e, true);
      ReplaceBalances(s, tr, e, false);
      ReduceKeeps(s.book, tr.lost, e.ref, r.shares);
      OrderCount(s.book, e.ref, r.shares, r);
      if e.shares > 0 {
        PutKeeps(gone, tr.lost, e.newRef, Resting(r.bid, e.price, e.shares));
        OrderCount(gone, e.newRef, 0, Resting(r.bid, e.price, e.shares));
      }
    }
  }

  lemma EventKeeps(s: State, tr: Trace, e: Event)
    requires Accounted(s, tr)
    ensures Accounted(Handle(s, e), Note(tr, s, e))
  {
    if e.AddOrder? {
      AddKeeps(s, tr, e);
    } else if e.ReplaceOrder? {
      ReplaceKeeps(s, tr, e);
    } else {
      TakeKeeps(s, tr, e);
    }
  }

  function Run(s: State, es: seq<Event>): State {
    if es == [] then s else Handle(Run(s, es[..|es| - 1]), es[|es| - 1])
  }

  function RunTrace(s: State, tr: Trace, es: seq<Event>): Trace {
    if es == [] then tr
    else Note(RunTrace(s, tr, es[..|es| - 1]), Run(s, es[..|es| - 1]), es[|es| - 1])
  }

  /** Share conservation, level totals and counter exactness after every stream, whatever it contains. */
  lemma {:induction false} EveryStreamIsAccounted(s: State, tr: Trace, es: seq<Event>)
    requires Accounted(s, tr)
    ensures Accounted(Run(s, es), RunTrace(s, tr, es))
  {
    if es != [] {
      var front := es[..|es| - 1];
      EveryStreamIsAccounted(s, tr, front);
      EventKeeps(Run(s, front), RunTrace(s, tr, front), es[|es| - 1]);
    }
  }

  lemma NoOrdersNoSum(orders: map<int, Resting>, w: Where)
    requires |orders| == 0
    ensures Sum(orders, w) == 0
  {
    assert orders.Keys == {};
  }

  /** The empty book: no orders, no levels, nothing counted. */
  ghost predicate Fresh(s: State) {
    && |s.book.orders| == 0 && |s.book.bids| == 0 && |s.book.asks| == 0
    && s.tally.adds == 0 && s.tally.hit == NO_SHARES && s.tally.pulled == NO_SHARES
  }

  lemma FreshIsAccounted(s: State, tr: Trace)
    requires Fresh(s) && tr.added == tr.away == NO_SHARES && tr.lost == [] && tr.addEvents == tr.voided == 0
    ensures Accounted(s, tr)
  {
    NoOrdersNoSum(s.book.orders, Side(true));
    NoOrdersNoSum(s.book.orders, Side(false));
    forall bid, p ensures LevelIs(Levels(s.book, bid), p, Sum(s.book.orders, Level(bid, p)) + Lost(tr.lost, Level(bid, p))) {
      NoOrdersNoSum(s.book.orders, Level(bid, p));
      assert |Levels(s.book, bid)| == 0;
    }
  }

  /** Every stream from an empty book is accounted for. */
  lemma StreamFromEmpty(s: State, es: seq<Event>)
    requires Fresh(s)
    ensures Accounted(Run(s, es), RunTrace(s, NO_TRACE, es))
  {
    FreshIsAccounted(s, NO_TRACE);
    EveryStreamIsAccounted(s, NO_TRACE, es);
  }

  /** An event that puts shares under a reference still live. */
  predicate Reuses(b: Book, e: Event) {
    match e
    case AddOrder(ref, _, _, shares) => shares > 0 && ref in b.orders
    case ReplaceOrder(ref, newRef, _, shares) => ref in b.orders && shares > 0 && newRef != ref && newRef in b.orders
    case _ => false
  }

  lemma LosesIffReuses(tr: Trace, s: State, e: Event)
    ensures Note(tr, s, e).lost == [] <==> tr.lost == [] && !Reuses(s.book, e)
  {
  }

  /** No event of the stream reuses a reference that is live when it arrives. */
  predicate ReusesNothing(s: State, es: seq<Event>) {
    es == [] || (ReusesNothing(s, es[..|es| - 1]) && !Reuses(Run(s, es[..|es| - 1]).book, es[|es| - 1]))
  }

  lemma {:induction false} LosesNothingIff(s: State, tr: Trace, es: seq<Event>)
    ensures RunTrace(s, tr, es).lost == [] <==> tr.lost == [] && ReusesNothing(s, es)
  {
    if es != [] {
      var front := es[..|es| - 1];
      LosesNothingIff(s, tr, front);
      LosesIffReuses(RunTrace(s, tr, front), Run(s, front), es[|es| - 1]);
    }
  }

  /**
   After every stream from an empty book, the levels are in step with the orders exactly when no
   event of the stream put shares under a reference that was live when it arrived.
   */
  lemma LockstepIffNoReuse(s: State, es: seq<Event>)
    requires Fresh(s)
    ensures Lockstep(Run(s, es).book) <==> ReusesNothing(s, es)
  {
    var tr := NO_TRACE;
    StreamFromEmpty(s, es);
    LosesNothingIff(s, tr, es);
    LockstepIffNothingLost(Run(s, es).book, RunTrace(s, tr, es).lost);
  }
}
