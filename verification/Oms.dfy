/**
 The order management system of `oms/oms.hpp`: order lifecycle, pre-trade checks and the pending
 exposure ledger. Prices are fixed-point integers, quantities are 32-bit unsigned and narrowed to
 32-bit signed where the code narrows them.
 */
module Oms {
  import opened PositionBook

  const PRICE_SCALE := 10000
  const TWO31: int := 0x8000_0000
  const TWO32: int := 0x1_0000_0000

  type Quantity = q: int | 0 <= q < 0x1_0000_0000

  datatype Side = Buy | Sell

  datatype Status = New | Sent | Filled | Partial | Cancelled | Rejected

  datatype Order = Order(
    symbol: string,
    side: Side,
    price: int,
    quantity: Quantity,
    filled: Quantity,
    status: Status,
    notional: int,
    fillCount: nat,
    expire: int)

  datatype Reason = InvalidInput | OrderValue | PositionLimit

  datatype Answer = Accepted(id: nat) | Refused(reason: Reason)

  /** A price as it arrives: not a number, or fixed-point units. */
  datatype Price = NaN | Fixed(units: int)

  datatype Limits = Limits(maxPosition: int, maxOrderValue: int, commission: int)

  datatype State = State(orders: map<nat, Order>, positions: map<string, Position>, nextId: nat)

  const EMPTY := State(map[], map[], 1)

  // ---------------------------------------------------------------- small helpers

  /** `sym_to_key`: the first eight characters. */
  function Key(symbol: string): string {
    if |symbol| <= 8 then symbol else symbol[..8]
  }

  /** `static_cast<int32_t>` of an unsigned quantity. */
  function AsInt32(q: Quantity): int {
    if q < TWO31 then q else q - TWO32
  }

  function Directed(side: Side, n: int): int {
    if side == Buy then n else -n
  }

  /** `signed_qty`. */
  function SignedQty(side: Side, q: Quantity): int {
    Directed(side, AsInt32(q))
  }

  predicate Working(o: Order) {
    o.status == Sent || o.status == Partial
  }

  /** What `cancel_order` and `replace_order` take to be an order's reservation. */
  function Reservation(o: Order): int {
    Directed(o.side, AsInt32(o.quantity) - AsInt32(o.filled))
  }

  function PositionAt(s: State, k: string): Position {
    if k in s.positions then s.positions[k] else FLAT
  }

  function AddPending(ps: map<string, Position>, k: string, shift: int): map<string, Position> {
    if k in ps then ps[k := ps[k].(pending := ps[k].pending + shift)] else ps
  }

  // ---------------------------------------------------------------- operations

  function Submit(s: State, lim: Limits, symbol: string, side: Side, price: Price, qty: Quantity, expire: int): (State, Answer) {
    if price.NaN? || price.units <= 0 || qty == 0 || symbol == [] then (s, Refused(InvalidInput))
    else if price.units / PRICE_SCALE * qty > lim.maxOrderValue then (s, Refused(OrderValue))
    else
      var k, n := Key(symbol), SignedQty(side, qty);
      var pos := PositionAt(s, k);
      if Abs(pos.net + pos.pending + n) > lim.maxPosition then (s, Refused(PositionLimit))
      else
        var o := Order(k, side, price.units, qty, 0, Sent, 0, 0, expire);
        (State(s.orders[s.nextId := o], s.positions[k := pos.(pending := pos.pending + n)], s.nextId + 1),
         Accepted(s.nextId))
  }

  function FilledBy(o: Order, q: Quantity, price: int): Order
    requires o.filled + q <= o.quantity
  {
    o.(filled := o.filled + q, notional := o.notional + q * price, fillCount := o.fillCount + 1,
       status := if o.filled + q >= o.quantity then Filled else Partial)
  }

  /** The fill actually applied: over-fills are clamped, and only a working order fills. */
  function Applied(s: State, id: nat, qty: Quantity): Quantity {
    if id !in s.orders || !Working(s.orders[id]) then 0
    else
      var o := s.orders[id];
      var remaining := if o.filled < o.quantity then o.quantity - o.filled else 0;
      if qty > remaining then remaining else qty
  }

  function Fee(lim: Limits, q: Quantity): int {
    if lim.commission == 0 then 0 else q * lim.commission
  }

  function PositionAfter(pos: Position, lim: Limits, side: Side, q: Quantity, price: int): Position
    requires q > 0
  {
    var n := SignedQty(side, q);
    var p := ApplyFill(pos.(pending := pos.pending - n), n, q, price);
    var trip := if pos.net != 0 && (p.net == 0 || (pos.net > 0) != (p.net > 0)) then 1 else 0;
    p.(roundTrips := p.roundTrips + trip, fees := p.fees + Fee(lim, q))
  }

  function Fill(s: State, lim: Limits, id: nat, qty: Quantity, price: int): (State, Quantity) {
    var q := Applied(s, id, qty);
    if q == 0 then (s, 0)
    else
      var o := s.orders[id];
      (s.(orders := s.orders[id := FilledBy(o, q, price)],
          positions := s.positions[o.symbol := PositionAfter(PositionAt(s, o.symbol), lim, o.side, q, price)]), q)
  }

  function Cancel(s: State, id: nat): State {
    if id !in s.orders || !Working(s.orders[id]) then s
    else
      var o := s.orders[id];
      s.(orders := s.orders[id := o.(status := Cancelled)],
         positions := AddPending(s.positions, o.symbol, -Reservation(o)))
  }

  function Replaced(o: Order, price: int, qty: Quantity): Order {
    o.(price := price, quantity := qty,
       status := if o.filled >= qty then Filled else if o.filled > 0 then Partial else Sent)
  }

  function Replace(s: State, lim: Limits, id: nat, price: Price, qty: Quantity): (State, bool) {
    if id !in s.orders || !Working(s.orders[id]) then (s, false)
    else
      var o := s.orders[id];
      if price.NaN? || price.units <= 0 || qty == 0 || qty < o.filled then (s, false)
      else if price.units / PRICE_SCALE * qty > lim.maxOrderValue then (s, false)
      else
        var o' := Replaced(o, price.units, qty);
        var shift := Reservation(o') - Reservation(o);
        var pos := PositionAt(s, o.symbol);
        if Abs(pos.net + pos.pending + shift) > lim.maxPosition then (s, false)
        else
          (s.(orders := s.orders[id := o'], positions := AddPending(s.positions, o.symbol, shift)), true)
  }

  function Amend(s: State, lim: Limits, id: nat, qty: Quantity): (State, bool) {
    if id !in s.orders || !Working(s.orders[id]) then (s, false)
    else
      var o := s.orders[id];
      if qty >= o.quantity || qty < o.filled then (s, false) else Replace(s, lim, id, Fixed(o.price), qty)
  }

  function Retire(o: Order): Order {
    if Working(o) then o.(status := Cancelled) else o
  }

  // ---------------------------------------------------------------- sums over the orders

  /**
   What is added up: every open remainder, those of one side, the reservations as the code computes
   them, or everything executed.
   */
  datatype Measure = Remainder | Only(side: Side) | Reserved | Done

  /** What an order still has open, signed: the remainder of a SENT or PARTIAL order. Or what it has executed. */
  function Open(o: Order, m: Measure): int {
    if m.Done? then Directed(o.side, o.filled)
    else if !Working(o) then 0
    else match m
      case Remainder => Directed(o.side, o.quantity - o.filled)
      case Only(side) => if o.side == side then Directed(o.side, o.quantity - o.filled) else 0
      case Reserved => Reservation(o)
  }

  function Share(o: Order, k: string, m: Measure): int {
    if o.symbol == k then Open(o, m) else 0
  }

  /** The sum for one symbol over the ids up to `n`. */
  function Sum(orders: map<nat, Order>, k: string, n: nat, m: Measure): int {
    if n == 0 then 0 else Sum(orders, k, n - 1, m) + if n in orders then Share(orders[n], k, m) else 0
  }

  function Total(s: State, k: string, m: Measure): int {
    Sum(s.orders, k, s.nextId, m)
  }

  lemma {:induction false} SumUpdate(orders: map<nat, Order>, id: nat, o: Order, k: string, n: nat, m: Measure)
    requires id > 0
    ensures Sum(orders[id := o], k, n, m)
            == Sum(orders, k, n, m)
               + if id <= n then Share(o, k, m) - (if id in orders then Share(orders[id], k, m) else 0) else 0
  {
    if n > 0 {
      SumUpdate(orders, id, o, k, n - 1, m);
    }
  }

  lemma {:induction false} NothingOpen(orders: map<nat, Order>, k: string, n: nat, m: Measure)
    requires forall id | id in orders :: Share(orders[id], k, m) == 0
    ensures Sum(orders, k, n, m) == 0
  {
    if n > 0 {
      NothingOpen(orders, k, n - 1, m);
    }
  }

  // ---------------------------------------------------------------- the invariant

  ghost predicate OrderOk(o: Order) {
    && 0 < o.quantity < TWO31 && o.filled <= o.quantity
    && (match o.status
        case Sent => o.filled == 0
        case Partial => 0 < o.filled < o.quantity
        case Filled => o.filled == o.quantity
        case Cancelled => o.filled < o.quantity
        case _ => false)
  }

  ghost predicate Ids(s: State) {
    s.nextId > 0 && forall id: nat :: id in s.orders <==> 0 < id < s.nextId
  }

  ghost predicate OrdersOk(s: State) {
    forall id | id in s.orders :: OrderOk(s.orders[id]) && s.orders[id].symbol in s.positions
  }

  /** The ledger: a symbol's pending quantity is the signed sum of its open remainders. */
  ghost predicate Ledger(s: State) {
    forall k | k in s.positions :: s.positions[k].pending == Total(s, k, Remainder)
  }

  ghost predicate Good(s: State) {
    Ids(s) && OrdersOk(s) && Ledger(s)
  }

  lemma ReservationIsOpen(o: Order)
    requires OrderOk(o) && Working(o)
    ensures Reservation(o) == Open(o, Remainder) == Open(o, Only(o.side))
  {
  }

  /** A symbol without a position has no order, so nothing of it is open. */
  lemma NoPositionNoOrder(s: State, k: string)
    requires OrdersOk(s) && k !in s.positions
    ensures Total(s, k, Remainder) == 0
  {
    NothingOpen(s.orders, k, s.nextId, Remainder);
  }

  /** Replacing one order by another of the same symbol, with the ledger moved by the difference. */
  lemma SwapOrder(s: State, id: nat, o: Order, pos: Position)
    requires Good(s) && id in s.orders && OrderOk(o) && o.symbol == s.orders[id].symbol
    requires pos.pending == s.positions[o.symbol].pending + Open(o, Remainder) - Open(s.orders[id], Remainder)
    ensures Good(s.(orders := s.orders[id := o], positions := s.positions[o.symbol := pos]))
  {
    var s' := s.(orders := s.orders[id := o], positions := s.positions[o.symbol := pos]);
    forall k | k in s'.positions ensures s'.positions[k].pending == Total(s', k, Remainder) {
      SumUpdate(s.orders, id, o, k, s.nextId, Remainder);
    }
  }

  lemma SubmitKeeps(s: State, lim: Limits, symbol: string, side: Side, price: Price, qty: Quantity, expire: int)
    requires Good(s) && qty < TWO31
    ensures Good(Submit(s, lim, symbol, side, price, qty, expire).0)
  {
    var (s', a) := Submit(s, lim, symbol, side, price, qty, expire);
    if a.Accepted? {
      var o := s'.orders[s.nextId];
      InsertOrder(s, o, PositionAt(s, o.symbol).(pending := PositionAt(s, o.symbol).pending + Open(o, Remainder)));
    }
  }

  lemma InsertOrder(s: State, o: Order, pos: Position)
    requires Good(s) && OrderOk(o) && pos.pending == PositionAt(s, o.symbol).pending + Open(o, Remainder)
    ensures Good(State(s.orders[s.nextId := o], s.positions[o.symbol := pos], s.nextId + 1))
  {
    var s' := State(s.orders[s.nextId := o], s.positions[o.symbol := pos], s.nextId + 1);
    forall k | k in s'.positions ensures s'.positions[k].pending == Total(s', k, Remainder) {
      SumUpdate(s.orders, s.nextId, o, k, s.nextId, Remainder);
      if k !in s.positions {
        NoPositionNoOrder(s, k);
      }
    }
  }

  lemma FillKeeps(s: State, lim: Limits, id: nat, qty: Quantity, price: int)
    requires Good(s)
    ensures Good(Fill(s, lim, id, qty, price).0)
  {
    var q := Applied(s, id, qty);
    if q > 0 {
      var o := s.orders[id];
      SwapOrder(s, id, FilledBy(o, q, price), PositionAfter(PositionAt(s, o.symbol), lim, o.side, q, price));
    }
  }

  lemma CancelKeeps(s: State, id: nat)
    requires Good(s)
    ensures Good(Cancel(s, id))
  {
    if id in s.orders && Working(s.orders[id]) {
      var o := s.orders[id];
      ReservationIsOpen(o);
      var pos := s.positions[o.symbol];
      SwapOrder(s, id, o.(status := Cancelled), pos.(pending := pos.pending - Reservation(o)));
    }
  }

  lemma ReplaceKeeps(s: State, lim: Limits, id: nat, price: Price, qty: Quantity)
    requires Good(s) && qty < TWO31
    ensures Good(Replace(s, lim, id, price, qty).0)
  {
    if Replace(s, lim, id, price, qty).1 {
      var o := s.orders[id];
      var o' := Replaced(o, price.units, qty);
      var pos := s.positions[o.symbol];
      SwapOrder(s, id, o', pos.(pending := pos.pending + (Reservation(o') - Reservation(o))));
    }
  }

  // ---------------------------------------------------------------- cancel_all

  function Unreserved(p: Position, held: int): Position {
    p.(pending := p.pending - held)
  }

  function CancelAll(s: State): State {
    s.(orders := map id | id in s.orders :: Retire(s.orders[id]),
       positions := map k | k in s.positions :: Unreserved(s.positions[k], Total(s, k, Reserved)))
  }

  lemma {:induction false} ReservedIsRemainder(s: State, k: string, n: nat)
    requires OrdersOk(s)
    ensures Sum(s.orders, k, n, Reserved) == Sum(s.orders, k, n, Remainder)
  {
    if n > 0 {
      ReservedIsRemainder(s, k, n - 1);
    }
  }

  lemma RetiredOrders(s: State, k: string, m: Measure)
    requires !m.Done?
    ensures Total(CancelAll(s), k, m) == 0
  {
    NothingOpen(CancelAll(s).orders, k, s.nextId, m);
  }

  /** The panic button releases every reservation: afterwards nothing is pending on any symbol. */
  lemma CancelAllReleases(s: State)
    requires Good(s)
    ensures Good(CancelAll(s)) && forall k | k in CancelAll(s).positions :: CancelAll(s).positions[k].pending == 0
  {
    var s' := CancelAll(s);
    forall k | k in s'.positions ensures s'.positions[k].pending == 0 == Total(s', k, Remainder) {
      ReservedIsRemainder(s, k, s.nextId);
      RetiredOrders(s, k, Remainder);
    }
  }

  /** One cancel moves every symbol's pending quantity by exactly what it takes out of the reservations. */
  lemma CancelBalances(s: State, id: nat, k: string)
    requires Ids(s) && k in s.positions
    ensures var s' := Cancel(s, id);
            k in s'.positions
            && Unreserved(s'.positions[k], Total(s', k, Reserved)) == Unreserved(s.positions[k], Total(s, k, Reserved))
  {
    if id in s.orders && Working(s.orders[id]) {
      SumUpdate(s.orders, id, s.orders[id].(status := Cancelled), k, s.nextId, Reserved);
    }
  }

  lemma CancelsDone(s: State, t: State)
    requires t.nextId == s.nextId && t.orders.Keys == s.orders.Keys && t.positions.Keys == s.positions.Keys
    requires forall id | id in s.orders :: t.orders[id] == Retire(s.orders[id])
    requires forall k | k in s.positions ::
               Unreserved(t.positions[k], Total(t, k, Reserved)) == Unreserved(s.positions[k], Total(s, k, Reserved))
    ensures t == CancelAll(s) && WorkingIds(t) == {}
  {
    assert t.orders == CancelAll(s).orders;
    forall k | k in s.positions ensures t.positions[k] == CancelAll(s).positions[k] {
      NothingOpen(t.orders, k, t.nextId, Reserved);
    }
    assert t.positions == CancelAll(s).positions;
  }

  // ---------------------------------------------------------------- the object

  class OrderManager {
    const limits: Limits
    var orders: map<nat, Order>
    var positions: map<string, Position>
    var nextId: nat

    ghost function View(): State
      reads this
    {
      State(orders, positions, nextId)
    }

    constructor (lim: Limits)
      ensures View() == EMPTY && limits == lim
    {
      limits := lim;
      orders, positions, nextId := map[], map[], 1;
    }

    method SubmitOrder(symbol: string, side: Side, price: Price, quantity: Quantity, expire: int) returns (a: Answer)
      modifies this
      ensures (View(), a) == Submit(old(View()), limits, symbol, side, price, quantity, expire)
    {
      if price.NaN? || price.units <= 0 || quantity == 0 || symbol == [] { return Refused(InvalidInput); }
      var value := price.units / PRICE_SCALE * quantity;
      if value > limits.maxOrderValue { return Refused(OrderValue); }
      var key, n := Key(symbol), SignedQty(side, quantity);
      var pos := if key in positions then positions[key] else FLAT;
      if Abs(pos.net + pos.pending + n) > limits.maxPosition { return Refused(PositionLimit); }
      var id := nextId;
      nextId := nextId + 1;
      orders := orders[id := Order(key, side, price.units, quantity, 0, Sent, 0, 0, expire)];
      positions := positions[key := pos.(pending := pos.pending + n)];
      return Accepted(id);
    }

    method FillOrder(id: nat, quantity: Quantity, price: int) returns (applied: Quantity)
      modifies this
      ensures (View(), applied) == Fill(old(View()), limits, id, quantity, price)
    {
      if quantity == 0 || id !in orders { return 0; }
      var o := orders[id];
      if !Working(o) { return 0; }
      var remaining: Quantity := if o.filled < o.quantity then o.quantity - o.filled else 0;
      var q := quantity;
      if q > remaining {
        q := remaining;
        if q == 0 { return 0; }
      }
      orders := orders[id := FilledBy(o, q, price)];
      var pos := if o.symbol in positions then positions[o.symbol] else FLAT;
      var p := BookFill(pos, limits, o.side, q, price);
      positions := positions[o.symbol := p];
      return q;
    }

    method CancelOrder(id: nat)
      modifies this
      ensures View() == Cancel(old(View()), id)
    {
      if id !in orders { return; }
      var o := orders[id];
      if !Working(o) { return; }
      var remaining := AsInt32(o.quantity) - AsInt32(o.filled);
      if o.symbol in positions {
        var pos := positions[o.symbol];
        positions := positions[o.symbol := pos.(pending := pos.pending - Directed(o.side, remaining))];
      }
      orders := orders[id := o.(status := Cancelled)];
    }

    method ReplaceOrder(id: nat, price: Price, quantity: Quantity) returns (done: bool)
      modifies this
      ensures (View(), done) == Replace(old(View()), limits, id, price, quantity)
    {
      if id !in orders { return false; }
      var o := orders[id];
      if !Working(o) { return false; }
      if price.NaN? || price.units <= 0 || quantity == 0 || quantity < o.filled { return false; }
      if price.units / PRICE_SCALE * quantity > limits.maxOrderValue { return false; }
      var before := Directed(o.side, AsInt32(o.quantity) - AsInt32(o.filled));
      var now := Directed(o.side, AsInt32(quantity) - AsInt32(o.filled));
      var net, pending := 0, 0;
      if o.symbol in positions { net, pending := positions[o.symbol].net, positions[o.symbol].pending; }
      var projected := net + (pending - before + now);
      if Abs(projected) > limits.maxPosition { return false; }
      if o.symbol in positions {
        positions := positions[o.symbol := positions[o.symbol].(pending := pending + (now - before))];
      }
      orders := orders[id := Replaced(o, price.units, quantity)];
      return true;
    }

    method AmendQuantity(id: nat, quantity: Quantity) returns (done: bool)
      modifies this
      ensures (View(), done) == Amend(old(View()), limits, id, quantity)
    {
      if id !in orders { return false; }
      var o := orders[id];
      if !Working(o) || quantity >= o.quantity || quantity < o.filled { return false; }
      done := ReplaceOrder(id, Fixed(o.price), quantity);
    }

    /** Visits the orders in any order. */
    method CancelEvery() returns (n: nat)
      requires Ids(View())
      modifies this
      ensures View() == CancelAll(old(View()))
      ensures n == |WorkingIds(old(View()))|
    {
      ghost var s := View();
      var todo := orders.Keys;
      n := 0;
      while todo != {}
        invariant Visited(s, View(), todo)
        invariant n + |WorkingIds(View())| == |WorkingIds(s)|
        decreases |todo|
      {
        var id :| id in todo;
        VisitOne(s, View(), todo, id);
        if Working(orders[id]) {
          CancelOrder(id);
          n := n + 1;
        }
        todo := todo - {id};
      }
      CancelsDone(s, View());
    }
  }

  /** The second half of a fill: pending to net, profit, round trips and fees. */
  method BookFill(pos: Position, lim: Limits, side: Side, q: Quantity, price: int) returns (p: Position)
    requires q > 0
    ensures p == PositionAfter(pos, lim, side, q, price)
  {
    var n := SignedQty(side, q);
    p := ApplyFill(pos.(pending := pos.pending - n), n, q, price);
    if pos.net != 0 && (p.net == 0 || (pos.net > 0) != (p.net > 0)) {
      p := p.(roundTrips := p.roundTrips + 1);
    }
    if lim.commission != 0 {
      p := p.(fees := p.fees + q * lim.commission);
    }
  }

  ghost function WorkingIds(s: State): set<nat> {
    set id | id in s.orders && Working(s.orders[id])
  }

  /** Part way through `cancel_all`: `t` is `s` with every order outside `todo` retired. */
  ghost predicate Visited(s: State, t: State, todo: set<nat>) {
    && Ids(t) && todo <= t.orders.Keys && t.nextId == s.nextId && t.orders.Keys == s.orders.Keys && t.positions.Keys == s.positions.Keys
    && (forall id | id in s.orders :: t.orders[id] == if id in todo then s.orders[id] else Retire(s.orders[id]))
    && (forall k | k in s.positions ::
          Unreserved(t.positions[k], Total(t, k, Reserved)) == Unreserved(s.positions[k], Total(s, k, Reserved)))
  }

  lemma VisitOne(s: State, t: State, todo: set<nat>, id: nat)
    requires Visited(s, t, todo) && id in todo
    ensures Visited(s, Cancel(t, id), todo - {id})
    ensures if Working(t.orders[id]) then |WorkingIds(Cancel(t, id))| + 1 == |WorkingIds(t)| else Cancel(t, id) == t
  {
    var t' := Cancel(t, id);
    forall k | k in s.positions
      ensures Unreserved(t'.positions[k], Total(t', k, Reserved)) == Unreserved(s.positions[k], Total(s, k, Reserved))
    {
      CancelBalances(t, id, k);
    }
    CancelCounts(t, id);
  }

  lemma CancelCounts(t: State, id: nat)
    requires id in t.orders
    ensures if Working(t.orders[id]) then |WorkingIds(Cancel(t, id))| + 1 == |WorkingIds(t)| else Cancel(t, id) == t
  {
    if Working(t.orders[id]) {
      assert WorkingIds(t) == WorkingIds(Cancel(t, id)) + {id};
    }
  }
}
