/**
 What each call of the order management system does to the whole state, field by field: when it is
 refused and why, what it stores, how the ledger moves, and what stays as it was.
 */
module OmsLaws {
  import opened Numbers
  import opened PositionBook
  import opened Oms

  /** A 32-bit quantity as the ledger books it: positive for a buy below `2^31`. */
  function Booked(side: Side, q: int): int {
    var n := if q < 0x8000_0000 then q else q - 0x1_0000_0000;
    match side
    case Buy => n
    case Sell => -n
  }

  predicate Live(s: State, id: nat) {
    id in s.orders && (s.orders[id].status == Sent || s.orders[id].status == Partial)
  }

  /** Only the order `id` and the position of `k` differ. */
  ghost predicate OnlyTouches(s: State, r: State, id: nat, k: string) {
    && (forall j | j != id :: (j in r.orders <==> j in s.orders) && (j in s.orders ==> r.orders[j] == s.orders[j]))
    && (forall x | x != k :: (x in r.positions <==> x in s.positions) && (x in s.positions ==> r.positions[x] == s.positions[x]))
  }

  /** The position of `k` is `pos` with its pending quantity moved. */
  ghost predicate PendingMoved(s: State, r: State, k: string, shift: int) {
    && (k in r.positions <==> k in s.positions)
    && (k in s.positions ==> r.positions[k] == s.positions[k].(pending := s.positions[k].pending + shift))
  }

  // ---------------------------------------------------------------- submit

  predicate BadInput(symbol: string, price: Price, qty: Quantity) {
    price == NaN || price.units <= 0 || qty == 0 || |symbol| == 0
  }

  /** The value limit counts whole dollars. */
  predicate TooExpensive(lim: Limits, price: int, qty: Quantity) {
    price / 10000 * qty > lim.maxOrderValue
  }

  predicate TooBig(s: State, lim: Limits, k: string, shift: int) {
    var exposure := if k in s.positions then s.positions[k].net + s.positions[k].pending else 0;
    exposure + shift > lim.maxPosition || -(exposure + shift) > lim.maxPosition
  }

  /** A new order under the next id, with nothing filled, and its quantity reserved. */
  ghost predicate IsSubmitted(s: State, r: State, k: string, side: Side, price: int, qty: Quantity, expire: int) {
    && r.nextId == s.nextId + 1 && OnlyTouches(s, r, s.nextId, k)
    && s.nextId in r.orders && r.orders[s.nextId] == Order(k, side, price, qty, 0, Sent, 0, 0, expire)
    && k in r.positions
    && r.positions[k] == (if k in s.positions then s.positions[k].(pending := s.positions[k].pending + Booked(side, qty))
                          else Position(0, Booked(side, qty), 0, 0, 0, 0, 0))
  }

  /**
   Each refusal is given exactly for its own reason, in the order of the checks, and changes nothing;
   otherwise the order is stored under the first eight characters of its symbol.
   */
  lemma SubmitLaw(s: State, lim: Limits, symbol: string, side: Side, price: Price, qty: Quantity, expire: int)
    ensures var (r, a) := Submit(s, lim, symbol, side, price, qty, expire);
            var k := symbol[..Min(|symbol|, 8)];
            var bad := BadInput(symbol, price, qty);
            && (a == Refused(InvalidInput) <==> bad)
            && (a == Refused(OrderValue) <==> !bad && TooExpensive(lim, price.units, qty))
            && (a == Refused(PositionLimit) <==> !bad && !TooExpensive(lim, price.units, qty) && TooBig(s, lim, k, Booked(side, qty)))
            && (if a.Refused? then r == s
                else a == Accepted(s.nextId) && IsSubmitted(s, r, k, side, price.units, qty, expire))
  {
    assert symbol[..|symbol|] == symbol;
  }

  // ---------------------------------------------------------------- fill

  /** A working order takes the fill up to what is left of it; nothing else takes any. */
  function Takes(s: State, id: nat, qty: Quantity): int {
    if Live(s, id) then Min(qty, Max(0, s.orders[id].quantity - s.orders[id].filled)) else 0
  }

  ghost predicate OrderFilled(o: Order, r: Order, q: int, price: int) {
    && r.filled == o.filled + q
    && r == o.(filled := r.filled, notional := o.notional + q * price, fillCount := o.fillCount + 1, status := r.status)
    && (r.status == Filled <==> o.quantity - r.filled == 0)
    && (r.status == Partial <==> o.quantity - r.filled > 0)
  }

  /** Pending becomes net; the fee is per share; a position that is left or crossed through zero is a round trip. */
  ghost predicate PositionFilled(pos: Position, r: Position, lim: Limits, n: int, q: int, price: int) {
    && q >= 0 && IsFilled(pos, r, n, q, price)
    && r.pending == pos.pending - n
    && r.fees == pos.fees + q * lim.commission
    && r.roundTrips == pos.roundTrips + if (pos.net > 0 && r.net <= 0) || (pos.net < 0 && r.net >= 0) then 1 else 0
  }

  /** A fill answers what it applied, `min(qty, quantity - filled)`, and books exactly that. */
  lemma FillLaw(s: State, lim: Limits, id: nat, qty: Quantity, price: int)
    ensures var (r, q) := Fill(s, lim, id, qty, price);
            && q == Takes(s, id, qty)
            && (q == 0 ==> r == s)
            && (q > 0 ==>
                  && r.nextId == s.nextId && OnlyTouches(s, r, id, s.orders[id].symbol)
                  && id in r.orders && OrderFilled(s.orders[id], r.orders[id], q, price)
                  && s.orders[id].symbol in r.positions
                  && PositionFilled(PositionAt(s, s.orders[id].symbol), r.positions[s.orders[id].symbol], lim,
                                    Booked(s.orders[id].side, q), q, price))
  {
    var q := Applied(s, id, qty);
    if q > 0 {
      var o := s.orders[id];
      PositionLaw(PositionAt(s, o.symbol), lim, o.side, q, price);
    }
  }

  lemma PositionLaw(pos: Position, lim: Limits, side: Side, q: Quantity, price: int)
    requires q > 0
    ensures PositionFilled(pos, PositionAfter(pos, lim, side, q, price), lim, Booked(side, q), q, price)
  {
    var n := Booked(side, q);
    PositionBook.FillLaw(pos.(pending := pos.pending - n), n, q, price);
  }

  // ---------------------------------------------------------------- cancel, replace and amend

  /** A cancel ends a working order and gives back the part that was not filled. */
  lemma CancelLaw(s: State, id: nat)
    ensures var r := Cancel(s, id);
            if !Live(s, id) then r == s
            else
              var o := s.orders[id];
              && r.nextId == s.nextId && OnlyTouches(s, r, id, o.symbol)
              && id in r.orders && r.orders[id] == o.(status := Cancelled)
              && PendingMoved(s, r, o.symbol, Booked(o.side, o.filled) - Booked(o.side, o.quantity))
  {
  }

  /** The order has its new price and quantity, and the ledger moved by the change in quantity. */
  ghost predicate IsReplaced(s: State, r: State, id: nat, price: int, qty: Quantity)
    requires id in s.orders
  {
    var o := s.orders[id];
    && r.nextId == s.nextId && OnlyTouches(s, r, id, o.symbol)
    && id in r.orders && r.orders[id] == o.(price := price, quantity := qty, status := r.orders[id].status)
    && r.orders[id].status == (if o.filled >= qty then Filled else if o.filled > 0 then Partial else Sent)
    && PendingMoved(s, r, o.symbol, Booked(o.side, qty) - Booked(o.side, o.quantity))
  }

  /** A replace passes exactly when a submission of the change would, for a working order not yet filled beyond `qty`. */
  lemma ReplaceLaw(s: State, lim: Limits, id: nat, price: Price, qty: Quantity)
    ensures var (r, done) := Replace(s, lim, id, price, qty);
            && (done <==> && Live(s, id) && price != NaN && price.units > 0 && qty > 0 && s.orders[id].filled <= qty
                          && !TooExpensive(lim, price.units, qty)
                          && !TooBig(s, lim, s.orders[id].symbol,
                                     Booked(s.orders[id].side, qty) - Booked(s.orders[id].side, s.orders[id].quantity)))
            && (if done then IsReplaced(s, r, id, price.units, qty) else r == s)
  {
  }

  /** An amend only lowers the quantity, at the order's own price. */
  lemma AmendLaw(s: State, lim: Limits, id: nat, qty: Quantity)
    ensures var (r, done) := Amend(s, lim, id, qty);
            && (done ==> Live(s, id) && s.orders[id].filled <= qty < s.orders[id].quantity
                         && IsReplaced(s, r, id, s.orders[id].price, qty))
            && (!done ==> r == s)
            && (Live(s, id) && s.orders[id].filled <= qty < s.orders[id].quantity ==>
                  done == Replace(s, lim, id, Fixed(s.orders[id].price), qty).1)
  {
    if Live(s, id) { ReplaceLaw(s, lim, id, Fixed(s.orders[id].price), qty); }
  }
}
