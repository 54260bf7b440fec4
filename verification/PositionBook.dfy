/**
 Position accounting of `oms/oms.hpp`: one symmetric model for long, short and flip, with a rounded
 integer average entry price. Prices are fixed-point integers.
 */
module PositionBook {
  import opened Numbers

  datatype Position = Position(
    net: int,
    pending: int,
    avg: int,
    realized: int,
    totalCost: int,
    fees: int,
    roundTrips: nat)

  const FLAT := Position(0, 0, 0, 0, 0, 0, 0)

  function Abs(x: int): nat {
    if x < 0 then -x else x
  }

  /** C++ integer division: toward zero. */
  function Quotient(a: int, b: int): int
    requires b > 0
  {
    if a >= 0 then a / b else -(-a / b)
  }

  predicate SameDirection(net: int, fill: int) {
    net == 0 || (net > 0 <==> fill > 0)
  }

  /** The weighted average entry price, half up for non-negative totals. */
  function Average(avg: int, held: nat, price: int, qty: nat): int
    requires qty > 0
  {
    Quotient(avg * held + price * qty + (held + qty) / 2, held + qty)
  }

  /** `apply_fill_to_position`; `qty` is the magnitude of `fill`. */
  function ApplyFill(pos: Position, fill: int, qty: nat, price: int): Position
    requires qty > 0
  {
    var was, now := pos.net, pos.net + fill;
    var p :=
      if SameDirection(was, fill) then
        pos.(avg := Average(pos.avg, Abs(was), price, qty), net := now)
      else
        var close := Min(Abs(was), qty);
        var gain := if was > 0 then close * (price - pos.avg) else close * (pos.avg - price);
        pos.(realized := pos.realized + gain, net := now,
             avg := if now == 0 then 0 else if (was > 0) != (now > 0) then price else pos.avg);
    p.(totalCost := p.avg * Abs(p.net))
  }

  // ---------------------------------------------------------------- rounding

  lemma {:induction false} DivBounds(a: nat, b: nat)
    requires b > 0
    ensures a / b * b <= a < a / b * b + b && a / b * b == a - a % b
  {
  }

  /**
   The rounded average is within half a unit per share of the true one exactly when the rounded
   total is non-negative or divides evenly: below zero, division toward zero rounds the wrong way.
   */
  lemma RoundingExact(total: int, shares: nat)
    requires shares > 0
    ensures var q := Quotient(total + shares / 2, shares);
            Abs(q * shares - total) <= shares / 2
            <==> (total + shares / 2 >= 0 || (-(total + shares / 2)) % shares == 0)
  {
    var a := total + shares / 2;
    var q := Quotient(a, shares);
    if a >= 0 {
      DivBounds(a, shares);
      assert q * shares == a / shares * shares;
    } else {
      DivBounds(-a, shares);
      assert q * shares == -((-a) / shares * shares);
    }
  }

  /** Two shares held at -7 and one more at -10 average to -7, a whole unit off the true -8. */
  lemma NegativePricesDrift()
    ensures Average(-7, 2, -10, 1) * 3 - (-7 * 2 + -10 * 1) > 3 / 2
  {
  }

  /** The rounded total of an average: where `RoundingExact` finds it within half a unit per share. */
  predicate RoundsWell(total: int, shares: nat)
    requires shares > 0
  {
    total + shares / 2 >= 0 || (-(total + shares / 2)) % shares == 0
  }

  lemma Distribute(a: int, b: int, c: int)
    ensures (a - b) * c == a * c - b * c
  {
  }

  /** A multiple of the shares is within half of them only when it is zero. */
  lemma NoSmallMultiple(d: int, shares: nat)
    requires shares > 0
    ensures Abs(d * shares) <= shares / 2 <==> d * shares == 0
    ensures d * shares == 0 <==> d == 0
  {
    assert d >= 1 ==> d * shares >= shares;
    assert d <= -1 ==> d * shares + shares <= 0;
  }

  /** Opening from flat: the average is the price itself, or the rounding went wrong. */
  lemma OpeningIff(price: int, qty: nat, total: int, a: int)
    requires qty > 0 && total == price * qty && a == Quotient(total + qty / 2, qty)
    ensures a * qty - total == 0 <==> RoundsWell(total, qty)
    ensures a * qty - total == 0 <==> a == price
  {
    RoundingExact(total, qty);
    Distribute(a, price, qty);
    NoSmallMultiple(a - price, qty);
  }

  lemma ProductNonNegative(a: nat, b: nat)
    ensures a * b >= 0
  {
  }

  lemma TotalIsClose(total: nat, shares: nat, a: int)
    requires shares > 0 && a == Quotient(total + shares / 2, shares)
    ensures a >= 0 && Abs(a * shares - total) <= shares / 2
  {
    RoundingExact(total, shares);
  }

  lemma AverageIsClose(avg: nat, held: nat, price: nat, qty: nat)
    requires qty > 0
    ensures var a := Average(avg, held, price, qty);
            && a >= 0
            && Abs(a * (held + qty) - (avg * held + price * qty)) <= (held + qty) / 2
            && (held == 0 ==> a == price)
  {
    var total := avg * held + price * qty;
    ProductNonNegative(avg, held);
    ProductNonNegative(price, qty);
    TotalIsClose(total, held + qty, Average(avg, held, price, qty));
    if held == 0 {
      ZeroTimes(avg, held);
      OpeningIff(price, qty, total, Average(avg, held, price, qty));
    }
  }

  lemma ZeroTimes(a: int, b: int)
    requires b == 0
    ensures a * b == 0
  {
  }

  // ---------------------------------------------------------------- what one fill does

  /** `a` is `total / shares` rounded half up, but toward zero when the rounded total is negative. */
  ghost predicate IsRounded(a: int, total: int, shares: nat) {
    var t := total + shares / 2;
    if t >= 0 then a * shares <= t < a * shares + shares else a * shares - shares < t <= a * shares
  }

  /** Shares of `pos` held in the direction of `fill` grow, and the entry price is averaged. */
  ghost predicate IsIncrease(pos: Position, r: Position, qty: nat, price: int) {
    r.realized == pos.realized && IsRounded(r.avg, pos.avg * Abs(pos.net) + price * qty, Abs(pos.net) + qty)
  }

  /** The closed shares earn the distance of the price from the entry price; what is left keeps its entry price. */
  ghost predicate IsReduction(pos: Position, r: Position, qty: nat, price: int) {
    && r.realized == pos.realized + Min(Abs(pos.net), qty) * (if pos.net > 0 then price - pos.avg else pos.avg - price)
    && (r.net == 0 ==> r.avg == 0)
    && (r.net != 0 && (r.net > 0 <==> pos.net > 0) ==> r.avg == pos.avg)
    && (r.net != 0 && (r.net > 0 <==> pos.net < 0) ==> r.avg == price)
  }

  /** A fill of `qty` shares, signed `fill`, at `price`. */
  ghost predicate IsFilled(pos: Position, r: Position, fill: int, qty: nat, price: int) {
    && r.net == pos.net + fill
    && r.totalCost == r.avg * Abs(r.net)
    && (if pos.net == 0 || (pos.net > 0 <==> fill > 0) then IsIncrease(pos, r, qty, price) else IsReduction(pos, r, qty, price))
  }

  lemma QuotientRounds(total: int, shares: nat)
    requires shares > 0
    ensures IsRounded(Quotient(total + shares / 2, shares), total, shares)
  {
    var t := total + shares / 2;
    if t >= 0 {
      DivBounds(t, shares);
    } else {
      DivBounds(-t, shares);
      var q := Quotient(t, shares);
      assert q * shares == -((-t) / shares * shares);
    }
  }

  lemma FillLaw(pos: Position, fill: int, qty: nat, price: int)
    requires qty > 0
    ensures var r := ApplyFill(pos, fill, qty, price);
            && IsFilled(pos, r, fill, qty, price)
            && r.pending == pos.pending && r.fees == pos.fees && r.roundTrips == pos.roundTrips
  {
    QuotientRounds(pos.avg * Abs(pos.net) + price * qty, Abs(pos.net) + qty);
    if pos.net == 0 || (pos.net > 0 <==> fill > 0) {
      IncreaseLaw(pos, fill, qty, price);
    }
  }

  lemma IncreaseLaw(pos: Position, fill: int, qty: nat, price: int)
    requires qty > 0 && SameDirection(pos.net, fill)
    requires var shares := Abs(pos.net) + qty; var total := pos.avg * Abs(pos.net) + price * qty;
             IsRounded(Quotient(total + shares / 2, shares), total, shares)
    ensures IsIncrease(pos, ApplyFill(pos, fill, qty, price), qty, price)
  {
  }

  // ---------------------------------------------------------------- profit and loss

  /** Realized gain less the book value of what is held; plus the cash paid out this should be zero. */
  function Drift(p: Position): int {
    p.realized - p.avg * p.net
  }

  /** What one fill may add to the drift: half a unit per share held, when it increases an open position. */
  function Slack(net: int, fill: int): nat {
    if net != 0 && SameDirection(net, fill) then Abs(net + fill) / 2 else 0
  }

  /** The drift of an increase is the rounding error of the average, whichever side the position is on. */
  lemma SignedAverage(avg: int, net: int, fill: int, price: int, a: int)
    requires SameDirection(net, fill)
    ensures Abs(net + fill) == Abs(net) + Abs(fill)
    ensures Abs(avg * net - a * (net + fill) + fill * price)
            == Abs(a * (Abs(net) + Abs(fill)) - (avg * Abs(net) + price * Abs(fill)))
  {
    var held: int, qty: int := Abs(net), Abs(fill);
    if net > 0 || (net == 0 && fill > 0) {
      assert avg * net - a * (net + fill) + fill * price == -(a * (held + qty) - (avg * held + price * qty));
    } else {
      Negate(avg, held);
      Negate(a, held + qty);
      Negate(price, qty);
      assert avg * net - a * (net + fill) + fill * price == a * (held + qty) - (avg * held + price * qty);
    }
  }

  lemma Negate(a: int, b: int)
    ensures a * -b == -(a * b) && -b * a == -(a * b)
  {
  }

  lemma Increase(p: Position, fill: int, price: nat)
    requires fill != 0 && p.avg >= 0 && SameDirection(p.net, fill)
    ensures var r := ApplyFill(p, fill, Abs(fill), price);
            r.avg >= 0 && Abs(Drift(r) - Drift(p) + fill * price) <= Slack(p.net, fill)
  {
    var a := Average(p.avg, Abs(p.net), price, Abs(fill));
    AverageIsClose(p.avg, Abs(p.net), price, Abs(fill));
    SignedAverage(p.avg, p.net, fill, price, a);
    if p.net == 0 {
      ZeroTimes(p.avg, p.net);
    }
  }

  lemma CloseOut(net: int, fill: int, avg: int, price: int, close: int, gain: int)
    requires net > 0 ==> gain == close * (price - avg)
    requires net < 0 ==> gain == close * (avg - price)
    requires close == Abs(net) && net != 0
    ensures gain == net * price - avg * net
  {
    if net > 0 {
      assert gain == net * price - net * avg;
    } else {
      assert gain == (-net) * avg - (-net) * price;
    }
  }

  /** Closing, or flipping through zero: the old leg is realized and any new one starts at the fill price. */
  lemma CloseOrFlip(p: Position, fill: int, price: int)
    requires fill != 0 && !SameDirection(p.net, fill) && Abs(fill) >= Abs(p.net)
    ensures var r := ApplyFill(p, fill, Abs(fill), price);
            Drift(r) - Drift(p) + fill * price == 0 && (r.avg == 0 || r.avg == price)
  {
    var r := ApplyFill(p, fill, Abs(fill), price);
    CloseOut(p.net, fill, p.avg, price, Abs(p.net), r.realized - p.realized);
    assert r.avg * r.net == price * (p.net + fill);
    assert price * (p.net + fill) == price * p.net + price * fill;
  }

  lemma PartReduce(p: Position, fill: int, price: int)
    requires fill != 0 && !SameDirection(p.net, fill) && Abs(fill) < Abs(p.net)
    ensures var r := ApplyFill(p, fill, Abs(fill), price);
            Drift(r) - Drift(p) + fill * price == 0 && r.avg == p.avg
  {
    var r := ApplyFill(p, fill, Abs(fill), price);
    assert r.realized - p.realized == p.avg * fill - fill * price by {
      assert p.net > 0 ==> (-fill) * (price - p.avg) == p.avg * fill - fill * price;
      assert p.net < 0 ==> fill * (p.avg - price) == p.avg * fill - fill * price;
    }
    assert p.avg * (p.net + fill) == p.avg * p.net + p.avg * fill;
  }

  /** One fill: reductions, closes, flips and openings are exact; an increase is off by its rounding. */
  lemma FillDrift(p: Position, fill: int, price: nat)
    requires fill != 0 && p.avg >= 0
    ensures var r := ApplyFill(p, fill, Abs(fill), price);
            r.avg >= 0 && r.net == p.net + fill && r.pending == p.pending
            && Abs(Drift(r) - Drift(p) + fill * price) <= Slack(p.net, fill)
  {
    if SameDirection(p.net, fill) {
      Increase(p, fill, price);
    } else if Abs(fill) >= Abs(p.net) {
      CloseOrFlip(p, fill, price);
    } else {
      PartReduce(p, fill, price);
    }
  }

  lemma IncreaseIff(avg: int, net: int, fill: int, price: int, total: int, a: int)
    requires fill != 0 && SameDirection(net, fill) && total == avg * Abs(net) + price * Abs(fill)
    requires a == Quotient(total + (Abs(net) + Abs(fill)) / 2, Abs(net) + Abs(fill))
    ensures Abs(a * (Abs(net) + Abs(fill)) - total) <= Slack(net, fill) <==> RoundsWell(total, Abs(net) + Abs(fill))
  {
    if net == 0 {
      ZeroTimes(avg, Abs(net));
      OpeningIff(price, Abs(fill), total, a);
    } else {
      RoundingExact(total, Abs(net) + Abs(fill));
      assert Abs(net + fill) == Abs(net) + Abs(fill);
    }
  }

  /**
   At any prices, negative ones too, one fill stays within its slack if and only if it reduces, closes
   or flips the position, or the average it leads to rounds well.
   */
  lemma FillDriftIff(p: Position, fill: int, price: int)
    requires fill != 0
    ensures var r := ApplyFill(p, fill, Abs(fill), price);
            Abs(Drift(r) - Drift(p) + fill * price) <= Slack(p.net, fill)
            <==> !SameDirection(p.net, fill)
                 || RoundsWell(p.avg * Abs(p.net) + price * Abs(fill), Abs(p.net) + Abs(fill))
  {
    if SameDirection(p.net, fill) {
      var a := Average(p.avg, Abs(p.net), price, Abs(fill));
      IncreaseIff(p.avg, p.net, fill, price, p.avg * Abs(p.net) + price * Abs(fill), a);
      SignedAverage(p.avg, p.net, fill, price, a);
    } else if Abs(fill) >= Abs(p.net) {
      CloseOrFlip(p, fill, price);
    } else {
      PartReduce(p, fill, price);
    }
  }

  datatype Trade = Trade(fill: int, price: nat)

  function RunFills(p: Position, ts: seq<Trade>): Position
    requires forall t | t in ts :: t.fill != 0
    decreases |ts|
  {
    if ts == [] then p else RunFills(ApplyFill(p, ts[0].fill, Abs(ts[0].fill), ts[0].price), ts[1..])
  }

  function Spent(ts: seq<Trade>): int {
    if ts == [] then 0 else ts[0].fill * ts[0].price + Spent(ts[1..])
  }

  function TotalSlack(net: int, ts: seq<Trade>): nat
    decreases |ts|
  {
    if ts == [] then 0 else Slack(net, ts[0].fill) + TotalSlack(net + ts[0].fill, ts[1..])
  }

  /**
   Over every run of fills at non-negative prices, what was realized less the book value of the
   position matches the cash spent up to the rounding of the increases alone.
   */
  lemma {:induction false} RunDrift(p: Position, ts: seq<Trade>)
    requires p.avg >= 0 && forall t | t in ts :: t.fill != 0
    ensures Abs(Drift(RunFills(p, ts)) - Drift(p) + Spent(ts)) <= TotalSlack(p.net, ts)
    decreases |ts|
  {
    if ts != [] {
      FillDrift(p, ts[0].fill, ts[0].price);
      RunDrift(ApplyFill(p, ts[0].fill, Abs(ts[0].fill), ts[0].price), ts[1..]);
    }
  }

  /** Between two moments at flat, a position realizes the cash it took in, up to that rounding. */
  lemma RoundTrip(p: Position, ts: seq<Trade>, r: Position)
    requires p.avg >= 0 && (forall t | t in ts :: t.fill != 0) && r == RunFills(p, ts)
    requires p.net == 0 && r.net == 0
    ensures Abs(r.realized - p.realized + Spent(ts)) <= TotalSlack(0, ts)
  {
    RunDrift(p, ts);
    FlatDrift(p);
    FlatDrift(r);
  }

  lemma FlatDrift(r: Position)
    requires r.net == 0
    ensures Drift(r) == r.realized
  {
  }
}
