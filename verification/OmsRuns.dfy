/** What holds over every run of the order management system. */
module OmsRuns {
  import opened PositionBook
  import opened Oms

  datatype Op =
    | DoSubmit(symbol: string, side: Side, price: Price, qty: Quantity, expire: int)
    | DoFill(id: nat, qty: Quantity, at: int)
    | DoCancel(id: nat)
    | DoReplace(id: nat, price: Price, qty: Quantity)
    | DoAmend(id: nat, qty: Quantity)
    | DoCancelAll

  function After(s: State, lim: Limits, op: Op): State {
    match op
    case DoSubmit(symbol, side, price, qty, expire) => Submit(s, lim, symbol, side, price, qty, expire).0
    case DoFill(id, qty, at) => Fill(s, lim, id, qty, at).0
    case DoCancel(id) => Cancel(s, id)
    case DoReplace(id, price, qty) => Replace(s, lim, id, price, qty).0
    case DoAmend(id, qty) => Amend(s, lim, id, qty).0
    case DoCancelAll => CancelAll(s)
  }

  function Run(s: State, lim: Limits, ops: seq<Op>): State {
    if ops == [] then s else After(Run(s, lim, ops[..|ops| - 1]), lim, ops[|ops| - 1])
  }

  // ---------------------------------------------------------------- the ledger

  /** Quantities ordered or replaced to that survive the narrowing to 32-bit signed. */
  predicate Narrow(op: Op) {
    (op.DoSubmit? || op.DoReplace?) ==> op.qty < TWO31
  }

  lemma StepKeepsLedger(s: State, lim: Limits, op: Op)
    requires Good(s) && Narrow(op)
    ensures Good(After(s, lim, op))
  {
    match op
    case DoSubmit(symbol, side, price, qty, expire) => SubmitKeeps(s, lim, symbol, side, price, qty, expire);
    case DoFill(id, qty, at) => FillKeeps(s, lim, id, qty, at);
    case DoCancel(id) => CancelKeeps(s, id);
    case DoReplace(id, price, qty) => ReplaceKeeps(s, lim, id, price, qty);
    case DoAmend(id, qty) => AmendKeeps(s, lim, id, qty);
    case DoCancelAll => CancelAllReleases(s);
  }

  /** An amend only reduces, so it never meets the narrowing. */
  lemma AmendKeeps(s: State, lim: Limits, id: nat, qty: Quantity)
    requires Good(s)
    ensures Good(Amend(s, lim, id, qty).0)
  {
    if id in s.orders && qty < s.orders[id].quantity {
      ReplaceKeeps(s, lim, id, Fixed(s.orders[id].price), qty);
    }
  }

  /** In every reachable state each symbol's pending quantity is the signed sum of its open remainders. */
  lemma {:induction false} EveryRunBalances(s: State, lim: Limits, ops: seq<Op>)
    requires Good(s) && forall op | op in ops :: Narrow(op)
    ensures Good(Run(s, lim, ops))
  {
    if ops != [] {
      EveryRunBalances(s, lim, ops[..|ops| - 1]);
      StepKeepsLedger(Run(s, lim, ops[..|ops| - 1]), lim, ops[|ops| - 1]);
    }
  }

  /** From a balanced state an accepted submission stays balanced exactly when its quantity fits 31 bits. */
  lemma SubmitBalancesIff(s: State, lim: Limits, symbol: string, side: Side, price: Price, qty: Quantity, expire: int)
    requires Good(s) && Submit(s, lim, symbol, side, price, qty, expire).1.Accepted?
    ensures Ledger(Submit(s, lim, symbol, side, price, qty, expire).0) <==> qty < TWO31
  {
    var s' := Submit(s, lim, symbol, side, price, qty, expire).0;
    var k := Key(symbol);
    SumUpdate(s.orders, s.nextId, s'.orders[s.nextId], k, s.nextId, Remainder);
    if k !in s.positions {
      NoPositionNoOrder(s, k);
    }
    assert s.nextId + 1 !in s'.orders;
    if qty < TWO31 {
      SubmitKeeps(s, lim, symbol, side, price, qty, expire);
    } else {
      assert s'.positions[k].pending != Total(s', k, Remainder);
    }
  }

  /** A penny order to buy 4294967246 shares passes both checks and is booked as fifty shares sold short. */
  lemma HugeBuyBooksAsSell()
    ensures var (s, a) := Submit(EMPTY, Limits(1000, 100000, 0), "ABC", Buy, Fixed(5000), 4294967246, 0);
            a == Accepted(1) && "ABC" in s.positions && s.positions["ABC"].pending == -50
  {
  }

  /** An accepted replace stays balanced exactly when its new quantity fits 31 bits. */
  lemma ReplaceBalancesIff(s: State, lim: Limits, id: nat, price: Price, qty: Quantity)
    requires Good(s) && Replace(s, lim, id, price, qty).1
    ensures Ledger(Replace(s, lim, id, price, qty).0) <==> qty < TWO31
  {
    var s' := Replace(s, lim, id, price, qty).0;
    var k := s.orders[id].symbol;
    if qty < TWO31 {
      ReplaceKeeps(s, lim, id, price, qty);
    } else {
      SumUpdate(s.orders, id, s'.orders[id], k, s.nextId, Remainder);
      assert s'.positions[k].pending != Total(s', k, Remainder);
    }
  }

  /** A penny order of 100 shares, replaced to 4294967246, is booked as fifty shares sold short. */
  lemma HugeReplaceBooksAsSell()
    ensures var lim := Limits(1000, 100000, 0);
            var s := Submit(EMPTY, lim, "ABC", Buy, Fixed(5000), 100, 0).0;
            var (t, done) := Replace(s, lim, 1, Fixed(5000), 4294967246);
            done && "ABC" in t.positions && t.positions["ABC"].pending == -50
  {
  }

  // ---------------------------------------------------------------- net positions and order values

  /** A symbol's net position is the signed sum of what its orders have executed. */
  ghost predicate NetIsExecuted(s: State, k: string) {
    PositionAt(s, k).net == Total(s, k, Done)
  }

  lemma {:induction false} SameShares(a: map<nat, Order>, b: map<nat, Order>, k: string, n: nat, m: Measure)
    requires a.Keys == b.Keys && forall id | id in a :: Share(a[id], k, m) == Share(b[id], k, m)
    ensures Sum(a, k, n, m) == Sum(b, k, n, m)
  {
    if n > 0 {
      SameShares(a, b, k, n - 1, m);
    }
  }

  lemma SwapExecuted(s: State, id: nat, o: Order, t: State, k: string)
    requires Ids(s) && id in s.orders && t.orders == s.orders[id := o] && t.nextId == s.nextId
    requires o.symbol == s.orders[id].symbol && o.side == s.orders[id].side
    ensures Total(t, k, Done)
            == Total(s, k, Done) + if o.symbol == k then Directed(o.side, o.filled - s.orders[id].filled) else 0
  {
    SumUpdate(s.orders, id, o, k, s.nextId, Done);
  }

  lemma FillNets(s: State, lim: Limits, id: nat, qty: Quantity, at: int, k: string)
    requires Good(s) && NetIsExecuted(s, k)
    ensures NetIsExecuted(Fill(s, lim, id, qty, at).0, k)
  {
    var t := Fill(s, lim, id, qty, at).0;
    if Applied(s, id, qty) > 0 {
      SwapExecuted(s, id, t.orders[id], t, k);
    }
  }

  lemma SubmitNets(s: State, lim: Limits, op: Op, k: string)
    requires Good(s) && NetIsExecuted(s, k) && op.DoSubmit?
    ensures NetIsExecuted(After(s, lim, op), k)
  {
    var t := After(s, lim, op);
    if t.nextId != s.nextId {
      SumUpdate(s.orders, s.nextId, t.orders[s.nextId], k, s.nextId, Done);
      assert s.nextId + 1 !in t.orders;
    }
  }

  lemma ReplaceNets(s: State, lim: Limits, id: nat, price: Price, qty: Quantity, k: string)
    requires Good(s) && NetIsExecuted(s, k)
    ensures NetIsExecuted(Replace(s, lim, id, price, qty).0, k)
  {
    var (t, done) := Replace(s, lim, id, price, qty);
    if done {
      SwapExecuted(s, id, t.orders[id], t, k);
    }
  }

  lemma StepNets(s: State, lim: Limits, op: Op, k: string)
    requires Good(s) && NetIsExecuted(s, k)
    ensures NetIsExecuted(After(s, lim, op), k)
  {
    match op
    case DoSubmit(_, _, _, _, _) => SubmitNets(s, lim, op, k);
    case DoFill(id, qty, at) => FillNets(s, lim, id, qty, at, k);
    case DoCancel(id) =>
      if id in s.orders && Working(s.orders[id]) {
        SwapExecuted(s, id, Cancel(s, id).orders[id], Cancel(s, id), k);
      }
    case DoReplace(id, price, qty) => ReplaceNets(s, lim, id, price, qty, k);
    case DoAmend(id, qty) =>
      if id in s.orders {
        ReplaceNets(s, lim, id, Fixed(s.orders[id].price), qty, k);
      }
    case DoCancelAll => SameShares(s.orders, CancelAll(s).orders, k, s.nextId, Done);
  }

  /** In every reachable state the net position of each symbol is what its orders executed. */
  lemma {:induction false} EveryRunNets(s: State, lim: Limits, ops: seq<Op>, k: string)
    requires Good(s) && NetIsExecuted(s, k) && forall op | op in ops :: Narrow(op)
    ensures NetIsExecuted(Run(s, lim, ops), k)
  {
    if ops != [] {
      EveryRunNets(s, lim, ops[..|ops| - 1], k);
      EveryRunBalances(s, lim, ops[..|ops| - 1]);
      StepNets(Run(s, lim, ops[..|ops| - 1]), lim, ops[|ops| - 1], k);
    }
  }

  predicate Affordable(o: Order, lim: Limits) {
    o.price > 0 && o.quantity > 0 && o.symbol != [] && o.price / PRICE_SCALE * o.quantity <= lim.maxOrderValue
  }

  ghost predicate AllAffordable(s: State, lim: Limits) {
    forall id | id in s.orders :: Affordable(s.orders[id], lim)
  }

  lemma StepAffordable(s: State, lim: Limits, op: Op)
    requires AllAffordable(s, lim)
    ensures AllAffordable(After(s, lim, op), lim)
  {
  }

  /** No run ever holds an order that input validation or the value limit should have stopped. */
  lemma {:induction false} EveryRunAffordable(s: State, lim: Limits, ops: seq<Op>)
    requires AllAffordable(s, lim)
    ensures AllAffordable(Run(s, lim, ops), lim)
  {
    if ops != [] {
      EveryRunAffordable(s, lim, ops[..|ops| - 1]);
      StepAffordable(Run(s, lim, ops[..|ops| - 1]), lim, ops[|ops| - 1]);
    }
  }

  /** An amend never fails the value check: what it keeps of an accepted order is cheaper still. */
  lemma AmendOnlyMeetsPositionLimit(s: State, lim: Limits, id: nat, qty: Quantity)
    requires AllAffordable(s, lim) && id in s.orders && Working(s.orders[id])
    requires 0 < qty < s.orders[id].quantity && s.orders[id].filled <= qty
    ensures var o := s.orders[id];
            var pos := PositionAt(s, o.symbol);
            Amend(s, lim, id, qty).1 <==>
              Abs(pos.net + pos.pending + Reservation(o.(quantity := qty)) - Reservation(o)) <= lim.maxPosition
  {
    var o := s.orders[id];
    SmallerValue(o.price / PRICE_SCALE, qty, o.quantity);
  }

  lemma SmallerValue(price: int, a: int, b: int)
    requires price >= 0 && a <= b
    ensures price * a <= price * b
  {
  }

  // ---------------------------------------------------------------- exposure

  /** A fill moves quantity from pending to net: the exposure of no symbol changes. */
  lemma FillKeepsExposure(s: State, lim: Limits, id: nat, qty: Quantity, at: int, k: string)
    ensures var p, r := PositionAt(s, k), PositionAt(Fill(s, lim, id, qty, at).0, k);
            p.net + p.pending == r.net + r.pending
  {
  }

  predicate WithinAt(s: State, lim: Limits, k: string) {
    k in s.positions ==> Abs(s.positions[k].net + s.positions[k].pending) <= lim.maxPosition
  }

  predicate Cancels(op: Op) {
    op.DoCancel? || op.DoCancelAll?
  }

  /** Every order's symbol has a position: submitting creates it. */
  ghost predicate Booked(s: State) {
    forall id | id in s.orders :: s.orders[id].symbol in s.positions
  }

  lemma StepWithin(s: State, lim: Limits, op: Op, k: string)
    requires Booked(s) && WithinAt(s, lim, k) && !Cancels(op)
    ensures Booked(After(s, lim, op)) && WithinAt(After(s, lim, op), lim, k)
  {
  }

  /** Without cancels, no run of submits, fills, replaces and amends ever leaves the position limit. */
  lemma {:induction false} CancelFreeRunStaysWithin(s: State, lim: Limits, ops: seq<Op>, k: string)
    requires Booked(s) && WithinAt(s, lim, k) && forall op | op in ops :: !Cancels(op)
    ensures Booked(Run(s, lim, ops)) && WithinAt(Run(s, lim, ops), lim, k)
  {
    if ops != [] {
      CancelFreeRunStaysWithin(s, lim, ops[..|ops| - 1], k);
      StepWithin(Run(s, lim, ops[..|ops| - 1]), lim, ops[|ops| - 1], k);
    }
  }

  /** With a cancel the limit can be left: opposite orders net out when they are checked. */
  lemma CancelBreaksLimit()
    ensures var lim := Limits(100, 1000000, 0);
            var ops := [DoSubmit("ABC", Buy, Fixed(10000), 100, 0), DoSubmit("ABC", Sell, Fixed(10000), 200, 0), DoCancel(1)];
            WithinAt(Run(EMPTY, lim, ops[..2]), lim, "ABC") && !WithinAt(Run(EMPTY, lim, ops), lim, "ABC")
  {
    var lim := Limits(100, 1000000, 0);
    var a, b := DoSubmit("ABC", Buy, Fixed(10000), 100, 0), DoSubmit("ABC", Sell, Fixed(10000), 200, 0);
    var ops := [a, b, DoCancel(1)];
    assert ops[..2] == [a, b] && [a, b][..1] == [a] && [a][..0] == [];
    var s1 := After(EMPTY, lim, a);
    assert Run(EMPTY, lim, [a]) == s1;
    assert s1.positions["ABC"].pending == 100 && s1.nextId == 2;
    var s2 := After(s1, lim, b);
    assert Run(EMPTY, lim, [a, b]) == s2;
    assert s2.positions["ABC"].pending == -100;
    assert Run(EMPTY, lim, ops) == Cancel(s2, 1);
  }

  // ---------------------------------------------------------------- when cancels are safe

  /** Each side of the open orders alone, on top of the net position, stays within the limit. */
  predicate OneSided(s: State, lim: Limits, k: string) {
    && PositionAt(s, k).net + Total(s, k, Only(Buy)) <= lim.maxPosition
    && PositionAt(s, k).net + Total(s, k, Only(Sell)) >= -lim.maxPosition
  }

  /** Operations that create no new exposure. */
  predicate Quiet(op: Op) {
    op.DoFill? || op.DoCancel? || op.DoCancelAll?
  }

  lemma {:induction false} SidesAddUp(s: State, k: string, n: nat)
    requires OrdersOk(s)
    ensures Sum(s.orders, k, n, Only(Buy)) >= 0 >= Sum(s.orders, k, n, Only(Sell))
    ensures Sum(s.orders, k, n, Remainder) == Sum(s.orders, k, n, Only(Buy)) + Sum(s.orders, k, n, Only(Sell))
  {
    if n > 0 {
      SidesAddUp(s, k, n - 1);
    }
  }

  lemma OneSidedIsWithin(s: State, lim: Limits, k: string)
    requires Good(s) && OneSided(s, lim, k)
    ensures WithinAt(s, lim, k)
  {
    SidesAddUp(s, k, s.nextId);
  }

  lemma QuietStepOneSided(s: State, lim: Limits, op: Op, k: string)
    requires Good(s) && OneSided(s, lim, k) && Quiet(op)
    ensures OneSided(After(s, lim, op), lim, k)
  {
    if op.DoCancelAll? {
      SidesAddUp(s, k, s.nextId);
      RetiredOrders(s, k, Only(Buy));
      RetiredOrders(s, k, Only(Sell));
    } else if op.id in s.orders {
      SumUpdate(s.orders, op.id, After(s, lim, op).orders[op.id], k, s.nextId, Only(Buy));
      SumUpdate(s.orders, op.id, After(s, lim, op).orders[op.id], k, s.nextId, Only(Sell));
    }
  }

  lemma {:induction false} QuietRunOneSided(s: State, lim: Limits, ops: seq<Op>, k: string)
    requires Good(s) && OneSided(s, lim, k) && forall op | op in ops :: Quiet(op)
    ensures Good(Run(s, lim, ops)) && OneSided(Run(s, lim, ops), lim, k)
  {
    if ops != [] {
      QuietRunOneSided(s, lim, ops[..|ops| - 1], k);
      var t, op := Run(s, lim, ops[..|ops| - 1]), ops[|ops| - 1];
      QuietStepOneSided(t, lim, op, k);
      StepKeepsLedger(t, lim, op);
    }
  }

  /** Cancel every order of one side of one symbol, up to id `n`. */
  function CancelsOf(s: State, k: string, side: Side, n: nat): (ops: seq<Op>)
    ensures forall op | op in ops :: Quiet(op)
  {
    if n == 0 then []
    else
      CancelsOf(s, k, side, n - 1)
      + if Targeted(s, k, side, n) then [DoCancel(n)] else []
  }

  function Opposite(side: Side): Side {
    if side == Buy then Sell else Buy
  }

  /** What those cancels have done so far. */
  ghost predicate Swept(s: State, t: State, k: string, side: Side, n: nat) {
    && Good(t) && t.nextId == s.nextId && t.positions.Keys == s.positions.Keys
    && PositionAt(t, k).net == PositionAt(s, k).net
    && Total(t, k, Only(Opposite(side))) == Total(s, k, Only(Opposite(side)))
    && (forall id | id in t.orders :: id in s.orders && t.orders[id].symbol == s.orders[id].symbol
                                      && t.orders[id].side == s.orders[id].side)
    && (forall id | id in t.orders && id <= n :: Share(t.orders[id], k, Only(side)) == 0)
  }

  predicate Targeted(s: State, k: string, side: Side, n: nat) {
    n in s.orders && s.orders[n].symbol == k && s.orders[n].side == side
  }

  lemma SweepOne(s: State, t: State, k: string, side: Side, n: nat)
    requires n > 0 && Swept(s, t, k, side, n - 1) && Targeted(t, k, side, n)
    ensures Swept(s, Cancel(t, n), k, side, n)
  {
    CancelKeeps(t, n);
    if Working(t.orders[n]) {
      SumUpdate(t.orders, n, t.orders[n].(status := Cancelled), k, t.nextId, Only(Opposite(side)));
    }
  }

  lemma SweepPast(s: State, t: State, k: string, side: Side, n: nat)
    requires n > 0 && Swept(s, t, k, side, n - 1) && !Targeted(t, k, side, n)
    ensures Swept(s, t, k, side, n)
  {
  }

  lemma CancelsStep(s: State, lim: Limits, k: string, side: Side, n: nat)
    requires n > 0
    ensures var t := Run(s, lim, CancelsOf(s, k, side, n - 1));
            Run(s, lim, CancelsOf(s, k, side, n)) == if Targeted(s, k, side, n) then Cancel(t, n) else t
  {
    var front, ops := CancelsOf(s, k, side, n - 1), CancelsOf(s, k, side, n);
    if Targeted(s, k, side, n) {
      assert ops[..|ops| - 1] == front && ops[|ops| - 1] == DoCancel(n);
    } else {
      assert ops == front;
    }
  }

  lemma SweepNext(s: State, t: State, k: string, side: Side, n: nat)
    requires n > 0 && Good(s) && Swept(s, t, k, side, n - 1)
    ensures Swept(s, if Targeted(s, k, side, n) then Cancel(t, n) else t, k, side, n)
  {
    SameIds(s, t);
    if Targeted(t, k, side, n) {
      SweepOne(s, t, k, side, n);
    } else {
      SweepPast(s, t, k, side, n);
    }
  }

  lemma {:induction false} Sweep(s: State, lim: Limits, k: string, side: Side, n: nat)
    requires Good(s)
    ensures Swept(s, Run(s, lim, CancelsOf(s, k, side, n)), k, side, n)
  {
    if n > 0 {
      Sweep(s, lim, k, side, n - 1);
      SweepNext(s, Run(s, lim, CancelsOf(s, k, side, n - 1)), k, side, n);
      CancelsStep(s, lim, k, side, n);
    }
  }

  lemma SameIds(s: State, t: State)
    requires Ids(s) && Ids(t) && s.nextId == t.nextId
    ensures forall id: nat :: id in s.orders <==> id in t.orders
  {
  }

  /** With one side pulled, the exposure is the net position plus the other side alone. */
  lemma SweptExposure(s: State, t: State, k: string, side: Side)
    requires Good(s) && Swept(s, t, k, side, s.nextId) && k in s.positions
    ensures PositionAt(t, k).net + PositionAt(t, k).pending == PositionAt(s, k).net + Total(s, k, Only(Opposite(side)))
  {
    SidesAddUp(t, k, t.nextId);
    NothingOpen(t.orders, k, t.nextId, Only(side));
  }

  /**
   A symbol stays within its limit through every sequence of fills and cancels exactly when each side
   of its open orders, taken alone, fits: the check a caller can make before pulling orders.
   */
  lemma CancelSafeIff(s: State, lim: Limits, k: string)
    requires Good(s) && k in s.positions
    ensures OneSided(s, lim, k)
            <==> forall ops | (forall op | op in ops :: Quiet(op)) :: WithinAt(Run(s, lim, ops), lim, k)
  {
    if OneSided(s, lim, k) {
      forall ops | (forall op | op in ops :: Quiet(op)) ensures WithinAt(Run(s, lim, ops), lim, k) {
        QuietRunOneSided(s, lim, ops, k);
        OneSidedIsWithin(Run(s, lim, ops), lim, k);
      }
    } else {
      UnsafeSweep(s, lim, k);
    }
  }

  lemma UnsafeSweep(s: State, lim: Limits, k: string)
    requires Good(s) && k in s.positions && !OneSided(s, lim, k)
    ensures exists ops :: (forall op | op in ops :: Quiet(op)) && !WithinAt(Run(s, lim, ops), lim, k)
  {
    var pulled := if PositionAt(s, k).net + Total(s, k, Only(Buy)) > lim.maxPosition then Sell else Buy;
    var ops := CancelsOf(s, k, pulled, s.nextId);
    Sweep(s, lim, k, pulled, s.nextId);
    SweptExposure(s, Run(s, lim, ops), k, pulled);
    assert !WithinAt(Run(s, lim, ops), lim, k);
  }

  // ---------------------------------------------------------------- lifecycle

  predicate Final(o: Order) {
    o.status == Filled || o.status == Cancelled
  }

  /** An order keeps its identity, never un-fills, and once FILLED or CANCELLED never changes again. */
  ghost predicate Evolves(s: State, t: State) {
    forall id | id in s.orders ::
      && id in t.orders && t.orders[id].symbol == s.orders[id].symbol && t.orders[id].side == s.orders[id].side
      && t.orders[id].filled >= s.orders[id].filled
      && (Final(s.orders[id]) ==> t.orders[id] == s.orders[id])
  }

  lemma SwapEvolves(s: State, id: nat, o: Order, t: State)
    requires Ids(s) && id in s.orders && t.orders == s.orders[id := o] && t.nextId == s.nextId
    requires o.symbol == s.orders[id].symbol && o.side == s.orders[id].side && o.filled >= s.orders[id].filled
    requires !Final(s.orders[id])
    ensures Ids(t) && Evolves(s, t)
  {
  }

  lemma ReplaceEvolves(s: State, lim: Limits, id: nat, price: Price, qty: Quantity)
    requires Ids(s)
    ensures var t := Replace(s, lim, id, price, qty).0; Ids(t) && Evolves(s, t)
  {
    var (t, done) := Replace(s, lim, id, price, qty);
    if done {
      SwapEvolves(s, id, t.orders[id], t);
    }
  }

  lemma StepEvolves(s: State, lim: Limits, op: Op)
    requires Ids(s)
    ensures Ids(After(s, lim, op)) && Evolves(s, After(s, lim, op))
  {
    match op
    case DoSubmit(symbol, side, price, qty, expire) =>
    case DoFill(id, qty, at) =>
      if Applied(s, id, qty) > 0 {
        SwapEvolves(s, id, After(s, lim, op).orders[id], After(s, lim, op));
      }
    case DoCancel(id) =>
      if id in s.orders && Working(s.orders[id]) {
        SwapEvolves(s, id, After(s, lim, op).orders[id], After(s, lim, op));
      }
    case DoReplace(id, price, qty) => ReplaceEvolves(s, lim, id, price, qty);
    case DoAmend(id, qty) =>
      if id in s.orders {
        ReplaceEvolves(s, lim, id, Fixed(s.orders[id].price), qty);
      }
    case DoCancelAll =>
  }

  lemma {:induction false} EveryRunEvolves(s: State, lim: Limits, ops: seq<Op>)
    requires Ids(s)
    ensures Ids(Run(s, lim, ops)) && Evolves(s, Run(s, lim, ops))
  {
    if ops != [] {
      EveryRunEvolves(s, lim, ops[..|ops| - 1]);
      StepEvolves(Run(s, lim, ops[..|ops| - 1]), lim, ops[|ops| - 1]);
    }
  }

  // ---------------------------------------------------------------- profit and loss over whole runs

  /** The signed quantity of `k` that an operation executes. */
  function Executed(s: State, op: Op, k: string): int {
    if op.DoFill? && op.id in s.orders && s.orders[op.id].symbol == k
    then Directed(s.orders[op.id].side, Applied(s, op.id, op.qty))
    else 0
  }

  function Paid(op: Op, n: int): int {
    if op.DoFill? && n != 0 then n * op.at else 0
  }

  /** Cash paid out on `k` over a run. */
  function CashOut(s: State, lim: Limits, ops: seq<Op>, k: string): int {
    if ops == [] then 0
    else
      var front, op := ops[..|ops| - 1], ops[|ops| - 1];
      CashOut(s, lim, front, k) + Paid(op, Executed(Run(s, lim, front), op, k))
  }

  /** Half a unit per share held, for each fill that increased an open position. */
  function Rounding(s: State, lim: Limits, ops: seq<Op>, k: string): nat {
    if ops == [] then 0
    else
      var front := ops[..|ops| - 1];
      var t := Run(s, lim, front);
      var n := Executed(t, ops[|ops| - 1], k);
      Rounding(s, lim, front, k) + if n == 0 then 0 else Slack(PositionAt(t, k).net, n)
  }

  /** Operations that execute nothing on a symbol leave its books alone. */
  lemma NoFillNoChange(s: State, lim: Limits, op: Op, k: string)
    requires Ids(s) && Executed(s, op, k) == 0
    ensures var p, r := PositionAt(s, k), PositionAt(After(s, lim, op), k);
            r.avg == p.avg && r.net == p.net && r.realized == p.realized
  {
    if op.DoFill? && Applied(s, op.id, op.qty) != 0 {
      assert s.orders[op.id].symbol != k;
    }
  }

  lemma StepDrift(s: State, lim: Limits, op: Op, k: string)
    requires Good(s) && PositionAt(s, k).avg >= 0 && (op.DoFill? ==> op.at >= 0)
    ensures var p, r, n := PositionAt(s, k), PositionAt(After(s, lim, op), k), Executed(s, op, k);
            && r.avg >= 0
            && (n == 0 ==> Drift(r) == Drift(p))
            && (n != 0 ==> op.DoFill? && Abs(Drift(r) - Drift(p) + n * op.at) <= Slack(p.net, n))
  {
    var n := Executed(s, op, k);
    if n == 0 {
      NoFillNoChange(s, lim, op, k);
    } else {
      FillIsApply(s, lim, op, k);
      DriftOf(PositionAt(s, k), PositionAt(After(s, lim, op), k), n, op.at);
    }
  }

  lemma DriftOf(p: Position, r: Position, n: int, price: int)
    requires n != 0 && p.avg >= 0 && price >= 0
    requires var a := ApplyFill(p, n, Abs(n), price); r.avg == a.avg && r.net == a.net && r.realized == a.realized
    ensures r.avg >= 0 && Abs(Drift(r) - Drift(p) + n * price) <= Slack(p.net, n)
  {
    FillDrift(p, n, price);
  }

  lemma FillIsApply(s: State, lim: Limits, op: Op, k: string)
    requires Good(s) && Executed(s, op, k) != 0
    ensures var p, r, n := PositionAt(s, k), PositionAt(After(s, lim, op), k), Executed(s, op, k);
            var a := ApplyFill(p, n, Abs(n), op.at);
            r.avg == a.avg && r.net == a.net && r.realized == a.realized
  {
  }

  lemma AddUp(d0: int, d1: int, d2: int, c1: int, c2: int, r1: nat, r2: nat)
    requires Abs(d1 - d0 + c1) <= r1 && Abs(d2 - d1 + c2) <= r2
    ensures Abs(d2 - d0 + (c1 + c2)) <= r1 + r2
  {
  }

  /** A symbol's drift moved from `drift` against the cash paid out, up to the rounding of the increases. */
  ghost predicate Balances(s: State, lim: Limits, ops: seq<Op>, k: string, drift: int) {
    Abs(Drift(PositionAt(Run(s, lim, ops), k)) - drift + CashOut(s, lim, ops, k)) <= Rounding(s, lim, ops, k)
  }

  /**
   Over every run at non-negative fill prices, each symbol's realized profit less its book value
   differs from the cash it moved by no more than the rounding of the fills that increased it.
   */
  lemma {:induction false} EveryRunAccounts(s: State, lim: Limits, ops: seq<Op>, k: string)
    requires Good(s) && PositionAt(s, k).avg >= 0
    requires forall op | op in ops :: Narrow(op) && (op.DoFill? ==> op.at >= 0)
    ensures PositionAt(Run(s, lim, ops), k).avg >= 0
    ensures Balances(s, lim, ops, k, Drift(PositionAt(s, k)))
  {
    if ops != [] {
      var front, op := ops[..|ops| - 1], ops[|ops| - 1];
      var t := Run(s, lim, front);
      EveryRunAccounts(s, lim, front, k);
      EveryRunBalances(s, lim, front);
      StepDrift(t, lim, op, k);
      var n := Executed(t, op, k);
      AddUp(Drift(PositionAt(s, k)), Drift(PositionAt(t, k)), Drift(PositionAt(After(t, lim, op), k)),
            CashOut(s, lim, front, k), Paid(op, n),
            Rounding(s, lim, front, k), if n == 0 then 0 else Slack(PositionAt(t, k).net, n));
    }
  }

  // ---------------------------------------------------------------- every reachable state

  lemma EmptyIsGood(s: State, k: string)
    requires s == EMPTY
    ensures Good(s) && NetIsExecuted(s, k) && PositionAt(s, k) == FLAT
  {
    NothingOpen(s.orders, k, s.nextId, Done);
  }

  /**
   In every state that operations of narrow quantities reach from nothing, pending is the open
   remainders and net is what was executed.
   */
  lemma ReachableStates(s: State, lim: Limits, ops: seq<Op>, k: string)
    requires s == EMPTY && forall op | op in ops :: Narrow(op)
    ensures Good(Run(s, lim, ops)) && NetIsExecuted(Run(s, lim, ops), k)
  {
    EmptyIsGood(s, k);
    EveryRunBalances(s, lim, ops);
    EveryRunNets(s, lim, ops, k);
  }

  /**
   And at non-negative fill prices its realized profit less its book value is the cash taken in, up to
   the rounding of the increases.
   */
  lemma ReachableAccounts(s: State, lim: Limits, ops: seq<Op>, k: string)
    requires s == EMPTY && forall op | op in ops :: Narrow(op) && (op.DoFill? ==> op.at >= 0)
    ensures Balances(s, lim, ops, k, 0)
  {
    EmptyIsGood(s, k);
    AccountsFromFlat(s, lim, ops, k, PositionAt(s, k));
  }

  lemma AccountsFromFlat(s: State, lim: Limits, ops: seq<Op>, k: string, p: Position)
    requires Good(s) && p == PositionAt(s, k) && p.net == p.avg == p.realized == 0
    requires forall op | op in ops :: Narrow(op) && (op.DoFill? ==> op.at >= 0)
    ensures Balances(s, lim, ops, k, 0)
  {
    EveryRunAccounts(s, lim, ops, k);
    FlatDrift(p);
  }
}
