/**
 The single-producer/single-consumer ring of `lockfree/spsc_queue.hpp`, as a transition system of
 one producer and one consumer. `pushed` and `popped` are auxiliary: the items committed by the
 producer's store to `head` and by the consumer's store to `tail`.
 */
module SpscQueue {
  import opened Ring

  datatype Producer<W> =
    | PIdle(refused: bool)
    | PLoadHead(item: seq<W>)
    | PLoadTail(item: seq<W>, h: nat)
    | PWrite(item: seq<W>, h: nat, done: nat)

  datatype Consumer<W> =
    | CIdle(refused: bool)
    | CLoadTail
    | CLoadHead(t: nat)
    | CRead(t: nat, got: seq<W>)

  datatype Move<W> = Push(item: seq<W>) | Pop | ProducerGo | ConsumerGo

  datatype Spsc<W> = Spsc(
    width: nat,
    buffer: seq<seq<W>>,
    head: nat,
    tail: nat,
    producer: Producer<W>,
    consumer: Consumer<W>,
    pushed: seq<seq<W>>,
    popped: seq<seq<W>>)

  function Init<W>(size: nat, width: nat, zero: W): Spsc<W> {
    Spsc(width, seq(size, _ => seq(width, _ => zero)), 0, 0, PIdle(false), CIdle(false), [], [])
  }

  function Next(i: nat, n: nat): nat
    requires n > 0
  {
    Wrap(i + 1, n)
  }

  function ProducerStep<W>(q: Spsc<W>): (r: Spsc<W>)
    requires |q.buffer| > 0
    ensures |r.buffer| == |q.buffer| && r.width == q.width
  {
    match q.producer
    case PIdle(_) => q
    case PLoadHead(item) => q.(producer := PLoadTail(item, q.head))
    case PLoadTail(item, h) =>
      if Next(h, |q.buffer|) == q.tail then q.(producer := PIdle(true))
      else q.(producer := PWrite(item, h, 0))
    case PWrite(item, h, done) =>
      if done < |item| then
        if h < |q.buffer| && done < |q.buffer[h]| then
          q.(buffer := q.buffer[h := q.buffer[h][done := item[done]]], producer := PWrite(item, h, done + 1))
        else q
      else q.(head := Next(h, |q.buffer|), pushed := q.pushed + [item], producer := PIdle(false))
  }

  function ConsumerStep<W>(q: Spsc<W>): (r: Spsc<W>)
    requires |q.buffer| > 0
    ensures |r.buffer| == |q.buffer| && r.width == q.width
  {
    match q.consumer
    case CIdle(_) => q
    case CLoadTail => q.(consumer := CLoadHead(q.tail))
    case CLoadHead(t) => if t == q.head then q.(consumer := CIdle(true)) else q.(consumer := CRead(t, []))
    case CRead(t, got) =>
      if t < |q.buffer| && |got| < |q.buffer[t]| then q.(consumer := CRead(t, got + [q.buffer[t][|got|]]))
      else q.(tail := Next(t, |q.buffer|), popped := q.popped + [got], consumer := CIdle(false))
  }

  function Step<W>(q: Spsc<W>, m: Move<W>): (r: Spsc<W>)
    requires |q.buffer| > 0
    ensures |r.buffer| == |q.buffer| && r.width == q.width
  {
    match m
    case Push(item) => if q.producer.PIdle? && |item| == q.width then q.(producer := PLoadHead(item)) else q
    case Pop => if q.consumer.CIdle? then q.(consumer := CLoadTail) else q
    case ProducerGo => ProducerStep(q)
    case ConsumerGo => ConsumerStep(q)
  }

  function Run<W>(q: Spsc<W>, moves: seq<Move<W>>): (r: Spsc<W>)
    requires |q.buffer| > 0
    ensures |r.buffer| == |q.buffer| && r.width == q.width
    decreases |moves|
  {
    if moves == [] then q else Run(Step(q, moves[0]), moves[1..])
  }

  // ---------------------------------------------------------------- invariant

  ghost predicate SlotsInv<W>(q: Spsc<W>)
    requires |q.buffer| > 0
  {
    && (forall s: nat | s < |q.buffer| :: |q.buffer[s]| == q.width)
    && forall k: nat | |q.popped| <= k < |q.pushed| :: q.buffer[Wrap(k, |q.buffer|)] == q.pushed[k]
  }

  ghost predicate ProducerInv<W>(q: Spsc<W>)
    requires |q.buffer| > 0
  {
    match q.producer
    case PIdle(_) => true
    case PLoadHead(item) => |item| == q.width
    case PLoadTail(item, h) => |item| == q.width && h == q.head
    case PWrite(item, h, done) =>
      && |item| == q.width && h == q.head < |q.buffer| && done <= |item| == |q.buffer[h]|
      && |q.pushed| - |q.popped| + 1 < |q.buffer|
      && q.buffer[h][..done] == item[..done]
  }

  ghost predicate ConsumerInv<W>(q: Spsc<W>)
    requires |q.buffer| > 0
  {
    match q.consumer
    case CIdle(_) => true
    case CLoadTail => true
    case CLoadHead(t) => t == q.tail
    case CRead(t, got) => t == q.tail < |q.buffer| && |q.popped| < |q.pushed| && got <= q.buffer[t]
  }

  ghost predicate Inv<W>(q: Spsc<W>) {
    && |q.buffer| > 0
    && q.popped <= q.pushed
    && |q.pushed| - |q.popped| < |q.buffer|
    && q.head == Wrap(|q.pushed|, |q.buffer|) && q.tail == Wrap(|q.popped|, |q.buffer|)
    && SlotsInv(q) && ProducerInv(q) && ConsumerInv(q)
  }

  lemma FullTest<W>(q: Spsc<W>)
    requires Inv(q)
    ensures Next(q.head, |q.buffer|) == q.tail <==> |q.pushed| - |q.popped| == |q.buffer| - 1
  {
    var n := |q.buffer|;
    WrapOffset(|q.pushed|, 1, n);
    if |q.pushed| + 1 < |q.popped| + n {
      SlotsDiffer(|q.popped|, |q.pushed| + 1, n);
    }
  }

  lemma EmptyTest<W>(q: Spsc<W>)
    requires Inv(q)
    ensures q.head == q.tail <==> |q.pushed| == |q.popped|
  {
    if q.head == q.tail { SameSlot(|q.popped|, |q.pushed|, |q.buffer|); }
  }

  lemma WriteKeepsInv<W>(q: Spsc<W>)
    requires Inv(q) && q.producer.PWrite? && q.producer.done < |q.producer.item|
    ensures Inv(ProducerStep(q))
  {
    var n, pc, r := |q.buffer|, q.producer, ProducerStep(q);
    forall k: nat | |r.popped| <= k < |r.pushed| ensures r.buffer[Wrap(k, n)] == r.pushed[k] {
      SlotsDiffer(k, |q.pushed|, n);
    }
    if q.consumer.CRead? { SlotsDiffer(|q.popped|, |q.pushed|, n); }
    assert pc.item[..pc.done + 1] == pc.item[..pc.done] + [pc.item[pc.done]];
    assert r.buffer[pc.h][..pc.done + 1] == q.buffer[pc.h][..pc.done] + [pc.item[pc.done]];
  }

  lemma CommitKeepsInv<W>(q: Spsc<W>)
    requires Inv(q) && q.producer.PWrite? && q.producer.done == |q.producer.item|
    ensures Inv(ProducerStep(q))
  {
    var n, pc, r := |q.buffer|, q.producer, ProducerStep(q);
    WrapOffset(|q.pushed|, 1, n);
    assert pc.item == q.buffer[pc.h];
  }

  lemma ProducerKeepsInv<W>(q: Spsc<W>)
    requires Inv(q)
    ensures Inv(ProducerStep(q))
  {
    if q.producer.PWrite? {
      if q.producer.done < |q.producer.item| { WriteKeepsInv(q); } else { CommitKeepsInv(q); }
    } else if q.producer.PLoadTail? {
      FullTest(q);
    }
  }

  lemma ReleaseKeepsInv<W>(q: Spsc<W>)
    requires Inv(q) && q.consumer.CRead? && |q.consumer.got| >= |q.buffer[q.tail]|
    ensures Inv(ConsumerStep(q))
  {
    WrapOffset(|q.popped|, 1, |q.buffer|);
    assert q.consumer.got == q.buffer[q.tail] == q.pushed[|q.popped|];
    PrefixGrows(q.popped, q.pushed);
    assert ProducerInv(ConsumerStep(q)) && SlotsInv(ConsumerStep(q));
  }

  lemma PrefixGrows<W>(popped: seq<seq<W>>, pushed: seq<seq<W>>)
    requires popped <= pushed && |popped| < |pushed|
    ensures popped + [pushed[|popped|]] <= pushed
  {
  }

  lemma ConsumerKeepsInv<W>(q: Spsc<W>)
    requires Inv(q)
    ensures Inv(ConsumerStep(q))
  {
    if q.consumer.CRead? {
      if |q.consumer.got| >= |q.buffer[q.tail]| { ReleaseKeepsInv(q); }
    } else if q.consumer.CLoadHead? {
      EmptyTest(q);
    }
  }

  lemma StepKeepsInv<W>(q: Spsc<W>, m: Move<W>)
    requires Inv(q)
    ensures Inv(Step(q, m))
  {
    match m
    case ProducerGo => ProducerKeepsInv(q);
    case ConsumerGo => ConsumerKeepsInv(q);
    case _ =>
  }

  lemma {:induction false} RunKeepsInv<W>(q: Spsc<W>, moves: seq<Move<W>>)
    requires Inv(q)
    ensures Inv(Run(q, moves))
    decreases |moves|
  {
    if moves != [] {
      StepKeepsInv(q, moves[0]);
      RunKeepsInv(Step(q, moves[0]), moves[1..]);
    }
  }

  // ---------------------------------------------------------------- what the caller asked for

  /** The argument of the producer's call, read off the moves: a push of an idle producer starts a new one. */
  function Argument<W>(q: Spsc<W>, m: Move<W>, arg: seq<W>): seq<W> {
    if q.producer.PIdle? && m.Push? then m.item else arg
  }

  /** This move makes the producer's call return true. */
  predicate ReturnsPushed<W>(q: Spsc<W>, m: Move<W>)
    requires |q.buffer| > 0
  {
    var pc := Step(q, m).producer;
    !q.producer.PIdle? && pc.PIdle? && !pc.refused
  }

  /** The arguments of the pushes that return true along a list of moves, in order. */
  function Asked<W>(q: Spsc<W>, moves: seq<Move<W>>, arg: seq<W>): seq<seq<W>>
    requires |q.buffer| > 0
    decreases |moves|
  {
    if moves == [] then []
    else
      (if ReturnsPushed(q, moves[0]) then [arg] else [])
      + Asked(Step(q, moves[0]), moves[1..], Argument(q, moves[0], arg))
  }

  /** A producer inside a push still carries the argument of its call. */
  ghost predicate Carries<W>(pc: Producer<W>, arg: seq<W>) {
    !pc.PIdle? ==> pc.item == arg
  }

  lemma StepPushes<W>(q: Spsc<W>, m: Move<W>, arg: seq<W>)
    requires |q.buffer| > 0 && Carries(q.producer, arg)
    ensures Carries(Step(q, m).producer, Argument(q, m, arg))
    ensures Step(q, m).pushed == q.pushed + if ReturnsPushed(q, m) then [arg] else []
  {
  }

  /** Along every list of moves the items pushed are the callers' arguments, in the order of their calls. */
  lemma {:induction false} PushesAreAsked<W>(q: Spsc<W>, moves: seq<Move<W>>, arg: seq<W>)
    requires |q.buffer| > 0 && Carries(q.producer, arg)
    ensures Run(q, moves).pushed == q.pushed + Asked(q, moves, arg)
    decreases |moves|
  {
    if moves != [] {
      StepPushes(q, moves[0], arg);
      PushesAreAsked(Step(q, moves[0]), moves[1..], Argument(q, moves[0], arg));
    }
  }

  /**
   In every interleaving what was pushed is what the callers asked for, and the consumer has received
   a prefix of it, with at most `SIZE - 1` items behind.
   */
  lemma EveryRunDeliversAPrefix<W>(size: nat, width: nat, zero: W, moves: seq<Move<W>>)
    requires size > 0
    ensures var q := Run(Init(size, width, zero), moves);
            && q.pushed == Asked(Init(size, width, zero), moves, [])
            && q.popped <= q.pushed && |q.pushed| - |q.popped| <= size - 1
  {
    RunKeepsInv(Init(size, width, zero), moves);
    PushesAreAsked(Init(size, width, zero), moves, []);
  }

  // ---------------------------------------------------------------- progress

  /** The steps a producer still needs to return. */
  function ProducerNeeds<W>(q: Spsc<W>): int {
    match q.producer
    case PIdle(_) => 0
    case PLoadHead(_) => q.width + 3
    case PLoadTail(_, _) => q.width + 2
    case PWrite(_, _, done) => q.width - done + 1
  }

  function ConsumerNeeds<W>(q: Spsc<W>): int {
    match q.consumer
    case CIdle(_) => 0
    case CLoadTail => q.width + 3
    case CLoadHead(_) => q.width + 2
    case CRead(_, got) => q.width - |got| + 1
  }

  function ProducerTurns<W>(moves: seq<Move<W>>): nat {
    if moves == [] then 0 else (if moves[0].ProducerGo? then 1 else 0) + ProducerTurns(moves[1..])
  }

  function ConsumerTurns<W>(moves: seq<Move<W>>): nat {
    if moves == [] then 0 else (if moves[0].ConsumerGo? then 1 else 0) + ConsumerTurns(moves[1..])
  }

  /** A call that is under way comes closer to its end with each step of its thread, whatever the other thread does. */
  lemma StepProgress<W>(q: Spsc<W>, m: Move<W>)
    requires Inv(q)
    ensures !q.producer.PIdle? ==> ProducerNeeds(Step(q, m)) <= ProducerNeeds(q) - if m.ProducerGo? then 1 else 0
    ensures !q.consumer.CIdle? ==> ConsumerNeeds(Step(q, m)) <= ConsumerNeeds(q) - if m.ConsumerGo? then 1 else 0
  {
  }

  /** Running the first `k + 1` moves is stepping once and running the next `k`. */
  lemma RunLater<W>(q: Spsc<W>, moves: seq<Move<W>>, k: nat)
    requires |q.buffer| > 0 && k < |moves|
    ensures Run(q, moves[..k + 1]) == Run(Step(q, moves[0]), moves[1..][..k])
  {
    assert moves[..k + 1][1..] == moves[1..][..k];
  }

  /** The producer's call has returned, and has pushed its argument unless it was refused. */
  ghost predicate PushAnswered<W>(q: Spsc<W>, r: Spsc<W>, item: seq<W>) {
    r.producer.PIdle? && r.pushed == q.pushed + if r.producer.refused then [] else [item]
  }

  /** The consumer's call has returned, and has popped one item unless it was refused. */
  ghost predicate PopAnswered<W>(q: Spsc<W>, r: Spsc<W>) {
    r.consumer.CIdle? && |r.popped| == |q.popped| + if r.consumer.refused then 0 else 1
  }

  lemma {:induction false} PushReturns<W>(q: Spsc<W>, moves: seq<Move<W>>, item: seq<W>)
    requires Inv(q) && !q.producer.PIdle? && Carries(q.producer, item) && ProducerTurns(moves) >= ProducerNeeds(q)
    ensures exists k: nat :: k <= |moves| && PushAnswered(q, Run(q, moves[..k]), item)
    decreases |moves|
  {
    StepProgress(q, moves[0]);
    StepKeepsInv(q, moves[0]);
    StepPushes(q, moves[0], item);
    var r := Step(q, moves[0]);
    RunLater(q, moves, 0);
    if !r.producer.PIdle? {
      PushReturns(r, moves[1..], item);
      var k: nat :| k <= |moves[1..]| && PushAnswered(r, Run(r, moves[1..][..k]), item);
      RunLater(q, moves, k);
      assert PushAnswered(q, Run(q, moves[..k + 1]), item);
    }
  }

  lemma StepPops<W>(q: Spsc<W>, m: Move<W>)
    requires |q.buffer| > 0 && !q.consumer.CIdle?
    ensures var r := Step(q, m); r.consumer.CIdle? ==> PopAnswered(q, r)
    ensures var r := Step(q, m); !r.consumer.CIdle? ==> r.popped == q.popped
  {
  }

  lemma {:induction false} PopReturns<W>(q: Spsc<W>, moves: seq<Move<W>>)
    requires Inv(q) && !q.consumer.CIdle? && ConsumerTurns(moves) >= ConsumerNeeds(q)
    ensures exists k: nat :: k <= |moves| && PopAnswered(q, Run(q, moves[..k]))
    decreases |moves|
  {
    StepProgress(q, moves[0]);
    StepKeepsInv(q, moves[0]);
    StepPops(q, moves[0]);
    var r := Step(q, moves[0]);
    RunLater(q, moves, 0);
    if !r.consumer.CIdle? {
      PopReturns(r, moves[1..]);
      var k: nat :| k <= |moves[1..]| && PopAnswered(r, Run(r, moves[1..][..k]));
      RunLater(q, moves, k);
      assert PopAnswered(q, Run(q, moves[..k + 1]));
    }
  }

  /** Wait-freedom: whatever the consumer does, a push returns within `width + 3` steps of its own and has pushed its argument or nothing. */
  lemma PushIsWaitFree<W>(q: Spsc<W>, item: seq<W>, moves: seq<Move<W>>)
    requires Inv(q) && q.producer.PIdle? && |item| == q.width && ProducerTurns(moves) >= q.width + 3
    ensures exists k: nat :: k <= |moves| && PushAnswered(q, Run(Step(q, Push(item)), moves[..k]), item)
  {
    PushReturns(Step(q, Push(item)), moves, item);
  }

  /** The same for a pop. */
  lemma PopIsWaitFree<W>(q: Spsc<W>, moves: seq<Move<W>>)
    requires Inv(q) && q.consumer.CIdle? && ConsumerTurns(moves) >= q.width + 3
    ensures exists k: nat :: k <= |moves| && PopAnswered(q, Run(Step(q, Pop), moves[..k]))
  {
    PopReturns(Step(q, Pop), moves);
  }

  /** A push is refused exactly when `SIZE - 1` items wait at its load of the tail, a pop exactly when none does. */
  lemma RefusalsAreExact<W>(q: Spsc<W>)
    requires Inv(q)
    ensures q.producer.PLoadTail? ==>
              (ProducerStep(q).producer == PIdle(true) <==> |q.pushed| - |q.popped| == |q.buffer| - 1)
    ensures q.consumer.CLoadHead? ==>
              (ConsumerStep(q).consumer == CIdle(true) <==> |q.pushed| == |q.popped|)
  {
    FullTest(q);
    EmptyTest(q);
  }
}
