/**
 The N-producer/1-consumer queue of `lockfree/mpsc_queue.hpp`. Its `push` is the code of
 `mpmc_queue.hpp`; its `pop` has no CAS, releases the stamp first and stores the tail afterwards.

 The queue is proved to be an implementation of the MPMC queue: every run of it is a run of the
 MPMC queue in which the consumer claims its ticket at the moment it sees the published stamp.
 */
module MpscQueue {
  import opened MpmcQueue

  datatype ConsumerPc<W> =
    | Resting(last: Outcome<W>)
    | LoadTail
    | LoadStamp(pos: nat)
    | Read(pos: nat, got: seq<W>)
    | StoreTail(pos: nat, item: seq<W>)

  /** `shared.threads[0]` stands for the consumer and is not used; the producers follow it. */
  datatype Mpsc<W> = Mpsc(shared: Queue<W>, consumer: ConsumerPc<W>)

  function MInit<W>(size: nat, width: nat, zero: W, producers: nat): Mpsc<W> {
    Mpsc(Init(size, width, zero, producers + 1), Resting(Nothing))
  }

  function ConsumerStep<W>(m: Mpsc<W>, c: Choice<W>): (r: Mpsc<W>)
    requires |m.shared.cells| > 0
    ensures SameShape(m.shared, r.shared)
  {
    var q := m.shared;
    match m.consumer
    case Resting(_) => if c == BeginPop then m.(consumer := LoadTail) else m
    case LoadTail => m.(consumer := LoadStamp(q.tail))
    case LoadStamp(pos) =>
      if Stamp(q, pos) != pos + 1 then m.(consumer := Resting(Empty(pos)))
      else m.(consumer := Read(pos, []))
    case Read(pos, got) =>
      if |got| < |Data(q, pos)| then m.(consumer := Read(pos, got + [Data(q, pos)[|got|]]))
      else Mpsc(SetStamp(q, pos, pos + |q.cells|).(popped := q.popped[pos := got]), StoreTail(pos, got))
    case StoreTail(pos, item) => Mpsc(q.(tail := pos + 1), Resting(Popped(pos, item)))
  }

  /** Thread 0 pops, every other thread only pushes. */
  function MStep<W>(m: Mpsc<W>, i: nat, c: Choice<W>): (r: Mpsc<W>)
    requires |m.shared.cells| > 0 && i < |m.shared.threads|
    ensures SameShape(m.shared, r.shared)
  {
    if i == 0 then ConsumerStep(m, c)
    else if m.shared.threads[i].Idle? && !c.BeginPush? then m
    else m.(shared := Step(m.shared, i, c))
  }

  function MRun<W>(m: Mpsc<W>, sched: seq<(nat, Choice<W>)>): (r: Mpsc<W>)
    requires |m.shared.cells| > 0 && IsSchedule(sched, |m.shared.threads|)
    ensures SameShape(m.shared, r.shared)
    decreases |sched|
  {
    if sched == [] then m else MRun(MStep(m, sched[0].0, sched[0].1), sched[1..])
  }

  // ---------------------------------------------------------------- the MPMC queue it implements

  function ConsumerAs<W>(p: ConsumerPc<W>): Pc<W> {
    match p
    case Resting(last) => Idle(last)
    case LoadTail => PopLoadTail
    case LoadStamp(pos) => PopLoadStamp(pos)
    case Read(pos, got) => PopRead(pos, got)
    case StoreTail(pos, item) => Idle(Popped(pos, item))
  }

  /** The tail counting the ticket the consumer has taken but not yet stored. */
  function TakenTail<W>(m: Mpsc<W>): nat {
    if m.consumer.Read? || m.consumer.StoreTail? then m.shared.tail + 1 else m.shared.tail
  }

  function Abs<W>(m: Mpsc<W>): Queue<W>
    requires |m.shared.threads| > 0
  {
    m.shared.(tail := TakenTail(m),
              threads := m.shared.threads[0 := ConsumerAs(m.consumer)],
              reader := if m.consumer.Read? then map[m.consumer.pos := 0] else map[])
  }

  predicate OnlyPushes<W>(pc: Pc<W>) {
    pc.Idle? || pc.PushLoadHead? || pc.PushLoadStamp? || pc.PushCas? || pc.PushWrite?
  }

  ghost predicate MInv<W>(m: Mpsc<W>) {
    && |m.shared.threads| > 0
    && Inv(Abs(m))
    && (m.consumer.LoadStamp? || m.consumer.Read? || m.consumer.StoreTail? ==> m.consumer.pos == m.shared.tail)
    && forall i | 0 < i < |m.shared.threads| :: OnlyPushes(m.shared.threads[i])
  }

  lemma MInitInv<W>(size: nat, width: nat, zero: W, producers: nat)
    requires size >= 2
    ensures MInv(MInit(size, width, zero, producers))
  {
    InitInv(size, width, zero, producers + 1);
    assert Abs(MInit(size, width, zero, producers)) == Init(size, width, zero, producers + 1);
  }

  ghost predicate AtProducer<W>(m: Mpsc<W>, i: nat, c: Choice<W>) {
    && |m.shared.cells| > 0 && 0 < i < |m.shared.threads|
    && OnlyPushes(m.shared.threads[i])
    && (c.BeginPush? || InFlight(m.shared, i))
  }

  /** Moving a producer commutes with the view of the queue as an MPMC queue. */
  lemma GotoLifts<W>(m: Mpsc<W>, q: Queue<W>, i: nat, pc: Pc<W>)
    requires 0 < i < |m.shared.threads| && |q.threads| == |m.shared.threads| && q.tail == m.shared.tail
    ensures Abs(m.(shared := Goto(q, i, pc))) == Goto(Abs(m.(shared := q)), i, pc)
  {
  }

  lemma WriteWordLifts<W>(m: Mpsc<W>, pos: nat, k: nat, w: W)
    requires |m.shared.cells| > 0 && |m.shared.threads| > 0
    ensures Abs(m.(shared := WriteWord(m.shared, pos, k, w))) == WriteWord(Abs(m), pos, k, w)
  {
  }

  lemma SetStampLifts<W>(m: Mpsc<W>, pos: nat, stamp: nat)
    requires |m.shared.cells| > 0 && |m.shared.threads| > 0
    ensures Abs(m.(shared := SetStamp(m.shared, pos, stamp))) == SetStamp(Abs(m), pos, stamp)
  {
  }

  lemma WriteStepLifts<W>(m: Mpsc<W>, i: nat, item: seq<W>, pos: nat, done: nat)
    requires |m.shared.cells| > 0 && 0 < i < |m.shared.threads|
    ensures Abs(m.(shared := WriteStep(m.shared, i, item, pos, done))) == WriteStep(Abs(m), i, item, pos, done)
  {
    if done < |item| {
      WriteWordLifts(m, pos, done, item[done]);
      GotoLifts(m, WriteWord(m.shared, pos, done, item[done]), i, PushWrite(item, pos, done + 1));
    } else {
      SetStampLifts(m, pos, pos + 1);
      GotoLifts(m, SetStamp(m.shared, pos, pos + 1), i, Idle(Pushed(pos)));
    }
  }

  lemma ProducerCopyIsMpmc<W>(m: Mpsc<W>, i: nat, c: Choice<W>)
    requires AtProducer(m, i, c) && m.shared.threads[i].PushWrite?
    ensures Abs(MStep(m, i, c)) == Step(Abs(m), i, c)
    ensures OnlyPushes(MStep(m, i, c).shared.threads[i])
  {
    var pc := m.shared.threads[i];
    WriteStepLifts(m, i, pc.item, pc.pos, pc.done);
  }

  lemma ProducerCasIsMpmc<W>(m: Mpsc<W>, i: nat, c: Choice<W>)
    requires AtProducer(m, i, c) && m.shared.threads[i].PushCas?
    ensures Abs(MStep(m, i, c)) == Step(Abs(m), i, c)
    ensures OnlyPushes(MStep(m, i, c).shared.threads[i])
  {
    var q, a := m.shared, Abs(m);
    var pc := q.threads[i];
    assert Step(q, i, c) == PushCasStep(q, i, pc.item, pc.pos, c == Go(true));
    assert Step(a, i, c) == PushCasStep(a, i, pc.item, pc.pos, c == Go(true));
  }

  lemma ProducerStampIsMpmc<W>(m: Mpsc<W>, i: nat, c: Choice<W>)
    requires AtProducer(m, i, c) && m.shared.threads[i].PushLoadStamp?
    ensures Abs(MStep(m, i, c)) == Step(Abs(m), i, c)
    ensures OnlyPushes(MStep(m, i, c).shared.threads[i])
  {
    var q, a := m.shared, Abs(m);
    var pc := q.threads[i];
    assert Step(q, i, c) == PushStampStep(q, i, pc.item, pc.pos);
    assert Step(a, i, c) == PushStampStep(a, i, pc.item, pc.pos);
    GotoLifts(m, q, i, Step(q, i, c).threads[i]);
  }

  lemma ProducerBeginIsMpmc<W>(m: Mpsc<W>, i: nat, c: Choice<W>)
    requires AtProducer(m, i, c) && (m.shared.threads[i].Idle? || m.shared.threads[i].PushLoadHead?)
    ensures Abs(MStep(m, i, c)) == Step(Abs(m), i, c)
    ensures OnlyPushes(MStep(m, i, c).shared.threads[i])
  {
    var q, a := m.shared, Abs(m);
    if q.threads[i].Idle? {
      assert Step(q, i, c) == BeginStep(q, i, c) && Step(a, i, c) == BeginStep(a, i, c);
    }
    GotoLifts(m, q, i, Step(q, i, c).threads[i]);
  }

  /** A producer's step is the same step of the MPMC queue. */
  lemma ProducerStepIsMpmc<W>(m: Mpsc<W>, i: nat, c: Choice<W>)
    requires AtProducer(m, i, c)
    ensures Abs(MStep(m, i, c)) == Step(Abs(m), i, c)
    ensures OnlyPushes(MStep(m, i, c).shared.threads[i])
  {
    match m.shared.threads[i]
    case Idle(_) => ProducerBeginIsMpmc(m, i, c);
    case PushLoadHead(_) => ProducerBeginIsMpmc(m, i, c);
    case PushLoadStamp(_, _) => ProducerStampIsMpmc(m, i, c);
    case PushCas(_, _) => ProducerCasIsMpmc(m, i, c);
    case PushWrite(_, _, _) => ProducerCopyIsMpmc(m, i, c);
  }

  lemma ConsumerStampIsMpmc<W>(m: Mpsc<W>, c: Choice<W>) returns (s: seq<(nat, Choice<W>)>)
    requires MInv(m) && m.consumer.LoadStamp?
    ensures IsSchedule(s, |m.shared.threads|)
    ensures Abs(MStep(m, 0, c)) == Run(Abs(m), s)
  {
    var a := Abs(m);
    var a1 := Step(a, 0, Go(false));
    StampStepIs(m, c, a, a1);
    RunOne(a, 0, Go(false));
    s := [(0, Go(false))];
    if Stamp(a, m.consumer.pos) == m.consumer.pos + 1 {
      RunOne(a1, 0, Go(false));
      RunAppend(a, s, s);
      s := s + s;
    }
  }

  /** Seeing the stamp is one step of the MPMC queue when refused, and two, with the claim, when not. */
  lemma StampStepIs<W>(m: Mpsc<W>, c: Choice<W>, a: Queue<W>, a1: Queue<W>)
    requires MInv(m) && m.consumer.LoadStamp? && a == Abs(m) && a1 == Step(a, 0, Go(false))
    ensures var pos := m.consumer.pos;
            Abs(MStep(m, 0, c)) == if Stamp(a, pos) == pos + 1 then Step(a1, 0, Go(false)) else a1
  {
    var pos := m.consumer.pos;
    TailCell(a);
    assert a1 == PopStampStep(a, 0, pos);
    if Stamp(a, pos) == pos + 1 {
      assert a1 == Goto(a, 0, PopCas(pos));
      assert Step(a1, 0, Go(false)) == PopCasStep(a1, 0, pos, false);
      ClaimIsRead(m, c, a, a1);
    }
  }

  lemma ClaimIsRead<W>(m: Mpsc<W>, c: Choice<W>, a: Queue<W>, a1: Queue<W>)
    requires |m.shared.cells| > 0 && |m.shared.threads| > 0 && m.consumer.LoadStamp? && m.consumer.pos == m.shared.tail
    requires a == Abs(m) && a1 == Goto(a, 0, PopCas(m.consumer.pos)) && Stamp(m.shared, m.consumer.pos) == m.consumer.pos + 1
    ensures Abs(MStep(m, 0, c)) == PopCasStep(a1, 0, m.consumer.pos, false)
  {
  }

  lemma ConsumerReadIsMpmc<W>(m: Mpsc<W>, c: Choice<W>)
    requires |m.shared.cells| > 0 && |m.shared.threads| > 0
    requires m.consumer.Read? && m.consumer.pos == m.shared.tail
    ensures Abs(MStep(m, 0, c)) == Step(Abs(m), 0, Go(false))
  {
    var a, pos := Abs(m), m.consumer.pos;
    assert Step(a, 0, Go(false)) == ReadStep(a, 0, pos, m.consumer.got);
    assert map[pos := 0 as nat] - {pos} == map[];
  }

  /** The consumer's step is no step, one step, or the stamp load and the claim together. */
  lemma ConsumerStepIsMpmc<W>(m: Mpsc<W>, c: Choice<W>) returns (s: seq<(nat, Choice<W>)>)
    requires MInv(m)
    ensures IsSchedule(s, |m.shared.threads|)
    ensures Abs(MStep(m, 0, c)) == Run(Abs(m), s)
  {
    match m.consumer
    case Resting(_) =>
      s := if c == BeginPop then [(0, BeginPop)] else [];
      RunOne(Abs(m), 0, BeginPop);
    case LoadTail =>
      s := [(0, Go(false))];
      RunOne(Abs(m), 0, Go(false));
    case LoadStamp(_) =>
      s := ConsumerStampIsMpmc(m, c);
    case Read(_, _) =>
      s := [(0, Go(false))];
      RunOne(Abs(m), 0, Go(false));
      ConsumerReadIsMpmc(m, c);
    case StoreTail(_, _) =>
      s := [];
  }

  lemma RunOne<W>(q: Queue<W>, i: nat, c: Choice<W>)
    requires |q.cells| > 0 && i < |q.threads|
    ensures IsSchedule([(i, c)], |q.threads|) && Run(q, [(i, c)]) == Step(q, i, c)
  {
    assert [(i, c)][1..] == [];
  }

  /** Every step of the MPSC queue is a run of the MPMC queue it implements, and keeps the invariant. */
  lemma StepSimulates<W>(m: Mpsc<W>, i: nat, c: Choice<W>) returns (s: seq<(nat, Choice<W>)>)
    requires MInv(m) && i < |m.shared.threads|
    ensures IsSchedule(s, |m.shared.threads|)
    ensures Abs(MStep(m, i, c)) == Run(Abs(m), s)
    ensures MInv(MStep(m, i, c))
  {
    if i == 0 {
      s := ConsumerStepIsMpmc(m, c);
    } else if m.shared.threads[i].Idle? && !c.BeginPush? {
      s := [];
    } else {
      s := [(i, c)];
      ProducerStepIsMpmc(m, i, c);
      RunOne(Abs(m), i, c);
    }
    RunKeepsInv(Abs(m), s);
    StepKeepsRoles(m, i, c);
  }

  lemma StepKeepsRoles<W>(m: Mpsc<W>, i: nat, c: Choice<W>)
    requires MInv(m) && i < |m.shared.threads|
    ensures var r := MStep(m, i, c);
            && (r.consumer.LoadStamp? || r.consumer.Read? || r.consumer.StoreTail? ==> r.consumer.pos == r.shared.tail)
            && forall j | 0 < j < |r.shared.threads| :: OnlyPushes(r.shared.threads[j])
  {
    if i > 0 && (c.BeginPush? || InFlight(m.shared, i)) {
      ProducerStepIsMpmc(m, i, c);
      ProducerKeepsTail(m, i, c);
    }
  }

  lemma ProducerKeepsTail<W>(m: Mpsc<W>, i: nat, c: Choice<W>)
    requires AtProducer(m, i, c)
    ensures Step(m.shared, i, c).tail == m.shared.tail
    ensures forall j | 0 <= j < |m.shared.threads| && j != i :: Step(m.shared, i, c).threads[j] == m.shared.threads[j]
  {
    var q := m.shared;
    match q.threads[i]
    case PushWrite(item, pos, done) => assert Step(q, i, c) == WriteStep(q, i, item, pos, done);
    case PushCas(item, pos) => assert Step(q, i, c) == PushCasStep(q, i, item, pos, c == Go(true));
    case _ => LocalStep(q, i, c);
  }

  /** Every run of the MPSC queue is a run of the MPMC queue. */
  lemma {:induction false} RunSimulates<W>(m: Mpsc<W>, sched: seq<(nat, Choice<W>)>) returns (s: seq<(nat, Choice<W>)>)
    requires MInv(m) && IsSchedule(sched, |m.shared.threads|)
    ensures IsSchedule(s, |m.shared.threads|)
    ensures Abs(MRun(m, sched)) == Run(Abs(m), s)
    ensures MInv(MRun(m, sched))
    decreases |sched|
  {
    if sched == [] {
      s := [];
    } else {
      var s0 := StepSimulates(m, sched[0].0, sched[0].1);
      var s1 := RunSimulates(MStep(m, sched[0].0, sched[0].1), sched[1..]);
      s := s0 + s1;
      RunAppend(Abs(m), s0, s1);
    }
  }

  // ---------------------------------------------------------------- calls that returned

  /** The pop that the consumer completes with this step, if it does. */
  function ConsumerDone<W>(m: Mpsc<W>, i: nat, c: Choice<W>): seq<Receipt<W>>
    requires |m.shared.cells| > 0 && i < |m.shared.threads|
  {
    var pc := MStep(m, i, c).consumer;
    if i == 0 && !m.consumer.Resting? && pc.Resting? && pc.last.Popped? then [(pc.last.from, pc.last.item)] else []
  }

  /** The push that producer `i` completes with this step, if it does. */
  function ProducerDone<W>(m: Mpsc<W>, i: nat, c: Choice<W>): seq<Receipt<W>>
    requires |m.shared.cells| > 0 && i < |m.shared.threads|
  {
    if i > 0 then PushDone(m.shared, i, c) else []
  }

  function MPops<W>(m: Mpsc<W>, sched: seq<(nat, Choice<W>)>): seq<Receipt<W>>
    requires |m.shared.cells| > 0 && IsSchedule(sched, |m.shared.threads|)
    decreases |sched|
  {
    if sched == [] then []
    else ConsumerDone(m, sched[0].0, sched[0].1) + MPops(MStep(m, sched[0].0, sched[0].1), sched[1..])
  }

  function MPushes<W>(m: Mpsc<W>, sched: seq<(nat, Choice<W>)>): seq<Receipt<W>>
    requires |m.shared.cells| > 0 && IsSchedule(sched, |m.shared.threads|)
    decreases |sched|
  {
    if sched == [] then []
    else ProducerDone(m, sched[0].0, sched[0].1) + MPushes(MStep(m, sched[0].0, sched[0].1), sched[1..])
  }

  /** The receipts are those of the tickets `from..to-1`, in order, with the items pushed under them. */
  ghost predicate InTicketOrder<W>(rs: seq<Receipt<W>>, from: nat, to: nat, log: seq<seq<W>>) {
    && from <= to <= |log| && |rs| == to - from
    && forall a | 0 <= a < |rs| :: rs[a] == (from + a, log[from + a])
  }

  /** A pop returns the item of the ticket at the tail, and only then does the tail move. */
  lemma ConsumerReturns<W>(m: Mpsc<W>, i: nat, c: Choice<W>)
    requires MInv(m) && i < |m.shared.threads|
    ensures InTicketOrder(ConsumerDone(m, i, c), m.shared.tail, MStep(m, i, c).shared.tail, m.shared.log)
  {
    if i > 0 {
      if c.BeginPush? || InFlight(m.shared, i) {
        ProducerKeepsTail(m, i, c);
      }
    } else {
      TailStoreReturns(m);
      OnlyStoreReturns(m, c);
    }
  }

  /** The item about to be returned is the one pushed under the ticket at the tail. */
  lemma TailStoreReturns<W>(m: Mpsc<W>)
    requires MInv(m)
    ensures m.shared.tail <= |m.shared.log|
    ensures m.consumer.StoreTail? ==> m.shared.tail < |m.shared.log| && m.consumer.item == m.shared.log[m.shared.tail]
  {
    var a := Abs(m);
    assert ThreadInv(a, 0) && PoppedInv(a);
  }

  /** Of the consumer's steps only the tail store completes a pop or moves the tail. */
  lemma OnlyStoreReturns<W>(m: Mpsc<W>, c: Choice<W>)
    requires |m.shared.cells| > 0 && |m.shared.threads| > 0
    ensures var r := MStep(m, 0, c);
            if m.consumer.StoreTail? then
              ConsumerDone(m, 0, c) == [(m.consumer.pos, m.consumer.item)] && r.shared.tail == m.consumer.pos + 1
            else ConsumerDone(m, 0, c) == [] && r.shared.tail == m.shared.tail
  {
  }

  /** Only producers publish, and a consumer's step moves neither `head` nor `writer`. */
  lemma ProducerReturns<W>(m: Mpsc<W>, i: nat, c: Choice<W>)
    requires MInv(m) && i < |m.shared.threads|
    ensures Adds(ProducerDone(m, i, c), PublishedTickets(m.shared), PublishedTickets(MStep(m, i, c).shared), m.shared.log)
  {
    var a, r := Abs(m), MStep(m, i, c);
    if i > 0 && (c.BeginPush? || InFlight(m.shared, i)) {
      StepPushes(a, i, c);
      ProducerStepIsMpmc(m, i, c);
      SamePublished(m);
      SamePublished(r);
    } else {
      assert ProducerDone(m, i, c) == [];
      assert PublishedTickets(r.shared) == PublishedTickets(m.shared);
      AddsNothing(PublishedTickets(m.shared), m.shared.log);
    }
  }

  lemma SamePublished<W>(m: Mpsc<W>)
    requires |m.shared.threads| > 0
    ensures PublishedTickets(Abs(m)) == PublishedTickets(m.shared)
  {
  }

  lemma MStepGrows<W>(m: Mpsc<W>, i: nat, c: Choice<W>)
    requires MInv(m) && i < |m.shared.threads|
    ensures MInv(MStep(m, i, c)) && m.shared.log <= MStep(m, i, c).shared.log
  {
    var s := StepSimulates(m, i, c);
    RunOnlyGrows(Abs(m), s);
  }

  lemma {:induction false} MRunGrows<W>(m: Mpsc<W>, sched: seq<(nat, Choice<W>)>)
    requires MInv(m) && IsSchedule(sched, |m.shared.threads|)
    ensures MInv(MRun(m, sched)) && m.shared.log <= MRun(m, sched).shared.log
  {
    var s := RunSimulates(m, sched);
    RunOnlyGrows(Abs(m), s);
  }

  lemma OrderAppend<W>(xs: seq<Receipt<W>>, ys: seq<Receipt<W>>, a: nat, b: nat, c: nat, log0: seq<seq<W>>, log: seq<seq<W>>)
    requires InTicketOrder(xs, a, b, log0) && InTicketOrder(ys, b, c, log) && log0 <= log
    ensures InTicketOrder(xs + ys, a, c, log)
  {
  }

  lemma {:induction false} RunReturns<W>(m: Mpsc<W>, sched: seq<(nat, Choice<W>)>)
    requires MInv(m) && IsSchedule(sched, |m.shared.threads|)
    ensures var r := MRun(m, sched).shared;
            && InTicketOrder(MPops(m, sched), m.shared.tail, r.tail, r.log)
            && Adds(MPushes(m, sched), PublishedTickets(m.shared), PublishedTickets(r), r.log)
    decreases |sched|
  {
    if sched == [] {
      AddsNothing(PublishedTickets(m.shared), m.shared.log);
    } else {
      var (i, c) := sched[0];
      var m1, r := MStep(m, i, c), MRun(m, sched).shared;
      MStepGrows(m, i, c);
      MRunGrows(m1, sched[1..]);
      RunReturns(m1, sched[1..]);
      ConsumerReturns(m, i, c);
      ProducerReturns(m, i, c);
      OrderAppend(ConsumerDone(m, i, c), MPops(m1, sched[1..]), m.shared.tail, m1.shared.tail, r.tail, m.shared.log, r.log);
      AddsAppend(ProducerDone(m, i, c), MPushes(m1, sched[1..]), PublishedTickets(m.shared), PublishedTickets(m1.shared),
                 PublishedTickets(r), m.shared.log, r.log);
    }
  }

  /** The arguments of the pushes that return true along a schedule, in the order in which they return. */
  function MAsked<W>(m: Mpsc<W>, sched: seq<(nat, Choice<W>)>, args: seq<seq<W>>): seq<seq<W>>
    requires |m.shared.cells| > 0 && IsSchedule(sched, |m.shared.threads|) && |args| == |m.shared.threads|
    decreases |sched|
  {
    if sched == [] then []
    else
      var (i, c) := sched[0];
      (if i > 0 && ReturnsPushed(m.shared, i, c) then [args[i]] else [])
      + MAsked(MStep(m, i, c), sched[1..], if i > 0 then args[i := Argument(m.shared, i, c, args[i])] else args)
  }

  lemma ProducersCarry<W>(m: Mpsc<W>, i: nat, c: Choice<W>, args: seq<seq<W>>)
    requires |m.shared.cells| > 0 && i < |m.shared.threads| && AllCarry(m.shared, args)
    ensures AllCarry(MStep(m, i, c).shared, if i > 0 then args[i := Argument(m.shared, i, c, args[i])] else args)
  {
    if i > 0 && (c.BeginPush? || InFlight(m.shared, i)) {
      AllCarryOn(m.shared, i, c, args);
    } else {
      assert MStep(m, i, c).shared.threads == m.shared.threads;
    }
  }

  /** What the producers pushed is what their calls asked for. */
  lemma {:induction false} MPushesAreAsked<W>(m: Mpsc<W>, sched: seq<(nat, Choice<W>)>, args: seq<seq<W>>)
    requires |m.shared.cells| > 0 && IsSchedule(sched, |m.shared.threads|) && AllCarry(m.shared, args)
    ensures Items(MPushes(m, sched)) == MAsked(m, sched, args)
    decreases |sched|
  {
    if sched != [] {
      var (i, c) := sched[0];
      var args' := if i > 0 then args[i := Argument(m.shared, i, c, args[i])] else args;
      if i > 0 { ReturnsCarried(m.shared, i, c, args[i]); }
      ProducersCarry(m, i, c, args);
      MPushesAreAsked(MStep(m, i, c), sched[1..], args');
      ItemsAppend(ProducerDone(m, i, c), MPushes(MStep(m, i, c), sched[1..]));
    }
  }

  // ---------------------------------------------------------------- safety over every run

  /** The consumer, while it reads, is in no cell that a producer writes. */
  ghost predicate ConsumerApart<W>(m: Mpsc<W>)
    requires |m.shared.cells| > 0
  {
    m.consumer.Read? ==>
      forall i | 0 < i < |m.shared.threads| && m.shared.threads[i].PushWrite? ::
        Slot(m.shared, m.shared.threads[i].pos) != Slot(m.shared, m.consumer.pos)
  }

  /**
   Safety over every run, the window between stamp release and tail store included: no claimed item
   is lost; the consumer's calls returned exactly the tickets `0, 1, .. tail-1`, once each and in
   order, with the items pushed under them; pushes returned pairwise different tickets, each with the
   argument of its own call; the consumer
   has taken exactly the tickets before `TakenTail` it is not reading, and never shares a cell.
   */
  lemma EveryMpscRunIsSafe<W>(size: nat, width: nat, zero: W, producers: nat, sched: seq<(nat, Choice<W>)>)
    requires size >= 2 && IsSchedule(sched, producers + 1)
    ensures var m0 := MInit(size, width, zero, producers);
            var m := MRun(m0, sched);
            && NothingLost(m.shared) && ConsumerApart(m)
            && InTicketOrder(MPops(m0, sched), 0, m.shared.tail, m.shared.log)
            && Adds(MPushes(m0, sched), iset{}, PublishedTickets(m.shared), m.shared.log)
            && Items(MPushes(m0, sched)) == MAsked(m0, sched, NoCalls(producers + 1))
            && (forall t: nat :: t in m.shared.popped <==> t < TakenTail(m) && !(m.consumer.Read? && t == m.shared.tail))
            && (forall t: nat | t in m.shared.popped :: t < |m.shared.log| && m.shared.popped[t] == m.shared.log[t])
            && (m.consumer.Resting? && m.consumer.last.Popped? ==>
                  m.consumer.last.from < |m.shared.log| && m.consumer.last.item == m.shared.log[m.consumer.last.from])
  {
    var m0 := MInit(size, width, zero, producers);
    MInitInv(size, width, zero, producers);
    var s := RunSimulates(m0, sched);
    SafeMpscState(MRun(m0, sched));
    FreshSets(m0.shared);
    RunReturns(m0, sched);
    InitCarries(size, width, zero, producers + 1);
    MPushesAreAsked(m0, sched, NoCalls(producers + 1));
  }

  lemma SafeMpscState<W>(m: Mpsc<W>)
    requires MInv(m)
    ensures NothingLost(m.shared) && ConsumerApart(m)
    ensures forall t: nat :: t in m.shared.popped <==> t < TakenTail(m) && !(m.consumer.Read? && t == m.shared.tail)
    ensures forall t: nat | t in m.shared.popped :: t < |m.shared.log| && m.shared.popped[t] == m.shared.log[t]
    ensures m.consumer.Resting? && m.consumer.last.Popped? ==>
              m.consumer.last.from < |m.shared.log| && m.consumer.last.item == m.shared.log[m.consumer.last.from]
  {
    var a := Abs(m);
    assert ThreadInv(a, 0);
    forall t | 0 <= t < |a.log| ensures Accounted(m.shared, t) {
      TicketAccounted(a, t);
    }
    ConsumerIsApart(m);
  }

  lemma ConsumerIsApart<W>(m: Mpsc<W>)
    requires MInv(m)
    ensures ConsumerApart(m)
  {
    var a := Abs(m);
    if m.consumer.Read? {
      forall i | 0 < i < |m.shared.threads| && m.shared.threads[i].PushWrite?
        ensures Slot(m.shared, m.shared.threads[i].pos) != Slot(m.shared, m.consumer.pos)
      {
        assert Copies(a, i, a.threads[i].pos) && Copies(a, 0, m.consumer.pos);
        CopiersApart(a, i, 0, a.threads[i].pos, m.consumer.pos);
      }
    }
  }

  /** A producer is refused only by one full lap of unreleased tickets. */
  lemma MpscFullIsTruthful<W>(m: Mpsc<W>, i: nat, c: Choice<W>, pos: nat)
    requires MInv(m) && 0 < i < |m.shared.threads| && InFlight(m.shared, i)
    requires MStep(m, i, c).shared.threads[i] == Idle(Full(pos))
    ensures m.shared.head == pos && |m.shared.cells| <= pos && pos - |m.shared.cells| !in m.shared.popped
  {
    ProducerStepIsMpmc(m, i, c);
    FullIsTruthful(Abs(m), i, c, pos);
  }

  /** The consumer is refused exactly when the ticket at the tail is unpublished. */
  lemma MpscEmptyIsTruthful<W>(m: Mpsc<W>, c: Choice<W>)
    requires MInv(m) && m.consumer.LoadStamp?
    ensures var pos := m.consumer.pos;
            pos == m.shared.tail
            && (MStep(m, 0, c).consumer == Resting(Empty(pos)) <==> pos == m.shared.head || pos in m.shared.writer)
  {
    var a, pos := Abs(m), m.consumer.pos;
    TailCell(a);
    if pos < a.head {
      TicketAccounted(a, pos);
      if pos in a.writer { WriterCellAwaits(a, pos); }
    }
  }

  // ---------------------------------------------------------------- progress of the consumer

  /** The steps the consumer still needs to return. */
  function PopNeeds<W>(m: Mpsc<W>): int {
    match m.consumer
    case Resting(_) => 0
    case LoadTail => m.shared.width + 4
    case LoadStamp(_) => m.shared.width + 3
    case Read(_, got) => m.shared.width - |got| + 2
    case StoreTail(_, _) => 1
  }

  function ConsumerTurns<W>(sched: seq<(nat, Choice<W>)>): nat {
    if sched == [] then 0 else (if sched[0].0 == 0 then 1 else 0) + ConsumerTurns(sched[1..])
  }

  /** The pop has returned: with the item of the ticket at the tail, or with nothing taken. */
  ghost predicate PopAnswered<W>(tail: nat, r: Mpsc<W>) {
    && r.consumer.Resting?
    && match r.consumer.last
       case Empty(at) => at == tail == r.shared.tail
       case Popped(from, item) =>
         from == tail && r.shared.tail == tail + 1 && tail < |r.shared.log| && item == r.shared.log[tail]
       case _ => false
  }

  lemma ReadLength<W>(m: Mpsc<W>)
    requires MInv(m) && m.consumer.Read?
    ensures |m.consumer.got| <= |Data(m.shared, m.consumer.pos)| == m.shared.width
  {
    var a, pos := Abs(m), m.consumer.pos;
    assert ThreadInv(a, 0);
    assert ReaderInv(a, pos) && CellInv(a, Slot(a, pos));
  }

  lemma ConsumerProgress<W>(m: Mpsc<W>, i: nat, c: Choice<W>)
    requires MInv(m) && i < |m.shared.threads| && !m.consumer.Resting?
    ensures PopNeeds(MStep(m, i, c)) <= PopNeeds(m) - if i == 0 then 1 else 0
  {
    if m.consumer.Read? { ReadLength(m); }
  }

  lemma StepAnswersPop<W>(m: Mpsc<W>, i: nat, c: Choice<W>)
    requires MInv(m) && i < |m.shared.threads| && !m.consumer.Resting?
    ensures var r := MStep(m, i, c);
            if r.consumer.Resting? then PopAnswered(m.shared.tail, r) else r.shared.tail == m.shared.tail
  {
    if i == 0 {
      TailStoreReturns(m);
    } else if c.BeginPush? || InFlight(m.shared, i) {
      ProducerKeepsTail(m, i, c);
    }
  }

  lemma MRunLater<W>(m: Mpsc<W>, sched: seq<(nat, Choice<W>)>, k: nat)
    requires |m.shared.cells| > 0 && IsSchedule(sched, |m.shared.threads|) && k < |sched|
    ensures MRun(m, sched[..k + 1]) == MRun(MStep(m, sched[0].0, sched[0].1), sched[1..][..k])
  {
    assert sched[..k + 1][1..] == sched[1..][..k];
  }

  lemma {:induction false} PopReturns<W>(m: Mpsc<W>, sched: seq<(nat, Choice<W>)>)
    requires MInv(m) && IsSchedule(sched, |m.shared.threads|)
    requires !m.consumer.Resting? && ConsumerTurns(sched) >= PopNeeds(m)
    ensures exists k: nat :: k <= |sched| && PopAnswered(m.shared.tail, MRun(m, sched[..k]))
    decreases |sched|
  {
    if m.consumer.Read? { ReadLength(m); }
    var (i, c) := sched[0];
    var r := MStep(m, i, c);
    ConsumerProgress(m, i, c);
    StepAnswersPop(m, i, c);
    MStepGrows(m, i, c);
    MRunLater(m, sched, 0);
    if !r.consumer.Resting? {
      PopReturns(r, sched[1..]);
      var k: nat :| k <= |sched[1..]| && PopAnswered(r.shared.tail, MRun(r, sched[1..][..k]));
      MRunLater(m, sched, k);
      assert PopAnswered(m.shared.tail, MRun(m, sched[..k + 1]));
    }
  }

  /** Wait-freedom: whatever the producers do, a pop returns within `width + 4` steps of its own, with the ticket at the tail or empty-handed. */
  lemma PopIsWaitFree<W>(m: Mpsc<W>, sched: seq<(nat, Choice<W>)>)
    requires MInv(m) && IsSchedule(sched, |m.shared.threads|)
    requires m.consumer.Resting? && ConsumerTurns(sched) >= m.shared.width + 4
    ensures exists k: nat :: k <= |sched| && PopAnswered(m.shared.tail, MRun(MStep(m, 0, BeginPop), sched[..k]))
  {
    MStepGrows(m, 0, BeginPop);
    PopReturns(MStep(m, 0, BeginPop), sched);
  }

  /** The one-cell MPSC queue loses items too, by the same two pushes. */
  lemma MpscSizeOneLosesItems<W>(a: W, b: W)
    requires a != b
    ensures IsSchedule(TwoPushes(1, a, b), 2)
    ensures !NothingLost(MRun(MInit(1, 1, a, 1), TwoPushes(1, a, b)).shared)
  {
    SizeOneLosesItems(2, 1, a, b);
    var m := MInit(1, 1, a, 1);
    ProducerRun(m, 1, TwoPushes(1, a, b));
  }

  /** Exactly the sizes from 2 up keep every item in every run. */
  lemma MpscSafeExactlyFromSizeTwo<W(!new)>(size: nat, a: W, b: W)
    requires size > 0 && a != b
    ensures size >= 2 <==>
            forall width: nat, zero: W, producers: nat, sched: seq<(nat, Choice<W>)>
              | IsSchedule(sched, producers + 1) :: NothingLost(MRun(MInit(size, width, zero, producers), sched).shared)
  {
    if size >= 2 {
      forall width: nat, zero: W, producers: nat, sched: seq<(nat, Choice<W>)> | IsSchedule(sched, producers + 1)
        ensures NothingLost(MRun(MInit(size, width, zero, producers), sched).shared)
      {
        EveryMpscRunIsSafe(size, width, zero, producers, sched);
      }
    } else {
      MpscSizeOneLosesItems(a, b);
      assert !NothingLost(MRun(MInit(size, 1, a, 1), TwoPushes(1, a, b)).shared);
    }
  }

  /** A schedule of one producer that begins only pushes runs the shared part as the MPMC queue does. */
  lemma {:induction false} ProducerRun<W>(m: Mpsc<W>, i: nat, sched: seq<(nat, Choice<W>)>)
    requires |m.shared.cells| > 0 && 0 < i < |m.shared.threads|
    requires forall k | 0 <= k < |sched| :: sched[k].0 == i && (sched[k].1.BeginPush? || sched[k].1 == Go(false))
    ensures IsSchedule(sched, |m.shared.threads|)
    ensures MRun(m, sched).shared == Run(m.shared, sched)
    decreases |sched|
  {
    if sched != [] {
      assert MStep(m, i, sched[0].1).shared == Step(m.shared, i, sched[0].1);
      ProducerRun(MStep(m, i, sched[0].1), i, sched[1..]);
    }
  }
}
