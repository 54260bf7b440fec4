/**
 The bounded multi-producer/multi-consumer queue of `lockfree/mpmc_queue.hpp`, as a transition
 system: one step is one atomic load, store or compare-and-swap, or the copy of one word of a
 payload. Any number of threads push, pop and ask `empty` in any interleaving.

 The fields `log`, `writer`, `reader` and `popped` are auxiliary: no step branches on them.
 They record which item took which ticket, which thread is copying into or out of a cell, and
 which tickets have been popped.
 */
module MpmcQueue {
  import opened Ring

  datatype Cell<W> = Cell(stamp: nat, data: seq<W>)

  datatype Outcome<W> =
    | Nothing
    | Pushed(ticket: nat)
    | Full(at: nat)
    | Popped(from: nat, item: seq<W>)
    | Empty(at: nat)
    | AnsweredEmpty(answer: bool)

  /** Where a thread stands, with its local variables. */
  datatype Pc<W> =
    | Idle(last: Outcome<W>)
    | PushLoadHead(item: seq<W>)
    | PushLoadStamp(item: seq<W>, pos: nat)
    | PushCas(item: seq<W>, pos: nat)
    | PushWrite(item: seq<W>, pos: nat, done: nat)
    | PopLoadTail
    | PopLoadStamp(pos: nat)
    | PopCas(pos: nat)
    | PopRead(pos: nat, got: seq<W>)
    | EmptyLoadTail
    | EmptyLoadStamp(pos: nat)

  /** What the environment chooses at a step; `spurious` makes the weak CAS fail. */
  datatype Choice<W> =
    | BeginPush(item: seq<W>)
    | BeginPop
    | AskEmpty
    | Go(spurious: bool)

  datatype Queue<W> = Queue(
    width: nat,
    cells: seq<Cell<W>>,
    head: nat,
    tail: nat,
    threads: seq<Pc<W>>,
    log: seq<seq<W>>,
    writer: map<nat, nat>,
    reader: map<nat, nat>,
    popped: map<nat, seq<W>>)

  function Slot<W>(q: Queue<W>, pos: nat): (c: nat)
    requires |q.cells| > 0
    ensures c < |q.cells|
  {
    Wrap(pos, |q.cells|)
  }

  function Stamp<W>(q: Queue<W>, pos: nat): nat
    requires |q.cells| > 0
  {
    q.cells[Slot(q, pos)].stamp
  }

  function Data<W>(q: Queue<W>, pos: nat): seq<W>
    requires |q.cells| > 0
  {
    q.cells[Slot(q, pos)].data
  }

  predicate InFlight<W>(q: Queue<W>, i: nat)
    requires i < |q.threads|
  {
    !q.threads[i].Idle?
  }

  predicate Quiescent<W>(q: Queue<W>) {
    forall i | 0 <= i < |q.threads| :: q.threads[i].Idle?
  }

  function Init<W>(size: nat, width: nat, zero: W, threadCount: nat): Queue<W> {
    Queue(width,
          seq(size, i requires 0 <= i => Cell(i, seq(width, _ => zero))),
          0, 0,
          seq(threadCount, _ => Idle(Nothing)),
          [], map[], map[], map[])
  }

  function Goto<W>(q: Queue<W>, i: nat, pc: Pc<W>): Queue<W>
    requires i < |q.threads|
  {
    q.(threads := q.threads[i := pc])
  }

  function SetStamp<W>(q: Queue<W>, pos: nat, stamp: nat): Queue<W>
    requires |q.cells| > 0
  {
    var c := Slot(q, pos);
    q.(cells := q.cells[c := q.cells[c].(stamp := stamp)])
  }

  function WriteWord<W>(q: Queue<W>, pos: nat, k: nat, w: W): Queue<W>
    requires |q.cells| > 0
  {
    var c := Slot(q, pos);
    if k < |q.cells[c].data| then
      q.(cells := q.cells[c := q.cells[c].(data := q.cells[c].data[k := w])])
    else q
  }

  ghost predicate SameShape<W>(q: Queue<W>, r: Queue<W>) {
    |r.threads| == |q.threads| && |r.cells| == |q.cells| && r.width == q.width
  }

  function BeginStep<W>(q: Queue<W>, i: nat, c: Choice<W>): (r: Queue<W>)
    requires i < |q.threads|
    ensures SameShape(q, r)
  {
    match c
    case BeginPush(item) => if |item| == q.width then Goto(q, i, PushLoadHead(item)) else q
    case BeginPop => Goto(q, i, PopLoadTail)
    case AskEmpty => Goto(q, i, EmptyLoadTail)
    case Go(_) => q
  }

  function PushStampStep<W>(q: Queue<W>, i: nat, item: seq<W>, pos: nat): (r: Queue<W>)
    requires i < |q.threads| && |q.cells| > 0
    ensures SameShape(q, r)
  {
    if Stamp(q, pos) == pos then Goto(q, i, PushCas(item, pos))
    else if Stamp(q, pos) < pos then Goto(q, i, Idle(Full(pos)))
    else Goto(q, i, PushLoadHead(item))
  }

  /** A failed CAS leaves the current head in `pos` and tries again. */
  function PushCasStep<W>(q: Queue<W>, i: nat, item: seq<W>, pos: nat, spurious: bool): (r: Queue<W>)
    requires i < |q.threads|
    ensures SameShape(q, r)
  {
    if q.head == pos && !spurious then
      Goto(q, i, PushWrite(item, pos, 0))
      .(head := pos + 1, log := q.log + [item], writer := q.writer[pos := i])
    else Goto(q, i, PushLoadStamp(item, q.head))
  }

  function WriteStep<W>(q: Queue<W>, i: nat, item: seq<W>, pos: nat, done: nat): (r: Queue<W>)
    requires i < |q.threads| && |q.cells| > 0
    ensures SameShape(q, r)
  {
    if done < |item| then Goto(WriteWord(q, pos, done, item[done]), i, PushWrite(item, pos, done + 1))
    else Goto(SetStamp(q, pos, pos + 1), i, Idle(Pushed(pos))).(writer := q.writer - {pos})
  }

  function PopStampStep<W>(q: Queue<W>, i: nat, pos: nat): (r: Queue<W>)
    requires i < |q.threads| && |q.cells| > 0
    ensures SameShape(q, r)
  {
    if Stamp(q, pos) == pos + 1 then Goto(q, i, PopCas(pos))
    else if Stamp(q, pos) < pos + 1 then Goto(q, i, Idle(Empty(pos)))
    else Goto(q, i, PopLoadTail)
  }

  function PopCasStep<W>(q: Queue<W>, i: nat, pos: nat, spurious: bool): (r: Queue<W>)
    requires i < |q.threads|
    ensures SameShape(q, r)
  {
    if q.tail == pos && !spurious then
      Goto(q, i, PopRead(pos, [])).(tail := pos + 1, reader := q.reader[pos := i])
    else Goto(q, i, PopLoadStamp(q.tail))
  }

  function ReadStep<W>(q: Queue<W>, i: nat, pos: nat, got: seq<W>): (r: Queue<W>)
    requires i < |q.threads| && |q.cells| > 0
    ensures SameShape(q, r)
  {
    if |got| < |Data(q, pos)| then Goto(q, i, PopRead(pos, got + [Data(q, pos)[|got|]]))
    else Goto(SetStamp(q, pos, pos + |q.cells|), i, Idle(Popped(pos, got)))
         .(reader := q.reader - {pos}, popped := q.popped[pos := got])
  }

  /** One step of thread `i`. A choice that does not apply leaves the queue as it is. */
  function Step<W>(q: Queue<W>, i: nat, c: Choice<W>): (r: Queue<W>)
    requires i < |q.threads| && |q.cells| > 0
    ensures SameShape(q, r)
  {
    match q.threads[i]
    case Idle(_) => BeginStep(q, i, c)
    case PushLoadHead(item) => Goto(q, i, PushLoadStamp(item, q.head))
    case PushLoadStamp(item, pos) => PushStampStep(q, i, item, pos)
    case PushCas(item, pos) => PushCasStep(q, i, item, pos, c == Go(true))
    case PushWrite(item, pos, done) => WriteStep(q, i, item, pos, done)
    case PopLoadTail => Goto(q, i, PopLoadStamp(q.tail))
    case PopLoadStamp(pos) => PopStampStep(q, i, pos)
    case PopCas(pos) => PopCasStep(q, i, pos, c == Go(true))
    case PopRead(pos, got) => ReadStep(q, i, pos, got)
    case EmptyLoadTail => Goto(q, i, EmptyLoadStamp(q.tail))
    case EmptyLoadStamp(pos) => Goto(q, i, Idle(AnsweredEmpty(Stamp(q, pos) != pos + 1)))
  }

  /** A schedule names, at each step, a thread and the environment's choice. */
  predicate IsSchedule<W>(sched: seq<(nat, Choice<W>)>, threadCount: nat) {
    forall k | 0 <= k < |sched| :: sched[k].0 < threadCount
  }

  function Run<W>(q: Queue<W>, sched: seq<(nat, Choice<W>)>): (r: Queue<W>)
    requires |q.cells| > 0 && IsSchedule(sched, |q.threads|)
    ensures SameShape(q, r)
    decreases |sched|
  {
    if sched == [] then q
    else
      Run(Step(q, sched[0].0, sched[0].1), sched[1..])
  }

  // ---------------------------------------------------------------- invariant

  /** Cell of ticket `t` is free for `t`, or being written by its producer. */
  ghost predicate AwaitsWrite<W>(q: Queue<W>, t: nat) {
    var n := |q.cells|;
    && q.tail <= t
    && (t < n || t - n < q.tail)
    && q.head <= t + n
    && (t < q.head <==> t in q.writer)
  }

  /** Cell of ticket `t` holds the whole item of ticket `t`, unread or being read. */
  ghost predicate HoldsItem<W>(q: Queue<W>, t: nat, data: seq<W>) {
    var n := |q.cells|;
    && t < q.head <= t + n
    && (t < n || t - n < q.tail)
    && t < |q.log| && data == q.log[t]
    && t !in q.writer
    && (t < q.tail <==> t in q.reader)
  }

  ghost predicate CellInv<W>(q: Queue<W>, c: nat)
    requires c < |q.cells|
  {
    var n := |q.cells|;
    var s := q.cells[c].stamp;
    && |q.cells[c].data| == q.width
    && ((Wrap(s, n) == c && AwaitsWrite(q, s))
        || (s > 0 && Wrap(s - 1, n) == c && HoldsItem(q, s - 1, q.cells[c].data)))
  }

  ghost predicate WriterInv<W>(q: Queue<W>, t: nat)
    requires |q.cells| > 0 && t in q.writer
  {
    && t < q.head && t < |q.log|
    && q.writer[t] < |q.threads|
    && var pc := q.threads[q.writer[t]];
    && pc.PushWrite? && pc.pos == t && pc.item == q.log[t]
    && Stamp(q, t) == t
    && pc.done <= |pc.item| == q.width == |Data(q, t)|
    && pc.item[..pc.done] == Data(q, t)[..pc.done]
  }

  ghost predicate ReaderInv<W>(q: Queue<W>, t: nat)
    requires |q.cells| > 0 && t in q.reader
  {
    && t < q.tail
    && q.reader[t] < |q.threads|
    && var pc := q.threads[q.reader[t]];
    && pc.PopRead? && pc.pos == t
    && Stamp(q, t) == t + 1
    && pc.got <= Data(q, t)
  }

  ghost predicate ThreadInv<W>(q: Queue<W>, i: nat)
    requires |q.cells| > 0 && i < |q.threads|
  {
    match q.threads[i]
    case Idle(last) =>
      && (last.Popped? ==> last.from in q.popped && q.popped[last.from] == last.item)
      && (last.Pushed? ==> last.ticket < q.head)
    case PushLoadHead(item) => |item| == q.width
    case PushLoadStamp(item, pos) => |item| == q.width && pos <= q.head
    case PushCas(item, pos) => |item| == q.width && pos <= q.head && pos <= Stamp(q, pos)
    case PushWrite(_, pos, _) => pos in q.writer && q.writer[pos] == i
    case PopLoadTail => true
    case PopLoadStamp(pos) => pos <= q.tail
    case PopCas(pos) => pos <= q.tail && pos + 1 <= Stamp(q, pos)
    case PopRead(pos, _) => pos in q.reader && q.reader[pos] == i
    case EmptyLoadTail => true
    case EmptyLoadStamp(pos) => pos <= q.tail
  }

  ghost predicate PoppedInv<W>(q: Queue<W>) {
    && (forall t: nat :: t in q.popped <==> t < q.tail && t !in q.reader)
    && (forall t: nat | t in q.popped && t < |q.log| :: q.popped[t] == q.log[t])
  }

  ghost predicate CellsInv<W>(q: Queue<W>) {
    forall c: nat | c < |q.cells| :: CellInv(q, c)
  }

  ghost predicate WritersInv<W>(q: Queue<W>)
    requires |q.cells| > 0
  {
    forall t: nat | t in q.writer :: WriterInv(q, t)
  }

  ghost predicate ReadersInv<W>(q: Queue<W>)
    requires |q.cells| > 0
  {
    forall t: nat | t in q.reader :: ReaderInv(q, t)
  }

  ghost predicate ThreadsInv<W>(q: Queue<W>)
    requires |q.cells| > 0
  {
    forall i: nat | i < |q.threads| :: ThreadInv(q, i)
  }

  ghost predicate Inv<W>(q: Queue<W>) {
    && |q.cells| >= 2
    && q.tail <= q.head == |q.log|
    && CellsInv(q) && WritersInv(q) && ReadersInv(q) && ThreadsInv(q) && PoppedInv(q)
  }

  // ---------------------------------------------------------------- every step keeps it

  lemma InitInv<W>(size: nat, width: nat, zero: W, threadCount: nat)
    requires size >= 2
    ensures Inv(Init(size, width, zero, threadCount))
  {
  }

  /** A head that equals a loaded position whose stamp was once free means the cell is free now. */
  lemma FreeAtHead<W>(q: Queue<W>)
    requires Inv(q) && q.head <= Stamp(q, q.head)
    ensures Stamp(q, q.head) == q.head && AwaitsWrite(q, q.head)
  {
    var n := |q.cells|;
    var c := Slot(q, q.head);
    var s := q.cells[c].stamp;
    assert CellInv(q, c);
    if Wrap(s, n) == c && AwaitsWrite(q, s) {
      SameSlot(s, q.head, n);
    } else {
      assert s - 1 < q.head <= s;
      SameSlot(s - 1, q.head, n);
      assert false;
    }
  }

  // The producer's CAS: thread `i` takes ticket `head`.

  ghost predicate AtPushClaim<W>(q: Queue<W>, i: nat) {
    Inv(q) && i < |q.threads| && q.threads[i].PushCas? && q.threads[i].pos == q.head
  }

  function Claimed<W>(q: Queue<W>, i: nat): Queue<W>
    requires i < |q.threads| && q.threads[i].PushCas?
  {
    PushCasStep(q, i, q.threads[i].item, q.head, false)
  }

  lemma ClaimAwaits<W>(q: Queue<W>, i: nat, t: nat)
    requires i < |q.threads| && q.threads[i].PushCas? && |q.cells| > 0
    requires AwaitsWrite(q, t) && (Wrap(t, |q.cells|) == Slot(q, q.head) ==> t == q.head)
    ensures AwaitsWrite(Claimed(q, i), t)
  {
    assert Wrap(t + |q.cells|, |q.cells|) == Wrap(t, |q.cells|);
  }

  lemma ClaimHolds<W>(q: Queue<W>, i: nat, t: nat, data: seq<W>)
    requires i < |q.threads| && q.threads[i].PushCas?
    requires HoldsItem(q, t, data) && t + |q.cells| != q.head
    ensures HoldsItem(Claimed(q, i), t, data)
  {
  }

  lemma ClaimCell<W>(q: Queue<W>, i: nat, c: nat)
    requires AtPushClaim(q, i) && c < |q.cells|
    ensures CellInv(Claimed(q, i), c)
  {
    var n := |q.cells|;
    var r := Claimed(q, i);
    var s := q.cells[c].stamp;
    assert CellInv(q, c);
    assert ThreadInv(q, i);
    FreeAtHead(q);
    if Wrap(s, n) == c && AwaitsWrite(q, s) {
      assert c == Slot(q, q.head) ==> s == q.head;
      ClaimAwaits(q, i, s);
    } else {
      assert s - 1 + n != q.head by {
        assert Wrap(s - 1 + n, n) == c;
      }
      ClaimHolds(q, i, s - 1, q.cells[c].data);
    }
  }

  lemma ClaimWriters<W>(q: Queue<W>, i: nat)
    requires AtPushClaim(q, i)
    ensures WritersInv(Claimed(q, i))
  {
    var r := Claimed(q, i);
    forall t: nat | t in r.writer ensures WriterInv(r, t) {
      assert ThreadInv(q, i);
      FreeAtHead(q);
      assert CellInv(q, Slot(q, q.head));
      assert t != q.head ==> WriterInv(q, t);
    }
  }

  lemma ClaimOthers<W>(q: Queue<W>, i: nat)
    requires AtPushClaim(q, i)
    ensures ReadersInv(Claimed(q, i)) && ThreadsInv(Claimed(q, i)) && PoppedInv(Claimed(q, i))
  {
    var r := Claimed(q, i);
    forall t: nat | t in r.reader ensures ReaderInv(r, t) {
      assert ReaderInv(q, t);
    }
    forall j: nat | j < |r.threads| ensures ThreadInv(r, j) {
      assert ThreadInv(q, j);
    }
  }

  lemma ClaimKeepsInv<W>(q: Queue<W>, i: nat)
    requires AtPushClaim(q, i)
    ensures Inv(Claimed(q, i))
  {
    forall c: nat | c < |q.cells| ensures CellInv(Claimed(q, i), c) {
      ClaimCell(q, i, c);
    }
    ClaimWriters(q, i);
    ClaimOthers(q, i);
  }

  // The producer copies one word into the cell it owns.

  ghost predicate AtPushWrite<W>(q: Queue<W>, i: nat) {
    Inv(q) && i < |q.threads| && q.threads[i].PushWrite?
  }

  function Written<W>(q: Queue<W>, i: nat): Queue<W>
    requires i < |q.threads| && q.threads[i].PushWrite? && |q.cells| > 0
  {
    WriteStep(q, i, q.threads[i].item, q.threads[i].pos, q.threads[i].done)
  }

  lemma WriteFrame<W>(q: Queue<W>, i: nat, t: nat, data: seq<W>)
    requires AtPushWrite(q, i) && q.threads[i].done < |q.threads[i].item|
    ensures AwaitsWrite(q, t) ==> AwaitsWrite(Written(q, i), t)
    ensures HoldsItem(q, t, data) ==> HoldsItem(Written(q, i), t, data)
  {
  }

  lemma WriteOwnCell<W>(q: Queue<W>, i: nat)
    requires AtPushWrite(q, i) && q.threads[i].done < |q.threads[i].item|
    ensures CellInv(Written(q, i), Slot(q, q.threads[i].pos))
  {
    var pos := q.threads[i].pos;
    assert ThreadInv(q, i);
    WriterCellAwaits(q, pos);
    assert CellInv(q, Slot(q, pos));
    WriteFrame(q, i, pos, []);
  }

  lemma WriteCell<W>(q: Queue<W>, i: nat, c: nat)
    requires AtPushWrite(q, i) && q.threads[i].done < |q.threads[i].item| && c < |q.cells|
    ensures CellInv(Written(q, i), c)
  {
    if c == Slot(q, q.threads[i].pos) {
      WriteOwnCell(q, i);
    } else {
      var s := q.cells[c].stamp;
      assert CellInv(q, c);
      assert Written(q, i).cells[c] == q.cells[c];
      WriteFrame(q, i, s, q.cells[c].data);
      if s > 0 {
        WriteFrame(q, i, s - 1, q.cells[c].data);
      }
    }
  }

  lemma SuccessorSlot(t: nat, n: nat)
    requires n >= 2
    ensures Wrap(t + 1, n) != Wrap(t, n)
  {
    if Wrap(t + 1, n) == Wrap(t, n) {
      SameSlot(t, t + 1, n);
      assert false;
    }
  }

  /** The cell of a ticket in `writer` is in its "awaits write" phase. */
  lemma WriterCellAwaits<W>(q: Queue<W>, t: nat)
    requires Inv(q) && t in q.writer
    ensures Stamp(q, t) == t && AwaitsWrite(q, t)
  {
    assert WriterInv(q, t);
    assert CellInv(q, Slot(q, t));
    if t > 0 {
      SuccessorSlot(t - 1, |q.cells|);
    }
  }

  lemma ReaderCellHolds<W>(q: Queue<W>, t: nat)
    requires Inv(q) && t in q.reader
    ensures Stamp(q, t) == t + 1 && HoldsItem(q, t, Data(q, t))
  {
    assert ReaderInv(q, t);
    assert CellInv(q, Slot(q, t));
    SuccessorSlot(t, |q.cells|);
  }

  /** Two tickets being copied at the same time sit in different cells. */
  lemma OwnedCellsDiffer<W>(q: Queue<W>, t: nat, u: nat)
    requires Inv(q)
    requires (t in q.writer && u in q.writer && t != u) || (t in q.writer && u in q.reader)
             || (t in q.reader && u in q.reader && t != u)
    ensures Slot(q, t) != Slot(q, u)
  {
    if t in q.writer && u in q.reader {
      WriterCellAwaits(q, t);
      ReaderCellHolds(q, u);
      SuccessorSlot(u, |q.cells|);
    } else if t in q.writer {
      WriterCellAwaits(q, t);
      WriterCellAwaits(q, u);
    } else {
      ReaderCellHolds(q, t);
      ReaderCellHolds(q, u);
    }
  }

  lemma WriteWriters<W>(q: Queue<W>, i: nat)
    requires AtPushWrite(q, i) && q.threads[i].done < |q.threads[i].item|
    ensures WritersInv(Written(q, i))
  {
    var r := Written(q, i);
    var pos := q.threads[i].pos;
    assert ThreadInv(q, i) && WriterInv(q, pos);
    forall t: nat | t in r.writer ensures WriterInv(r, t) {
      assert WriterInv(q, t);
      if t != pos {
        OwnedCellsDiffer(q, t, pos);
      } else {
        var k := q.threads[i].done;
        assert Data(r, pos)[..k + 1] == Data(q, pos)[..k] + [q.threads[i].item[k]];
        assert q.threads[i].item[..k + 1] == q.threads[i].item[..k] + [q.threads[i].item[k]];
      }
    }
  }

  lemma WriteReaders<W>(q: Queue<W>, i: nat)
    requires AtPushWrite(q, i) && q.threads[i].done < |q.threads[i].item|
    ensures ReadersInv(Written(q, i))
  {
    var r := Written(q, i);
    var pos := q.threads[i].pos;
    assert ThreadInv(q, i) && WriterInv(q, pos);
    forall t: nat | t in r.reader ensures ReaderInv(r, t) {
      assert ReaderInv(q, t);
      OwnedCellsDiffer(q, pos, t);
    }
  }

  lemma WriteThreads<W>(q: Queue<W>, i: nat)
    requires AtPushWrite(q, i) && q.threads[i].done < |q.threads[i].item|
    ensures ThreadsInv(Written(q, i))
  {
    var r := Written(q, i);
    forall j: nat | j < |r.threads| ensures ThreadInv(r, j) {
      assert ThreadInv(q, j) && ThreadInv(q, i);
    }
  }

  lemma WriteKeepsInv<W>(q: Queue<W>, i: nat)
    requires AtPushWrite(q, i) && q.threads[i].done < |q.threads[i].item|
    ensures Inv(Written(q, i))
  {
    forall c: nat | c < |q.cells| ensures CellInv(Written(q, i), c) {
      WriteCell(q, i, c);
    }
    WriteWriters(q, i);
    WriteReaders(q, i);
    WriteThreads(q, i);
  }

  // The producer publishes: the last word is in, the stamp becomes `pos + 1`.

  ghost predicate AtPublish<W>(q: Queue<W>, i: nat) {
    AtPushWrite(q, i) && q.threads[i].done == |q.threads[i].item|
  }

  lemma ReadersBelowTail<W>(q: Queue<W>)
    requires Inv(q)
    ensures forall t: nat | t in q.reader :: t < q.tail
  {
    assert forall t: nat | t in q.reader :: ReaderInv(q, t);
  }

  lemma PublishOwnCell<W>(q: Queue<W>, i: nat)
    requires AtPublish(q, i)
    ensures CellInv(Written(q, i), Slot(q, q.threads[i].pos))
  {
    var pos := q.threads[i].pos;
    assert ThreadInv(q, i) && WriterInv(q, pos);
    WriterCellAwaits(q, pos);
    assert Data(q, pos) == q.log[pos];
    ReadersBelowTail(q);
    assert HoldsItem(Written(q, i), pos, Data(q, pos));
  }

  lemma PublishFrame<W>(q: Queue<W>, i: nat, t: nat, data: seq<W>)
    requires AtPublish(q, i)
    ensures t != q.threads[i].pos && AwaitsWrite(q, t) ==> AwaitsWrite(Written(q, i), t)
    ensures HoldsItem(q, t, data) ==> HoldsItem(Written(q, i), t, data)
  {
  }

  lemma PublishCell<W>(q: Queue<W>, i: nat, c: nat)
    requires AtPublish(q, i) && c < |q.cells|
    ensures CellInv(Written(q, i), c)
  {
    var pos := q.threads[i].pos;
    if c == Slot(q, pos) {
      PublishOwnCell(q, i);
    } else {
      var s := q.cells[c].stamp;
      assert CellInv(q, c);
      assert Written(q, i).cells[c] == q.cells[c];
      PublishFrame(q, i, s, q.cells[c].data);
      if s > 0 {
        PublishFrame(q, i, s - 1, q.cells[c].data);
      }
    }
  }

  lemma PublishOwners<W>(q: Queue<W>, i: nat)
    requires AtPublish(q, i)
    ensures WritersInv(Written(q, i)) && ReadersInv(Written(q, i))
  {
    var r := Written(q, i);
    var pos := q.threads[i].pos;
    assert ThreadInv(q, i) && WriterInv(q, pos);
    forall t: nat | t in r.writer ensures WriterInv(r, t) {
      assert WriterInv(q, t);
      OwnedCellsDiffer(q, t, pos);
    }
    forall t: nat | t in r.reader ensures ReaderInv(r, t) {
      assert ReaderInv(q, t);
      OwnedCellsDiffer(q, pos, t);
    }
  }

  lemma PublishThreads<W>(q: Queue<W>, i: nat)
    requires AtPublish(q, i)
    ensures ThreadsInv(Written(q, i)) && PoppedInv(Written(q, i))
  {
    var r := Written(q, i);
    var pos := q.threads[i].pos;
    assert ThreadInv(q, i) && WriterInv(q, pos);
    forall j: nat | j < |r.threads| ensures ThreadInv(r, j) {
      assert ThreadInv(q, j);
    }
  }

  lemma PublishKeepsInv<W>(q: Queue<W>, i: nat)
    requires AtPublish(q, i)
    ensures Inv(Written(q, i))
  {
    forall c: nat | c < |q.cells| ensures CellInv(Written(q, i), c) {
      PublishCell(q, i, c);
    }
    PublishOwners(q, i);
    PublishThreads(q, i);
  }

  // The consumer's CAS: thread `i` takes ticket `tail`.

  ghost predicate AtPopClaim<W>(q: Queue<W>, i: nat) {
    Inv(q) && i < |q.threads| && q.threads[i].PopCas? && q.threads[i].pos == q.tail
  }

  function Taken<W>(q: Queue<W>, i: nat): Queue<W>
    requires i < |q.threads| && q.threads[i].PopCas?
  {
    PopCasStep(q, i, q.tail, false)
  }

  /** The cell at the tail never runs ahead: its stamp is at most `tail + 1`. */
  lemma TailCell<W>(q: Queue<W>)
    requires Inv(q)
    ensures Stamp(q, q.tail) <= q.tail + 1
    ensures Stamp(q, q.tail) == q.tail + 1 ==> HoldsItem(q, q.tail, Data(q, q.tail))
  {
    var n := |q.cells|;
    var c := Slot(q, q.tail);
    var s := q.cells[c].stamp;
    assert CellInv(q, c);
    if Wrap(s, n) == c && AwaitsWrite(q, s) {
      SameSlot(s, q.tail, n);
    } else if s - 1 >= q.tail {
      SameSlot(s - 1, q.tail, n);
    }
  }

  lemma TakeCell<W>(q: Queue<W>, i: nat, c: nat)
    requires AtPopClaim(q, i) && c < |q.cells|
    ensures CellInv(Taken(q, i), c)
  {
    var r := Taken(q, i);
    var s := q.cells[c].stamp;
    assert ThreadInv(q, i);
    TailCell(q);
    assert CellInv(q, c);
    if Wrap(s, |q.cells|) == c && AwaitsWrite(q, s) {
      assert s != q.tail;
      TakeAwaits(q, i, s);
    } else {
      TakeHolds(q, i, s - 1, q.cells[c].data);
    }
  }

  lemma TakeAwaits<W>(q: Queue<W>, i: nat, t: nat)
    requires i < |q.threads| && q.threads[i].PopCas? && q.threads[i].pos == q.tail
    requires AwaitsWrite(q, t) && t != q.tail
    ensures AwaitsWrite(Taken(q, i), t)
  {
  }

  lemma TakeHolds<W>(q: Queue<W>, i: nat, t: nat, data: seq<W>)
    requires i < |q.threads| && q.threads[i].PopCas? && q.threads[i].pos == q.tail
    requires HoldsItem(q, t, data)
    ensures HoldsItem(Taken(q, i), t, data)
  {
  }

  lemma TakeOwners<W>(q: Queue<W>, i: nat)
    requires AtPopClaim(q, i)
    ensures WritersInv(Taken(q, i)) && ReadersInv(Taken(q, i))
  {
    var r := Taken(q, i);
    assert ThreadInv(q, i);
    TailCell(q);
    forall t: nat | t in r.writer ensures WriterInv(r, t) {
      assert WriterInv(q, t);
    }
    forall t: nat | t in r.reader ensures ReaderInv(r, t) {
      assert t != q.tail ==> ReaderInv(q, t);
    }
  }

  lemma TakeThreads<W>(q: Queue<W>, i: nat)
    requires AtPopClaim(q, i)
    ensures ThreadsInv(Taken(q, i)) && PoppedInv(Taken(q, i)) && q.tail < q.head
  {
    var r := Taken(q, i);
    assert ThreadInv(q, i);
    TailCell(q);
    assert HoldsItem(q, q.tail, Data(q, q.tail));
    forall j: nat | j < |r.threads| ensures ThreadInv(r, j) {
      assert ThreadInv(q, j);
    }
  }

  lemma TakeKeepsInv<W>(q: Queue<W>, i: nat)
    requires AtPopClaim(q, i)
    ensures Inv(Taken(q, i))
  {
    forall c: nat | c < |q.cells| ensures CellInv(Taken(q, i), c) {
      TakeCell(q, i, c);
    }
    TakeOwners(q, i);
    TakeThreads(q, i);
  }

  // The consumer copies one word out, and at the end releases the cell for the next lap.

  ghost predicate AtRead<W>(q: Queue<W>, i: nat) {
    Inv(q) && i < |q.threads| && q.threads[i].PopRead?
  }

  function AfterRead<W>(q: Queue<W>, i: nat): Queue<W>
    requires i < |q.threads| && q.threads[i].PopRead? && |q.cells| > 0
  {
    ReadStep(q, i, q.threads[i].pos, q.threads[i].got)
  }

  lemma ReadWordKeepsInv<W>(q: Queue<W>, i: nat)
    requires AtRead(q, i) && |q.threads[i].got| < |Data(q, q.threads[i].pos)|
    ensures Inv(AfterRead(q, i))
  {
    ReadWordCells(q, i);
    ReadWordOwners(q, i);
    ReadWordThreads(q, i);
  }

  lemma ReadWordCells<W>(q: Queue<W>, i: nat)
    requires AtRead(q, i) && |q.threads[i].got| < |Data(q, q.threads[i].pos)|
    ensures CellsInv(AfterRead(q, i))
  {
    var r := AfterRead(q, i);
    forall c: nat | c < |q.cells| ensures CellInv(r, c) {
      assert CellInv(q, c);
    }
  }

  lemma ReadWordThreads<W>(q: Queue<W>, i: nat)
    requires AtRead(q, i) && |q.threads[i].got| < |Data(q, q.threads[i].pos)|
    ensures ThreadsInv(AfterRead(q, i))
  {
    var r := AfterRead(q, i);
    forall j: nat | j < |r.threads| ensures ThreadInv(r, j) {
      assert ThreadInv(q, j) && ThreadInv(q, i) && ReaderInv(q, q.threads[i].pos);
    }
  }

  lemma ReadWordOwners<W>(q: Queue<W>, i: nat)
    requires AtRead(q, i) && |q.threads[i].got| < |Data(q, q.threads[i].pos)|
    ensures WritersInv(AfterRead(q, i)) && ReadersInv(AfterRead(q, i))
  {
    var r := AfterRead(q, i);
    assert ThreadInv(q, i) && ReaderInv(q, q.threads[i].pos);
    forall t: nat | t in r.writer ensures WriterInv(r, t) {
      assert WriterInv(q, t);
    }
    forall t: nat | t in r.reader ensures ReaderInv(r, t) {
      assert ReaderInv(q, t);
    }
  }

  ghost predicate AtRelease<W>(q: Queue<W>, i: nat) {
    AtRead(q, i) && |q.threads[i].got| >= |Data(q, q.threads[i].pos)|
  }

  lemma WritersBelowHead<W>(q: Queue<W>)
    requires Inv(q)
    ensures forall t: nat | t in q.writer :: t < q.head
  {
    assert forall t: nat | t in q.writer :: WriterInv(q, t);
  }

  lemma ReleaseOwnCell<W>(q: Queue<W>, i: nat)
    requires AtRelease(q, i)
    ensures CellInv(AfterRead(q, i), Slot(q, q.threads[i].pos))
  {
    var pos := q.threads[i].pos;
    var next := pos + |q.cells|;
    assert ThreadInv(q, i) && ReaderInv(q, pos);
    ReaderCellHolds(q, pos);
    assert CellInv(q, Slot(q, pos));
    assert Wrap(next, |q.cells|) == Slot(q, pos);
    WritersBelowHead(q);
    assert HoldsItem(q, pos, Data(q, pos));
    assert AwaitsWrite(AfterRead(q, i), next) by {
      assert q.tail <= q.head <= next;
      assert next !in q.writer;
    }
  }

  lemma ReleaseFrame<W>(q: Queue<W>, i: nat, t: nat, data: seq<W>)
    requires AtRelease(q, i)
    ensures AwaitsWrite(q, t) ==> AwaitsWrite(AfterRead(q, i), t)
    ensures t != q.threads[i].pos && HoldsItem(q, t, data) ==> HoldsItem(AfterRead(q, i), t, data)
  {
  }

  lemma ReleaseCell<W>(q: Queue<W>, i: nat, c: nat)
    requires AtRelease(q, i) && c < |q.cells|
    ensures CellInv(AfterRead(q, i), c)
  {
    var pos := q.threads[i].pos;
    if c == Slot(q, pos) {
      ReleaseOwnCell(q, i);
    } else {
      var s := q.cells[c].stamp;
      assert CellInv(q, c);
      assert AfterRead(q, i).cells[c] == q.cells[c];
      ReleaseFrame(q, i, s, q.cells[c].data);
      if s > 0 {
        ReleaseFrame(q, i, s - 1, q.cells[c].data);
      }
    }
  }

  lemma ReleaseOwners<W>(q: Queue<W>, i: nat)
    requires AtRelease(q, i)
    ensures WritersInv(AfterRead(q, i)) && ReadersInv(AfterRead(q, i))
  {
    var r := AfterRead(q, i);
    var pos := q.threads[i].pos;
    assert ThreadInv(q, i) && ReaderInv(q, pos);
    forall t: nat | t in r.writer ensures WriterInv(r, t) {
      assert WriterInv(q, t);
      OwnedCellsDiffer(q, t, pos);
    }
    forall t: nat | t in r.reader ensures ReaderInv(r, t) {
      assert ReaderInv(q, t);
      OwnedCellsDiffer(q, t, pos);
    }
  }

  lemma ReleaseThreads<W>(q: Queue<W>, i: nat)
    requires AtRelease(q, i)
    ensures ThreadsInv(AfterRead(q, i)) && PoppedInv(AfterRead(q, i))
  {
    var r := AfterRead(q, i);
    var pos := q.threads[i].pos;
    assert ThreadInv(q, i) && ReaderInv(q, pos);
    ReaderCellHolds(q, pos);
    forall j: nat | j < |r.threads| ensures ThreadInv(r, j) {
      assert ThreadInv(q, j);
    }
    assert q.threads[i].got == Data(q, pos) == q.log[pos];
  }

  lemma ReleaseKeepsInv<W>(q: Queue<W>, i: nat)
    requires AtRelease(q, i)
    ensures Inv(AfterRead(q, i))
  {
    forall c: nat | c < |q.cells| ensures CellInv(AfterRead(q, i), c) {
      ReleaseCell(q, i, c);
    }
    ReleaseOwners(q, i);
    ReleaseThreads(q, i);
  }

  // Steps that only move a program counter.

  lemma MoveOwners<W>(q: Queue<W>, i: nat, pc: Pc<W>)
    requires Inv(q) && i < |q.threads|
    requires !q.threads[i].PushWrite? && !q.threads[i].PopRead?
    ensures WritersInv(Goto(q, i, pc)) && ReadersInv(Goto(q, i, pc))
  {
    var r := Goto(q, i, pc);
    forall t: nat | t in r.writer ensures WriterInv(r, t) {
      assert WriterInv(q, t);
    }
    forall t: nat | t in r.reader ensures ReaderInv(r, t) {
      assert ReaderInv(q, t);
    }
  }

  lemma MoveKeepsInv<W>(q: Queue<W>, i: nat, pc: Pc<W>)
    requires Inv(q) && i < |q.threads|
    requires !q.threads[i].PushWrite? && !q.threads[i].PopRead?
    requires !pc.PushWrite? && !pc.PopRead?
    requires ThreadInv(Goto(q, i, pc), i)
    ensures Inv(Goto(q, i, pc))
  {
    var r := Goto(q, i, pc);
    forall c: nat | c < |q.cells| ensures CellInv(r, c) {
      assert CellInv(q, c);
    }
    MoveOwners(q, i, pc);
    MoveThreads(q, i, pc);
  }

  lemma MoveThreads<W>(q: Queue<W>, i: nat, pc: Pc<W>)
    requires Inv(q) && i < |q.threads| && ThreadInv(Goto(q, i, pc), i)
    ensures ThreadsInv(Goto(q, i, pc))
  {
    var r := Goto(q, i, pc);
    forall j: nat | j < |r.threads| ensures ThreadInv(r, j) {
      assert ThreadInv(q, j);
    }
  }

  lemma CopyStepKeepsInv<W>(q: Queue<W>, i: nat, c: Choice<W>)
    requires Inv(q) && i < |q.threads| && (q.threads[i].PushWrite? || q.threads[i].PopRead?)
    ensures Inv(Step(q, i, c))
  {
    var pc := q.threads[i];
    assert ThreadInv(q, i);
    if pc.PushWrite? {
      assert WriterInv(q, pc.pos);
      if pc.done < |pc.item| { WriteKeepsInv(q, i); } else { PublishKeepsInv(q, i); }
    } else {
      if |pc.got| < |Data(q, pc.pos)| { ReadWordKeepsInv(q, i); } else { ReleaseKeepsInv(q, i); }
    }
  }

  lemma CasStepKeepsInv<W>(q: Queue<W>, i: nat, c: Choice<W>)
    requires Inv(q) && i < |q.threads| && (q.threads[i].PushCas? || q.threads[i].PopCas?)
    ensures Inv(Step(q, i, c))
  {
    var pc := q.threads[i];
    assert ThreadInv(q, i);
    if pc.PushCas? {
      if q.head == pc.pos && c != Go(true) {
        ClaimKeepsInv(q, i);
      } else {
        MoveKeepsInv(q, i, PushLoadStamp(pc.item, q.head));
      }
    } else {
      if q.tail == pc.pos && c != Go(true) {
        TakeKeepsInv(q, i);
      } else {
        MoveKeepsInv(q, i, PopLoadStamp(q.tail));
      }
    }
  }

  lemma StampStepKeepsInv<W>(q: Queue<W>, i: nat, c: Choice<W>)
    requires Inv(q) && i < |q.threads| && (q.threads[i].PushLoadStamp? || q.threads[i].PopLoadStamp?)
    ensures Inv(Step(q, i, c))
  {
    var pc := q.threads[i];
    assert ThreadInv(q, i);
    if pc.PushLoadStamp? {
      if Stamp(q, pc.pos) == pc.pos { MoveKeepsInv(q, i, PushCas(pc.item, pc.pos)); }
      else if Stamp(q, pc.pos) < pc.pos { MoveKeepsInv(q, i, Idle(Full(pc.pos))); }
      else { MoveKeepsInv(q, i, PushLoadHead(pc.item)); }
    } else {
      if Stamp(q, pc.pos) == pc.pos + 1 { MoveKeepsInv(q, i, PopCas(pc.pos)); }
      else if Stamp(q, pc.pos) < pc.pos + 1 { MoveKeepsInv(q, i, Idle(Empty(pc.pos))); }
      else { MoveKeepsInv(q, i, PopLoadTail); }
    }
  }

  lemma BeginKeepsInv<W>(q: Queue<W>, i: nat, c: Choice<W>)
    requires Inv(q) && i < |q.threads| && q.threads[i].Idle?
    ensures Inv(Step(q, i, c))
  {
    match c
    case BeginPush(item) => if |item| == q.width { MoveKeepsInv(q, i, PushLoadHead(item)); }
    case BeginPop => MoveKeepsInv(q, i, PopLoadTail);
    case AskEmpty => MoveKeepsInv(q, i, EmptyLoadTail);
    case Go(_) =>
  }

  lemma StepKeepsInv<W>(q: Queue<W>, i: nat, c: Choice<W>)
    requires Inv(q) && i < |q.threads|
    ensures Inv(Step(q, i, c))
  {
    assert ThreadInv(q, i);
    match q.threads[i]
    case Idle(_) => BeginKeepsInv(q, i, c);
    case PushLoadHead(item) => MoveKeepsInv(q, i, PushLoadStamp(item, q.head));
    case PushLoadStamp(_, _) => StampStepKeepsInv(q, i, c);
    case PushCas(_, _) => CasStepKeepsInv(q, i, c);
    case PushWrite(_, _, _) => CopyStepKeepsInv(q, i, c);
    case PopLoadTail => MoveKeepsInv(q, i, PopLoadStamp(q.tail));
    case PopLoadStamp(_) => StampStepKeepsInv(q, i, c);
    case PopCas(_) => CasStepKeepsInv(q, i, c);
    case PopRead(_, _) => CopyStepKeepsInv(q, i, c);
    case EmptyLoadTail => MoveKeepsInv(q, i, EmptyLoadStamp(q.tail));
    case EmptyLoadStamp(pos) => MoveKeepsInv(q, i, Idle(AnsweredEmpty(Stamp(q, pos) != pos + 1)));
  }

  lemma {:induction false} RunKeepsInv<W>(q: Queue<W>, sched: seq<(nat, Choice<W>)>)
    requires Inv(q) && IsSchedule(sched, |q.threads|)
    ensures Inv(Run(q, sched))
    decreases |sched|
  {
    if sched != [] {
      StepKeepsInv(q, sched[0].0, sched[0].1);
      RunKeepsInv(Step(q, sched[0].0, sched[0].1), sched[1..]);
    }
  }

  // ---------------------------------------------------------------- what the invariant gives

  /** Ticket `t` was claimed by a producer; this says where its item is now. */
  ghost predicate Accounted<W>(q: Queue<W>, t: nat)
    requires |q.cells| > 0 && t < |q.log|
  {
    || t in q.writer
    || (Stamp(q, t) == t + 1 && Data(q, t) == q.log[t])
    || (t in q.popped && q.popped[t] == q.log[t])
  }

  /** Nothing is lost or overwritten unread: every claimed ticket is accounted for. */
  ghost predicate NothingLost<W>(q: Queue<W>)
    requires |q.cells| > 0
  {
    q.head == |q.log| && forall t | 0 <= t < |q.log| :: Accounted(q, t)
  }

  /** The ticket whose cell thread `i` is copying into or out of. */
  predicate Copies<W>(q: Queue<W>, i: nat, pos: nat)
    requires i < |q.threads|
  {
    (q.threads[i].PushWrite? || q.threads[i].PopRead?) && q.threads[i].pos == pos
  }

  lemma TicketAccounted<W>(q: Queue<W>, t: nat)
    requires Inv(q) && t < |q.log|
    ensures Accounted(q, t)
  {
    var n := |q.cells|;
    var c := Slot(q, t);
    var s := q.cells[c].stamp;
    assert CellInv(q, c);
    var cur := if Wrap(s, n) == c && AwaitsWrite(q, s) then s else s - 1;
    assert t <= cur by {
      if cur < t { SameSlot(cur, t, n); assert false; }
    }
    if t < cur {
      assert t + n <= cur by {
        if cur < t + n { SameSlot(cur, t, n); assert false; }
      }
    }
  }

  lemma CopiersApart<W>(q: Queue<W>, i: nat, j: nat, t: nat, u: nat)
    requires Inv(q) && i < |q.threads| && j < |q.threads| && i != j
    requires Copies(q, i, t) && Copies(q, j, u)
    ensures Slot(q, t) != Slot(q, u)
  {
    assert ThreadInv(q, i) && ThreadInv(q, j);
    if q.threads[i].PopRead? && q.threads[j].PushWrite? {
      OwnedCellsDiffer(q, u, t);
    } else {
      OwnedCellsDiffer(q, t, u);
    }
  }

  /**
   Safety over every run: no claimed item is lost; the calls that returned along the way pushed
   pairwise different tickets, each with the argument of its own call, and popped pairwise different
   tickets, each popped item being the one pushed under its ticket; no two threads are ever copying in the same cell.
   */
  lemma EveryRunIsSafe<W>(size: nat, width: nat, zero: W, threadCount: nat, sched: seq<(nat, Choice<W>)>)
    requires size >= 2 && IsSchedule(sched, threadCount)
    ensures var q0 := Init(size, width, zero, threadCount);
            var q := Run(q0, sched);
            && NothingLost(q) && CellsApart(q)
            && Adds(Pushes(q0, sched), iset{}, PublishedTickets(q), q.log)
            && Adds(Pops(q0, sched), iset{}, PoppedTickets(q), q.log)
            && Items(Pushes(q0, sched)) == Asked(q0, sched, NoCalls(threadCount))
  {
    var q0 := Init(size, width, zero, threadCount);
    InitInv(size, width, zero, threadCount);
    RunKeepsInv(q0, sched);
    SafeState(Run(q0, sched));
    FreshSets(q0);
    RunPops(q0, sched);
    RunPushes(q0, sched);
    InitCarries(size, width, zero, threadCount);
    PushesAreAsked(q0, sched, NoCalls(threadCount));
  }

  /** No two threads copy in the same cell. */
  ghost predicate CellsApart<W>(q: Queue<W>)
    requires |q.cells| > 0
  {
    forall i, j, t: nat, u: nat
      | 0 <= i < j < |q.threads| && Copies(q, i, t) && Copies(q, j, u) :: Slot(q, t) != Slot(q, u)
  }

  lemma SafeState<W>(q: Queue<W>)
    requires Inv(q)
    ensures NothingLost(q) && CellsApart(q)
  {
    forall t | 0 <= t < |q.log| ensures Accounted(q, t) {
      TicketAccounted(q, t);
    }
    forall i, j, t: nat, u: nat | 0 <= i < j < |q.threads| && Copies(q, i, t) && Copies(q, j, u)
      ensures Slot(q, t) != Slot(q, u)
    {
      CopiersApart(q, i, j, t, u);
    }
  }

  // ---------------------------------------------------------------- calls that returned

  /** A ticket, and the item that a returned call pushed or popped under it. */
  type Receipt<W> = (nat, seq<W>)

  /** The pop that thread `i` completes with this step, if it does. */
  function PopDone<W>(q: Queue<W>, i: nat, c: Choice<W>): seq<Receipt<W>>
    requires |q.cells| > 0 && i < |q.threads|
  {
    var pc := Step(q, i, c).threads[i];
    if InFlight(q, i) && pc.Idle? && pc.last.Popped? then [(pc.last.from, pc.last.item)] else []
  }

  /** The push that thread `i` completes with this step, if it does. */
  function PushDone<W>(q: Queue<W>, i: nat, c: Choice<W>): seq<Receipt<W>>
    requires |q.cells| > 0 && i < |q.threads|
  {
    var pc := Step(q, i, c).threads[i];
    if q.threads[i].PushWrite? && pc.Idle? && pc.last.Pushed? then [(pc.last.ticket, q.threads[i].item)] else []
  }

  /** The pops that return along a schedule, in that order. */
  function Pops<W>(q: Queue<W>, sched: seq<(nat, Choice<W>)>): seq<Receipt<W>>
    requires |q.cells| > 0 && IsSchedule(sched, |q.threads|)
    decreases |sched|
  {
    if sched == [] then []
    else PopDone(q, sched[0].0, sched[0].1) + Pops(Step(q, sched[0].0, sched[0].1), sched[1..])
  }

  /** The pushes that return true along a schedule, in that order. */
  function Pushes<W>(q: Queue<W>, sched: seq<(nat, Choice<W>)>): seq<Receipt<W>>
    requires |q.cells| > 0 && IsSchedule(sched, |q.threads|)
    decreases |sched|
  {
    if sched == [] then []
    else PushDone(q, sched[0].0, sched[0].1) + Pushes(Step(q, sched[0].0, sched[0].1), sched[1..])
  }

  /** The tickets whose whole item has been stored. */
  ghost function PublishedTickets<W>(q: Queue<W>): iset<nat> {
    iset t: nat | t < q.head && t !in q.writer
  }

  /** The tickets whose item has been taken out. */
  ghost function PoppedTickets<W>(q: Queue<W>): iset<nat> {
    iset t: nat | t in q.popped
  }

  predicate Named<W>(rs: seq<Receipt<W>>, t: nat) {
    exists a | 0 <= a < |rs| :: rs[a].0 == t
  }

  /** The receipts name, once each and with the item logged for it, the tickets in `after` that were not in `before`. */
  ghost predicate Adds<W>(rs: seq<Receipt<W>>, before: iset<nat>, after: iset<nat>, log: seq<seq<W>>) {
    && (forall a, b | 0 <= a < b < |rs| :: rs[a].0 != rs[b].0)
    && (forall a | 0 <= a < |rs| :: rs[a].0 !in before && rs[a].0 < |log| && rs[a].1 == log[rs[a].0])
    && (forall t: nat :: t in after <==> t in before || Named(rs, t))
  }

  lemma NamedAppend<W>(xs: seq<Receipt<W>>, ys: seq<Receipt<W>>, t: nat)
    ensures Named(xs + ys, t) <==> Named(xs, t) || Named(ys, t)
  {
    if Named(xs, t) {
      var a :| 0 <= a < |xs| && xs[a].0 == t;
      assert (xs + ys)[a] == xs[a];
    }
    if Named(ys, t) {
      var a :| 0 <= a < |ys| && ys[a].0 == t;
      assert (xs + ys)[|xs| + a] == ys[a];
    }
  }

  lemma AddsAppend<W>(xs: seq<Receipt<W>>, ys: seq<Receipt<W>>, a: iset<nat>, b: iset<nat>, c: iset<nat>,
                      log0: seq<seq<W>>, log: seq<seq<W>>)
    requires Adds(xs, a, b, log0) && Adds(ys, b, c, log) && log0 <= log
    ensures Adds(xs + ys, a, c, log)
  {
    forall t: nat ensures t in c <==> t in a || Named(xs + ys, t) {
      NamedAppend(xs, ys, t);
    }
    forall i, j | 0 <= i < |xs| && 0 <= j < |ys| ensures xs[i].0 != ys[j].0 {
      assert Named(xs, xs[i].0);
    }
  }

  lemma AddsNothing<W>(a: iset<nat>, log: seq<seq<W>>)
    ensures Adds([], a, a, log)
  {
  }

  lemma AddsOne<W>(t: nat, item: seq<W>, a: iset<nat>, b: iset<nat>, log: seq<seq<W>>)
    requires t !in a && b == a + iset{t} && t < |log| && log[t] == item
    ensures Adds([(t, item)], a, b, log)
  {
    var rs := [(t, item)];
    assert rs[0].0 == t && Named(rs, t);
  }

  lemma FreshSets<W>(q: Queue<W>)
    requires q.head == 0 && q.popped == map[]
    ensures PublishedTickets(q) == iset{} && PoppedTickets(q) == iset{}
  {
  }

  /** A pop that returns takes a ticket that nobody has popped, with the item pushed under it. */
  lemma PopIsFirst<W>(q: Queue<W>, i: nat, c: Choice<W>, t: nat, item: seq<W>)
    requires Inv(q) && i < |q.threads| && InFlight(q, i) && Step(q, i, c).threads[i] == Idle(Popped(t, item))
    ensures Copies(q, i, t) && t !in q.popped && t < |q.log| && item == q.log[t]
    ensures Step(q, i, c).popped == q.popped[t := item]
  {
    OnlyReadsPop(q, i, c);
    var pc := q.threads[i];
    assert ThreadInv(q, i) && ReaderInv(q, pc.pos);
    assert Step(q, i, c) == ReadStep(q, i, pc.pos, pc.got);
    StepKeepsInv(q, i, c);
    assert PoppedInv(Step(q, i, c));
  }

  /** Only the last step of a read completes a pop, and no other step touches `popped`. */
  lemma OnlyReadsPop<W>(q: Queue<W>, i: nat, c: Choice<W>)
    requires |q.cells| > 0 && i < |q.threads| && InFlight(q, i)
    ensures var pc := Step(q, i, c).threads[i];
            if pc.Idle? && pc.last.Popped? then q.threads[i].PopRead? else Step(q, i, c).popped == q.popped
  {
    match q.threads[i]
    case PushWrite(item, p, done) => assert Step(q, i, c) == WriteStep(q, i, item, p, done);
    case PopRead(p, got) => assert Step(q, i, c) == ReadStep(q, i, p, got);
    case _ => CopyFreePops(q, i, c);
  }

  lemma CopyFreePops<W>(q: Queue<W>, i: nat, c: Choice<W>)
    requires |q.cells| > 0 && i < |q.threads| && InFlight(q, i) && !q.threads[i].PushWrite? && !q.threads[i].PopRead?
    ensures Step(q, i, c).popped == q.popped
    ensures var pc := Step(q, i, c).threads[i]; pc.Idle? ==> !pc.last.Popped?
  {
    match q.threads[i]
    case PushLoadStamp(item, p) => assert Step(q, i, c) == PushStampStep(q, i, item, p);
    case PopLoadStamp(p) => assert Step(q, i, c) == PopStampStep(q, i, p);
    case PushCas(item, p) => assert Step(q, i, c) == PushCasStep(q, i, item, p, c == Go(true));
    case PopCas(p) => assert Step(q, i, c) == PopCasStep(q, i, p, c == Go(true));
    case _ =>
  }

  lemma StepPops<W>(q: Queue<W>, i: nat, c: Choice<W>)
    requires Inv(q) && i < |q.threads|
    ensures Adds(PopDone(q, i, c), PoppedTickets(q), PoppedTickets(Step(q, i, c)), q.log)
  {
    var r := Step(q, i, c);
    if !InFlight(q, i) {
      assert r == BeginStep(q, i, c);
      AddsNothing(PoppedTickets(q), q.log);
    } else if r.threads[i].Idle? && r.threads[i].last.Popped? {
      var t, item := r.threads[i].last.from, r.threads[i].last.item;
      PopIsFirst(q, i, c, t, item);
      assert PoppedTickets(r) == PoppedTickets(q) + iset{t};
      AddsOne(t, item, PoppedTickets(q), PoppedTickets(r), q.log);
    } else {
      OnlyReadsPop(q, i, c);
      AddsNothing(PoppedTickets(q), q.log);
    }
  }

  /** A push that returns publishes its own ticket, for the first time. */
  lemma PushIsFirst<W>(q: Queue<W>, i: nat, c: Choice<W>)
    requires Inv(q) && i < |q.threads| && q.threads[i].PushWrite? && q.threads[i].done >= |q.threads[i].item|
    ensures var pc := q.threads[i];
            && PushDone(q, i, c) == [(pc.pos, pc.item)]
            && pc.pos !in PublishedTickets(q) && pc.pos < |q.log| && q.log[pc.pos] == pc.item
            && PublishedTickets(Step(q, i, c)) == PublishedTickets(q) + iset{pc.pos}
  {
    var pc := q.threads[i];
    assert ThreadInv(q, i) && WriterInv(q, pc.pos);
    assert Step(q, i, c) == WriteStep(q, i, pc.item, pc.pos, pc.done);
  }

  lemma CasPublishesNothing<W>(q: Queue<W>, i: nat, c: Choice<W>)
    requires |q.cells| > 0 && i < |q.threads| && (q.threads[i].PushCas? || q.threads[i].PopCas?)
    ensures PublishedTickets(Step(q, i, c)) == PublishedTickets(q)
  {
    var pc := q.threads[i];
    if pc.PushCas? {
      assert Step(q, i, c) == PushCasStep(q, i, pc.item, pc.pos, c == Go(true));
    } else {
      assert Step(q, i, c) == PopCasStep(q, i, pc.pos, c == Go(true));
    }
  }

  lemma CopyPublishesNothing<W>(q: Queue<W>, i: nat, c: Choice<W>)
    requires |q.cells| > 0 && i < |q.threads|
    requires q.threads[i].PopRead? || (q.threads[i].PushWrite? && q.threads[i].done < |q.threads[i].item|)
    ensures PushDone(q, i, c) == [] && PublishedTickets(Step(q, i, c)) == PublishedTickets(q)
  {
    var pc := q.threads[i];
    if pc.PopRead? {
      assert Step(q, i, c) == ReadStep(q, i, pc.pos, pc.got);
    } else {
      assert Step(q, i, c) == WriteStep(q, i, pc.item, pc.pos, pc.done);
    }
  }

  lemma OnlyWritesPush<W>(q: Queue<W>, i: nat, c: Choice<W>)
    requires |q.cells| > 0 && i < |q.threads|
    requires q.threads[i].PushWrite? ==> q.threads[i].done < |q.threads[i].item|
    ensures PushDone(q, i, c) == [] && PublishedTickets(Step(q, i, c)) == PublishedTickets(q)
  {
    var pc := q.threads[i];
    if pc.PushCas? || pc.PopCas? {
      CasPublishesNothing(q, i, c);
    } else if pc.PushWrite? || pc.PopRead? {
      CopyPublishesNothing(q, i, c);
    } else {
      LocalStep(q, i, c);
    }
  }

  lemma StepPushes<W>(q: Queue<W>, i: nat, c: Choice<W>)
    requires Inv(q) && i < |q.threads|
    ensures Adds(PushDone(q, i, c), PublishedTickets(q), PublishedTickets(Step(q, i, c)), q.log)
  {
    var pc := q.threads[i];
    if pc.PushWrite? && pc.done >= |pc.item| {
      PushIsFirst(q, i, c);
      AddsOne(pc.pos, pc.item, PublishedTickets(q), PublishedTickets(Step(q, i, c)), q.log);
    } else {
      OnlyWritesPush(q, i, c);
      AddsNothing(PublishedTickets(q), q.log);
    }
  }

  lemma {:induction false} RunPops<W>(q: Queue<W>, sched: seq<(nat, Choice<W>)>)
    requires Inv(q) && IsSchedule(sched, |q.threads|)
    ensures Adds(Pops(q, sched), PoppedTickets(q), PoppedTickets(Run(q, sched)), Run(q, sched).log)
    decreases |sched|
  {
    if sched == [] {
      AddsNothing(PoppedTickets(q), q.log);
    } else {
      var (i, c) := sched[0];
      var q1 := Step(q, i, c);
      StepKeepsInv(q, i, c);
      StepPops(q, i, c);
      RunPops(q1, sched[1..]);
      RunOnlyGrows(q, sched);
      AddsAppend(PopDone(q, i, c), Pops(q1, sched[1..]), PoppedTickets(q), PoppedTickets(q1),
                 PoppedTickets(Run(q, sched)), q.log, Run(q, sched).log);
    }
  }

  lemma {:induction false} RunPushes<W>(q: Queue<W>, sched: seq<(nat, Choice<W>)>)
    requires Inv(q) && IsSchedule(sched, |q.threads|)
    ensures Adds(Pushes(q, sched), PublishedTickets(q), PublishedTickets(Run(q, sched)), Run(q, sched).log)
    decreases |sched|
  {
    if sched == [] {
      AddsNothing(PublishedTickets(q), q.log);
    } else {
      var (i, c) := sched[0];
      var q1 := Step(q, i, c);
      StepKeepsInv(q, i, c);
      StepPushes(q, i, c);
      RunPushes(q1, sched[1..]);
      RunOnlyGrows(q, sched);
      AddsAppend(PushDone(q, i, c), Pushes(q1, sched[1..]), PublishedTickets(q), PublishedTickets(q1),
                 PublishedTickets(Run(q, sched)), q.log, Run(q, sched).log);
    }
  }

  // ---------------------------------------------------------------- what the callers asked for

  /** The items of receipts, in order. */
  function Items<W>(rs: seq<Receipt<W>>): seq<seq<W>> {
    seq(|rs|, a requires 0 <= a < |rs| => rs[a].1)
  }

  /** The argument of thread `i`'s call, read off the schedule: an idle thread that begins a push starts a new one. */
  function Argument<W>(q: Queue<W>, i: nat, c: Choice<W>, arg: seq<W>): seq<W>
    requires i < |q.threads|
  {
    if !InFlight(q, i) && c.BeginPush? then c.item else arg
  }

  /** This step makes thread `i`'s call return that it pushed. */
  predicate ReturnsPushed<W>(q: Queue<W>, i: nat, c: Choice<W>)
    requires |q.cells| > 0 && i < |q.threads|
  {
    var pc := Step(q, i, c).threads[i];
    InFlight(q, i) && pc.Idle? && pc.last.Pushed?
  }

  /** The arguments of the pushes that return true along a schedule, in the order in which they return. */
  function Asked<W>(q: Queue<W>, sched: seq<(nat, Choice<W>)>, args: seq<seq<W>>): seq<seq<W>>
    requires |q.cells| > 0 && IsSchedule(sched, |q.threads|) && |args| == |q.threads|
    decreases |sched|
  {
    if sched == [] then []
    else
      var (i, c) := sched[0];
      (if ReturnsPushed(q, i, c) then [args[i]] else [])
      + Asked(Step(q, i, c), sched[1..], args[i := Argument(q, i, c, args[i])])
  }

  /** The same for one thread. */
  function AskedBy<W>(q: Queue<W>, sched: seq<(nat, Choice<W>)>, i: nat, arg: seq<W>): seq<seq<W>>
    requires |q.cells| > 0 && IsSchedule(sched, |q.threads|) && i < |q.threads|
    decreases |sched|
  {
    if sched == [] then []
    else
      var (j, c) := sched[0];
      if j != i then AskedBy(Step(q, j, c), sched[1..], i, arg)
      else
        (if ReturnsPushed(q, i, c) then [arg] else []) + AskedBy(Step(q, i, c), sched[1..], i, Argument(q, i, c, arg))
  }

  /** A thread inside a push still carries the argument of its call. */
  ghost predicate Carries<W>(pc: Pc<W>, arg: seq<W>) {
    (pc.PushLoadHead? || pc.PushLoadStamp? || pc.PushCas? || pc.PushWrite?) ==> pc.item == arg
  }

  lemma CarriesOn<W>(q: Queue<W>, i: nat, c: Choice<W>, arg: seq<W>)
    requires |q.cells| > 0 && i < |q.threads| && Carries(q.threads[i], arg)
    ensures Carries(Step(q, i, c).threads[i], Argument(q, i, c, arg))
  {
    match q.threads[i]
    case Idle(_) => assert Step(q, i, c) == BeginStep(q, i, c);
    case PushLoadStamp(item, p) => assert Step(q, i, c) == PushStampStep(q, i, item, p);
    case PopLoadStamp(p) => assert Step(q, i, c) == PopStampStep(q, i, p);
    case PushCas(item, p) => assert Step(q, i, c) == PushCasStep(q, i, item, p, c == Go(true));
    case PopCas(p) => assert Step(q, i, c) == PopCasStep(q, i, p, c == Go(true));
    case _ => CarriesCopy(q, i, c, arg);
  }

  lemma CarriesCopy<W>(q: Queue<W>, i: nat, c: Choice<W>, arg: seq<W>)
    requires |q.cells| > 0 && i < |q.threads| && Carries(q.threads[i], arg) && InFlight(q, i)
    requires !q.threads[i].PushLoadStamp? && !q.threads[i].PopLoadStamp? && !q.threads[i].PushCas? && !q.threads[i].PopCas?
    ensures Carries(Step(q, i, c).threads[i], arg)
  {
    match q.threads[i]
    case PushWrite(item, p, done) => assert Step(q, i, c) == WriteStep(q, i, item, p, done);
    case PopRead(p, got) => assert Step(q, i, c) == ReadStep(q, i, p, got);
    case _ =>
  }

  /** Only the last step of a write makes a call return that it pushed, and its receipt holds the carried item. */
  lemma ReturnsCarried<W>(q: Queue<W>, i: nat, c: Choice<W>, arg: seq<W>)
    requires |q.cells| > 0 && i < |q.threads| && Carries(q.threads[i], arg)
    ensures Items(PushDone(q, i, c)) == if ReturnsPushed(q, i, c) then [arg] else []
  {
    if ReturnsPushed(q, i, c) && !q.threads[i].PushWrite? {
      CopyFreePushes(q, i, c);
      assert false;
    }
  }

  lemma CopyFreePushes<W>(q: Queue<W>, i: nat, c: Choice<W>)
    requires |q.cells| > 0 && i < |q.threads| && InFlight(q, i) && !q.threads[i].PushWrite?
    ensures var pc := Step(q, i, c).threads[i]; pc.Idle? ==> !pc.last.Pushed?
  {
    match q.threads[i]
    case PushLoadStamp(item, p) => assert Step(q, i, c) == PushStampStep(q, i, item, p);
    case PopLoadStamp(p) => assert Step(q, i, c) == PopStampStep(q, i, p);
    case PushCas(item, p) => assert Step(q, i, c) == PushCasStep(q, i, item, p, c == Go(true));
    case PopCas(p) => assert Step(q, i, c) == PopCasStep(q, i, p, c == Go(true));
    case PopRead(p, got) => assert Step(q, i, c) == ReadStep(q, i, p, got);
    case _ =>
  }

  ghost predicate AllCarry<W>(q: Queue<W>, args: seq<seq<W>>) {
    |args| == |q.threads| && forall i | 0 <= i < |q.threads| :: Carries(q.threads[i], args[i])
  }

  lemma AllCarryOn<W>(q: Queue<W>, i: nat, c: Choice<W>, args: seq<seq<W>>)
    requires |q.cells| > 0 && i < |q.threads| && AllCarry(q, args)
    ensures AllCarry(Step(q, i, c), args[i := Argument(q, i, c, args[i])])
  {
    CarriesOn(q, i, c, args[i]);
    forall j: nat | j < |q.threads| && j != i ensures Step(q, i, c).threads[j] == q.threads[j] {
      StepOthers(q, i, c, j);
    }
  }

  lemma ItemsAppend<W>(xs: seq<Receipt<W>>, ys: seq<Receipt<W>>)
    ensures Items(xs + ys) == Items(xs) + Items(ys)
  {
  }

  /** Along every schedule the items pushed are the callers' arguments: the receipts of the pushes that return hold them, in order. */
  lemma {:induction false} PushesAreAsked<W>(q: Queue<W>, sched: seq<(nat, Choice<W>)>, args: seq<seq<W>>)
    requires |q.cells| > 0 && IsSchedule(sched, |q.threads|) && AllCarry(q, args)
    ensures Items(Pushes(q, sched)) == Asked(q, sched, args)
    decreases |sched|
  {
    if sched != [] {
      var (i, c) := sched[0];
      ReturnsCarried(q, i, c, args[i]);
      AllCarryOn(q, i, c, args);
      PushesAreAsked(Step(q, i, c), sched[1..], args[i := Argument(q, i, c, args[i])]);
      ItemsAppend(PushDone(q, i, c), Pushes(Step(q, i, c), sched[1..]));
    }
  }

  /** Thread by thread: what thread `i` pushed is what its calls asked for. */
  lemma {:induction false} PushesByAreAsked<W>(q: Queue<W>, sched: seq<(nat, Choice<W>)>, i: nat, arg: seq<W>)
    requires |q.cells| > 0 && IsSchedule(sched, |q.threads|) && i < |q.threads| && Carries(q.threads[i], arg)
    ensures Items(PushesBy(q, sched, i)) == AskedBy(q, sched, i, arg)
    decreases |sched|
  {
    if sched != [] {
      var (j, c) := sched[0];
      if j == i {
        ReturnsCarried(q, i, c, arg);
        CarriesOn(q, i, c, arg);
        PushesByAreAsked(Step(q, i, c), sched[1..], i, Argument(q, i, c, arg));
        ItemsAppend(PushDone(q, i, c), PushesBy(Step(q, i, c), sched[1..], i));
      } else {
        StepOthers(q, j, c, i);
        PushesByAreAsked(Step(q, j, c), sched[1..], i, arg);
        assert PushesBy(q, sched, i) == PushesBy(Step(q, j, c), sched[1..], i);
      }
    }
  }

  /** No call has been made yet. */
  function NoCalls<W>(threadCount: nat): seq<seq<W>> {
    seq(threadCount, _ => [])
  }

  lemma InitCarries<W>(size: nat, width: nat, zero: W, threadCount: nat)
    ensures AllCarry(Init(size, width, zero, threadCount), NoCalls(threadCount))
  {
  }

  // ---------------------------------------------------------------- calls in real time

  /** The pushes that thread `i` completes along a schedule. */
  function PushesBy<W>(q: Queue<W>, sched: seq<(nat, Choice<W>)>, i: nat): seq<Receipt<W>>
    requires |q.cells| > 0 && IsSchedule(sched, |q.threads|)
    decreases |sched|
  {
    if sched == [] then []
    else
      (if sched[0].0 == i then PushDone(q, i, sched[0].1) else [])
      + PushesBy(Step(q, sched[0].0, sched[0].1), sched[1..], i)
  }

  function PopsBy<W>(q: Queue<W>, sched: seq<(nat, Choice<W>)>, i: nat): seq<Receipt<W>>
    requires |q.cells| > 0 && IsSchedule(sched, |q.threads|)
    decreases |sched|
  {
    if sched == [] then []
    else
      (if sched[0].0 == i then PopDone(q, i, sched[0].1) else [])
      + PopsBy(Step(q, sched[0].0, sched[0].1), sched[1..], i)
  }

  /** Whatever ticket thread `i` holds, it claimed after the head stood at `h` and the tail at `t`. */
  ghost predicate Since<W>(q: Queue<W>, i: nat, h: nat, t: nat)
    requires i < |q.threads|
  {
    && h <= q.head && t <= q.tail
    && (q.threads[i].PushWrite? ==> q.threads[i].pos >= h) && (q.threads[i].PopRead? ==> q.threads[i].pos >= t)
  }

  /** A step leaves the other threads alone. */
  lemma StepOthers<W>(q: Queue<W>, j: nat, c: Choice<W>, i: nat)
    requires |q.cells| > 0 && j < |q.threads| && i < |q.threads| && i != j
    ensures Step(q, j, c).threads[i] == q.threads[i]
  {
    match q.threads[j]
    case PushCas(item, p) => assert Step(q, j, c) == PushCasStep(q, j, item, p, c == Go(true));
    case PopCas(p) => assert Step(q, j, c) == PopCasStep(q, j, p, c == Go(true));
    case PushWrite(item, p, done) => assert Step(q, j, c) == WriteStep(q, j, item, p, done);
    case PopRead(p, got) => assert Step(q, j, c) == ReadStep(q, j, p, got);
    case _ => LocalStep(q, j, c);
  }

  /** A claim takes the ticket at the head or at the tail; a copy goes on with its ticket. */
  lemma ClaimsAtEnds<W>(q: Queue<W>, i: nat, c: Choice<W>)
    requires |q.cells| > 0 && i < |q.threads|
    ensures var pc, was := Step(q, i, c).threads[i], q.threads[i];
            && (pc.PushWrite? ==> pc.pos == q.head || (was.PushWrite? && was.pos == pc.pos))
            && (pc.PopRead? ==> pc.pos == q.tail || (was.PopRead? && was.pos == pc.pos))
  {
    match q.threads[i]
    case PushCas(item, p) => assert Step(q, i, c) == PushCasStep(q, i, item, p, c == Go(true));
    case PopCas(p) => assert Step(q, i, c) == PopCasStep(q, i, p, c == Go(true));
    case PushWrite(item, p, done) => assert Step(q, i, c) == WriteStep(q, i, item, p, done);
    case PopRead(p, got) => assert Step(q, i, c) == ReadStep(q, i, p, got);
    case _ => LocalClaimsNothing(q, i, c);
  }

  lemma LocalClaimsNothing<W>(q: Queue<W>, i: nat, c: Choice<W>)
    requires |q.cells| > 0 && i < |q.threads|
    requires !q.threads[i].PushWrite? && !q.threads[i].PopRead? && !q.threads[i].PushCas? && !q.threads[i].PopCas?
    ensures !Step(q, i, c).threads[i].PushWrite? && !Step(q, i, c).threads[i].PopRead?
  {
    var pc := q.threads[i];
    if pc.Idle? {
      assert Step(q, i, c) == BeginStep(q, i, c);
    } else if pc.PushLoadStamp? {
      assert Step(q, i, c) == PushStampStep(q, i, pc.item, pc.pos);
    } else if pc.PopLoadStamp? {
      assert Step(q, i, c) == PopStampStep(q, i, pc.pos);
    }
  }

  lemma SinceStep<W>(q: Queue<W>, j: nat, c: Choice<W>, i: nat, h: nat, t: nat)
    requires Inv(q) && j < |q.threads| && i < |q.threads| && Since(q, i, h, t)
    ensures Since(Step(q, j, c), i, h, t)
  {
    HistoryOnlyGrows(q, j, c);
    if i == j {
      ClaimsAtEnds(q, i, c);
    } else {
      StepOthers(q, j, c, i);
    }
  }

  /** What thread `i` completes with this step has a ticket from after `h` and `t`. */
  lemma SinceDone<W>(q: Queue<W>, i: nat, c: Choice<W>, h: nat, t: nat)
    requires Inv(q) && i < |q.threads| && Since(q, i, h, t)
    ensures forall r | r in PushDone(q, i, c) :: r.0 >= h
    ensures forall r | r in PopDone(q, i, c) :: r.0 >= t
  {
    var pc, now := q.threads[i], Step(q, i, c).threads[i];
    if pc.PushWrite? && pc.done >= |pc.item| {
      PushIsFirst(q, i, c);
    } else {
      OnlyWritesPush(q, i, c);
    }
    if InFlight(q, i) && now.Idle? && now.last.Popped? {
      PopIsFirst(q, i, c, now.last.from, now.last.item);
    }
  }

  lemma {:induction false} LaterCallsLaterTickets<W>(q: Queue<W>, sched: seq<(nat, Choice<W>)>, i: nat, h: nat, t: nat)
    requires Inv(q) && IsSchedule(sched, |q.threads|) && i < |q.threads| && Since(q, i, h, t)
    ensures forall r | r in PushesBy(q, sched, i) :: r.0 >= h
    ensures forall r | r in PopsBy(q, sched, i) :: r.0 >= t
    decreases |sched|
  {
    if sched != [] {
      var (j, c) := sched[0];
      StepKeepsInv(q, j, c);
      SinceStep(q, j, c, i, h, t);
      SinceDone(q, i, c, h, t);
      LaterCallsLaterTickets(Step(q, j, c), sched[1..], i, h, t);
    }
  }

  lemma EarlierTickets<W>(rs: seq<Receipt<W>>, after: iset<nat>, log: seq<seq<W>>, bound: nat)
    requires Adds(rs, iset{}, after, log) && forall t: nat | t in after :: t < bound
    ensures forall r | r in rs :: r.0 < bound
  {
    forall r | r in rs ensures r.0 < bound {
      assert Named(rs, r.0);
    }
  }

  /**
   First in, first out in real time: a push by a thread that is idle when others have returned gets a
   later ticket than every one of theirs, and so does a pop. Calls that do not overlap keep their order.
   */
  lemma RealTimeOrder<W>(size: nat, width: nat, zero: W, threadCount: nat,
                         before: seq<(nat, Choice<W>)>, after: seq<(nat, Choice<W>)>, i: nat, q0: Queue<W>, q: Queue<W>)
    requires size >= 2 && IsSchedule(before, threadCount) && IsSchedule(after, threadCount) && i < threadCount
    requires q0 == Init(size, width, zero, threadCount) && q == Run(q0, before) && !InFlight(q, i)
    ensures forall r, s | r in Pushes(q0, before) && s in PushesBy(q, after, i) :: r.0 < s.0
    ensures forall r, s | r in Pops(q0, before) && s in PopsBy(q, after, i) :: r.0 < s.0
  {
    InitInv(size, width, zero, threadCount);
    RunKeepsInv(q0, before);
    FreshSets(q0);
    RunPushes(q0, before);
    RunPops(q0, before);
    EarlierTickets(Pushes(q0, before), PublishedTickets(q), q.log, q.head);
    EarlierTickets(Pops(q0, before), PoppedTickets(q), q.log, q.tail);
    LaterCallsLaterTickets(q, after, i, q.head, q.tail);
  }

  /** What one step may do to the history: grow it, and pop only a ticket this thread has read. */
  ghost predicate Grows<W>(q: Queue<W>, r: Queue<W>, i: nat)
    requires i < |q.threads|
  {
    && q.log <= r.log && q.head <= r.head && q.tail <= r.tail
    && (forall t: nat | t in q.popped :: t in r.popped && r.popped[t] == q.popped[t])
    && (forall t: nat | t in r.popped && t !in q.popped :: Copies(q, i, t))
  }

  lemma ReadGrows<W>(q: Queue<W>, i: nat)
    requires AtRead(q, i)
    ensures Grows(q, AfterRead(q, i), i)
  {
    assert ThreadInv(q, i) && ReaderInv(q, q.threads[i].pos);
  }

  lemma CasGrows<W>(q: Queue<W>, i: nat, c: Choice<W>)
    requires Inv(q) && i < |q.threads| && (q.threads[i].PushCas? || q.threads[i].PopCas?)
    ensures Grows(q, Step(q, i, c), i)
  {
    var pc := q.threads[i];
    if pc.PushCas? {
      assert Step(q, i, c) == PushCasStep(q, i, pc.item, pc.pos, c == Go(true));
    } else {
      assert Step(q, i, c) == PopCasStep(q, i, pc.pos, c == Go(true));
    }
  }

  /** What was claimed or popped is never rewritten, and a step pops only a ticket its thread has read. */
  lemma HistoryOnlyGrows<W>(q: Queue<W>, i: nat, c: Choice<W>)
    requires Inv(q) && i < |q.threads|
    ensures Grows(q, Step(q, i, c), i)
  {
    match q.threads[i]
    case PopRead(_, _) => ReadGrows(q, i);
    case PushWrite(item, pos, done) => assert Step(q, i, c) == WriteStep(q, i, item, pos, done);
    case PushCas(_, _) => CasGrows(q, i, c);
    case PopCas(_) => CasGrows(q, i, c);
    case _ => LocalStep(q, i, c);
  }

  /** Over a whole run nothing that was pushed or popped is ever rewritten. */
  lemma {:induction false} RunOnlyGrows<W>(q: Queue<W>, sched: seq<(nat, Choice<W>)>)
    requires Inv(q) && IsSchedule(sched, |q.threads|)
    ensures var r := Run(q, sched);
            && q.log <= r.log && q.head <= r.head && q.tail <= r.tail
            && forall t: nat | t in q.popped :: t in r.popped && r.popped[t] == q.popped[t]
    decreases |sched|
  {
    if sched != [] {
      HistoryOnlyGrows(q, sched[0].0, sched[0].1);
      StepKeepsInv(q, sched[0].0, sched[0].1);
      RunOnlyGrows(Step(q, sched[0].0, sched[0].1), sched[1..]);
    }
  }

  lemma LocalStep<W>(q: Queue<W>, i: nat, c: Choice<W>)
    requires |q.cells| > 0 && i < |q.threads|
    requires !q.threads[i].PushWrite? && !q.threads[i].PopRead? && !q.threads[i].PushCas? && !q.threads[i].PopCas?
    ensures Step(q, i, c) == Goto(q, i, Step(q, i, c).threads[i])
  {
    var pc := q.threads[i];
    if pc.Idle? {
      assert Step(q, i, c) == BeginStep(q, i, c);
    } else if pc.PushLoadStamp? {
      assert Step(q, i, c) == PushStampStep(q, i, pc.item, pc.pos);
    } else if pc.PopLoadStamp? {
      assert Step(q, i, c) == PopStampStep(q, i, pc.pos);
    }
  }

  // ---------------------------------------------------------------- refusals

  /** A refusal is decided by the load of the stamp, and by nothing else. */
  lemma RefusalComesFromStamp<W>(q: Queue<W>, i: nat, c: Choice<W>, pos: nat)
    requires |q.cells| > 0 && i < |q.threads| && InFlight(q, i)
    ensures Step(q, i, c).threads[i] == Idle(Full(pos)) <==>
            q.threads[i].PushLoadStamp? && q.threads[i].pos == pos && Stamp(q, pos) < pos
    ensures Step(q, i, c).threads[i] == Idle(Empty(pos)) <==>
            q.threads[i].PopLoadStamp? && q.threads[i].pos == pos && Stamp(q, pos) <= pos
  {
    match q.threads[i]
    case PushLoadStamp(item, p) => assert Step(q, i, c) == PushStampStep(q, i, item, p);
    case PopLoadStamp(p) => assert Step(q, i, c) == PopStampStep(q, i, p);
    case _ => NoRefusal(q, i, c);
  }

  lemma NoRefusal<W>(q: Queue<W>, i: nat, c: Choice<W>)
    requires |q.cells| > 0 && i < |q.threads| && InFlight(q, i)
    requires !q.threads[i].PushLoadStamp? && !q.threads[i].PopLoadStamp?
    ensures var pc := Step(q, i, c).threads[i]; pc.Idle? ==> !pc.last.Full? && !pc.last.Empty?
  {
    match q.threads[i]
    case PushCas(item, p) => assert Step(q, i, c) == PushCasStep(q, i, item, p, c == Go(true));
    case PopCas(p) => assert Step(q, i, c) == PopCasStep(q, i, p, c == Go(true));
    case PushWrite(item, p, done) => assert Step(q, i, c) == WriteStep(q, i, item, p, done);
    case PopRead(p, got) => assert Step(q, i, c) == ReadStep(q, i, p, got);
    case _ =>
  }

  /** `push` refuses only when it stands at the head and the ticket one lap back is unreleased. */
  lemma FullIsTruthful<W>(q: Queue<W>, i: nat, c: Choice<W>, pos: nat)
    requires Inv(q) && i < |q.threads| && InFlight(q, i)
    requires Step(q, i, c).threads[i] == Idle(Full(pos))
    ensures q.head == pos && |q.cells| <= pos && pos - |q.cells| !in q.popped
  {
    RefusalComesFromStamp(q, i, c, pos);
    assert ThreadInv(q, i);
    StampBehindHead(q, pos);
  }

  lemma StampBehindHead<W>(q: Queue<W>, pos: nat)
    requires Inv(q) && pos <= q.head && Stamp(q, pos) < pos
    ensures q.head == pos && |q.cells| <= pos && pos - |q.cells| !in q.popped
  {
    var n := |q.cells|;
    var s := Stamp(q, pos);
    assert CellInv(q, Slot(q, pos));
    var cur := if Wrap(s, n) == Slot(q, pos) && AwaitsWrite(q, s) then s else s - 1;
    assert cur + n <= pos by {
      if pos < cur + n { SameSlot(cur, pos, n); assert false; }
    }
    assert pos == q.head == cur + n;
  }

  /** `pop` refuses only when it stands at the tail and that ticket is not published. */
  lemma EmptyIsTruthful<W>(q: Queue<W>, i: nat, c: Choice<W>, pos: nat)
    requires Inv(q) && i < |q.threads| && InFlight(q, i)
    requires Step(q, i, c).threads[i] == Idle(Empty(pos))
    ensures q.tail == pos && (pos == q.head || pos in q.writer)
  {
    RefusalComesFromStamp(q, i, c, pos);
    assert ThreadInv(q, i);
    if pos < q.head {
      TicketAccounted(q, pos);
      if pos in q.popped { PoppedCellMovedOn(q, pos); }
    }
    assert pos == q.tail by {
      if pos in q.writer { WriterCellAwaits(q, pos); }
    }
  }

  /** Once popped, a ticket's cell has a stamp at least one lap further. */
  lemma PoppedCellMovedOn<W>(q: Queue<W>, t: nat)
    requires Inv(q) && t in q.popped
    ensures t + |q.cells| <= Stamp(q, t)
  {
    var n := |q.cells|;
    var s := Stamp(q, t);
    assert CellInv(q, Slot(q, t));
    var cur := if Wrap(s, n) == Slot(q, t) && AwaitsWrite(q, s) then s else s - 1;
    if cur < t + n {
      SameSlot(cur, t, n);
      assert false;
    }
  }

  /**
   `empty` answers false exactly when the ticket it loaded is published and not popped, even if pops
   have overtaken it since.
   */
  lemma EmptyAnswerIsTruthful<W>(q: Queue<W>, i: nat, c: Choice<W>)
    requires Inv(q) && i < |q.threads| && q.threads[i].EmptyLoadStamp?
    ensures var pos := q.threads[i].pos;
            Step(q, i, c).threads[i] == Idle(AnsweredEmpty(!(pos < q.head && pos !in q.writer && pos !in q.popped)))
  {
    var pos := q.threads[i].pos;
    assert ThreadInv(q, i);
    if pos < q.head {
      TicketAccounted(q, pos);
      if pos in q.writer {
        WriterCellAwaits(q, pos);
      } else if pos in q.popped {
        PoppedCellMovedOn(q, pos);
      }
    } else {
      TailCell(q);
    }
  }

  // ---------------------------------------------------------------- with nothing in flight

  /** With no operation in flight the cells hold exactly the unread items, at most `SIZE` of them. */
  lemma QuiescentContents<W>(q: Queue<W>)
    requires Inv(q) && Quiescent(q)
    ensures q.writer == map[] && q.reader == map[]
    ensures q.head <= q.tail + |q.cells|
    ensures forall t: nat | q.tail <= t < q.head :: Stamp(q, t) == t + 1 && Data(q, t) == q.log[t]
    ensures forall t: nat :: t in q.popped <==> t < q.tail
    ensures Stamp(q, q.head) == q.head <==> q.head < q.tail + |q.cells|
    ensures Stamp(q, q.head) <= q.head
  {
    NoCopiers(q);
    forall t: nat | q.tail <= t < q.head ensures Stamp(q, t) == t + 1 && Data(q, t) == q.log[t] {
      TicketAccounted(q, t);
    }
    if q.tail < q.head {
      TailCell(q);
      assert Stamp(q, q.tail) == q.tail + 1;
    }
    QuiescentHead(q);
  }

  lemma CopiersInFlight<W>(q: Queue<W>)
    requires Inv(q)
    ensures forall t: nat | t in q.writer :: q.writer[t] < |q.threads| && InFlight(q, q.writer[t])
    ensures forall t: nat | t in q.reader :: q.reader[t] < |q.threads| && InFlight(q, q.reader[t])
  {
    assert forall t: nat | t in q.writer :: WriterInv(q, t);
    assert forall t: nat | t in q.reader :: ReaderInv(q, t);
  }

  lemma NoCopiers<W>(q: Queue<W>)
    requires Inv(q) && Quiescent(q)
    ensures q.writer == map[] && q.reader == map[]
  {
    CopiersInFlight(q);
    assert forall t: nat :: t !in q.writer && t !in q.reader;
  }

  lemma QuiescentHead<W>(q: Queue<W>)
    requires Inv(q) && q.writer == map[] && q.reader == map[] && q.head <= q.tail + |q.cells|
    ensures Stamp(q, q.head) == q.head <==> q.head < q.tail + |q.cells|
    ensures Stamp(q, q.head) <= q.head
  {
    var n := |q.cells|;
    var s := Stamp(q, q.head);
    assert CellInv(q, Slot(q, q.head));
    if Wrap(s, n) == Slot(q, q.head) && AwaitsWrite(q, s) {
      SameSlot(s, q.head, n);
    } else {
      assert s - 1 + n == q.head by {
        if s - 1 + n != q.head { SameSlot(s - 1, q.head, n); assert false; }
      }
    }
  }

  // ---------------------------------------------------------------- a thread running alone

  function Alone<W>(i: nat, k: nat): seq<(nat, Choice<W>)> {
    if k == 0 then [] else [(i, Go(false))] + Alone(i, k - 1)
  }

  lemma {:induction false} AloneIsSchedule<W>(i: nat, k: nat, threadCount: nat)
    requires i < threadCount
    ensures IsSchedule<W>(Alone<W>(i, k), threadCount)
  {
    if k > 0 {
      AloneIsSchedule<W>(i, k - 1, threadCount);
    }
  }

  /** `k` steps of thread `i` with nobody else running. */
  function Solo<W>(q: Queue<W>, i: nat, k: nat): (r: Queue<W>)
    requires |q.cells| > 0 && i < |q.threads|
    ensures SameShape(q, r)
    decreases k
  {
    if k == 0 then q else Solo(Step(q, i, Go(false)), i, k - 1)
  }

  lemma {:induction false} SoloIsRun<W>(q: Queue<W>, i: nat, k: nat)
    requires |q.cells| > 0 && i < |q.threads|
    ensures IsSchedule(Alone<W>(i, k), |q.threads|)
    ensures Solo(q, i, k) == Run(q, Alone(i, k))
    decreases k
  {
    AloneIsSchedule<W>(i, k, |q.threads|);
    if k > 0 {
      SoloIsRun(Step(q, i, Go(false)), i, k - 1);
      assert Alone<W>(i, k)[1..] == Alone<W>(i, k - 1);
    }
  }

  /** What a solo operation leaves for everybody else. */
  ghost predicate OthersSame<W>(q: Queue<W>, r: Queue<W>, i: nat) {
    |r.threads| == |q.threads| && forall j | 0 <= j < |q.threads| && j != i :: r.threads[j] == q.threads[j]
  }

  lemma WriteEffect<W>(q: Queue<W>, i: nat)
    requires AtPushWrite(q, i)
    ensures var pc := q.threads[i];
            var r := Step(q, i, Go(false));
            && r.threads[i] == (if pc.done < |pc.item| then PushWrite(pc.item, pc.pos, pc.done + 1) else Idle(Pushed(pc.pos)))
            && OthersSame(q, r, i)
            && r.head == q.head && r.tail == q.tail && r.log == q.log && r.popped == q.popped
  {
    var pc := q.threads[i];
    assert Step(q, i, Go(false)) == WriteStep(q, i, pc.item, pc.pos, pc.done);
  }

  lemma {:induction false} SoloWrite<W>(q: Queue<W>, i: nat)
    requires AtPushWrite(q, i) && q.threads[i].done <= |q.threads[i].item|
    ensures var pc := q.threads[i];
            var r := Solo(q, i, |pc.item| - pc.done + 1);
            && Inv(r) && r.threads[i] == Idle(Pushed(pc.pos)) && OthersSame(q, r, i)
            && r.head == q.head && r.tail == q.tail && r.log == q.log && r.popped == q.popped
    decreases |q.threads[i].item| - q.threads[i].done
  {
    var pc := q.threads[i];
    WriteEffect(q, i);
    var r := SoloNext(q, i, |pc.item| - pc.done);
    if pc.done < |pc.item| {
      SoloWrite(r, i);
    }
  }

  /** Peel one step off a solo run. */
  lemma SoloNext<W>(q: Queue<W>, i: nat, k: nat) returns (r: Queue<W>)
    requires Inv(q) && i < |q.threads|
    ensures Inv(r) && SameShape(q, r) && r == Step(q, i, Go(false))
    ensures Solo(q, i, k + 1) == Solo(r, i, k) && (k == 0 ==> Solo(r, i, k) == r)
  {
    r := Step(q, i, Go(false));
    StepKeepsInv(q, i, Go(false));
  }

  lemma ReadEffect<W>(q: Queue<W>, i: nat)
    requires AtRead(q, i)
    ensures |q.threads[i].got| <= q.width && q.threads[i].pos < |q.log|
    ensures var pc := q.threads[i];
            var r := Step(q, i, Go(false));
            && (if |pc.got| < q.width then
                  r.threads[i].PopRead? && r.threads[i].pos == pc.pos && |r.threads[i].got| == |pc.got| + 1
                else r.threads[i] == Idle(Popped(pc.pos, q.log[pc.pos])))
            && OthersSame(q, r, i) && r.head == q.head && r.tail == q.tail && r.log == q.log
  {
    var pc := q.threads[i];
    assert ThreadInv(q, i) && ReaderInv(q, pc.pos) && CellInv(q, Slot(q, pc.pos));
    ReaderCellHolds(q, pc.pos);
    assert Step(q, i, Go(false)) == ReadStep(q, i, pc.pos, pc.got);
    assert |pc.got| == q.width ==> pc.got == Data(q, pc.pos);
  }

  lemma {:induction false} SoloRead<W>(q: Queue<W>, i: nat)
    requires AtRead(q, i)
    ensures |q.threads[i].got| <= q.width && q.threads[i].pos < |q.log|
    ensures var pc := q.threads[i];
            var r := Solo(q, i, q.width - |pc.got| + 1);
            && Inv(r) && r.threads[i] == Idle(Popped(pc.pos, q.log[pc.pos])) && OthersSame(q, r, i)
            && r.head == q.head && r.tail == q.tail && r.log == q.log
    decreases q.width - |q.threads[i].got|
  {
    var pc := q.threads[i];
    ReadEffect(q, i);
    var r := SoloNext(q, i, q.width - |pc.got|);
    if |pc.got| < q.width {
      SoloRead(r, i);
    }
  }

  /** With nothing in flight, a push run alone is refused exactly when `SIZE` items wait, and otherwise stores its item. */
  lemma SoloPush<W>(q: Queue<W>, i: nat, item: seq<W>)
    requires Inv(q) && Quiescent(q) && i < |q.threads| && |item| == q.width
    ensures var b := Step(q, i, BeginPush(item));
            if q.head - q.tail == |q.cells| then
              Solo(b, i, 2) == Goto(q, i, Idle(Full(q.head)))
            else
              var r := Solo(b, i, q.width + 4);
              && Inv(r) && Quiescent(r) && r.threads[i] == Idle(Pushed(q.head))
              && r.log == q.log + [item] && r.head == q.head + 1 && r.tail == q.tail
  {
    QuiescentContents(q);
    var b := Step(q, i, BeginPush(item));
    StepKeepsInv(q, i, BeginPush(item));
    var b1 := Step(b, i, Go(false));
    StepKeepsInv(b, i, Go(false));
    assert b1 == Goto(q, i, PushLoadStamp(item, q.head));
    var b2 := Step(b1, i, Go(false));
    StepKeepsInv(b1, i, Go(false));
    assert b2 == PushStampStep(b1, i, item, q.head);
    if q.head - q.tail == |q.cells| {
      assert b2 == Goto(q, i, Idle(Full(q.head)));
      assert Solo(b, i, 2) == Solo(b1, i, 1) == Solo(b2, i, 0);
    } else {
      SoloPushClaim(b2, i, item);
      assert Solo(b, i, q.width + 4) == Solo(b1, i, q.width + 3) == Solo(b2, i, q.width + 2);
    }
  }

  lemma SoloPushClaim<W>(q: Queue<W>, i: nat, item: seq<W>)
    requires Inv(q) && i < |q.threads| && q.threads[i] == PushCas(item, q.head)
    ensures var r := Solo(q, i, q.width + 2);
            && Inv(r) && r.threads[i] == Idle(Pushed(q.head)) && OthersSame(q, r, i)
            && r.log == q.log + [item] && r.head == q.head + 1 && r.tail == q.tail
  {
    assert ThreadInv(q, i);
    var b := Step(q, i, Go(false));
    StepKeepsInv(q, i, Go(false));
    assert b == PushCasStep(q, i, item, q.head, false);
    SoloWrite(b, i);
  }

  /** With nothing in flight, a pop run alone is refused exactly on the empty queue, and otherwise returns the oldest item. */
  lemma SoloPop<W>(q: Queue<W>, i: nat)
    requires Inv(q) && Quiescent(q) && i < |q.threads|
    ensures var b := Step(q, i, BeginPop);
            if q.head == q.tail then
              Solo(b, i, 2) == Goto(q, i, Idle(Empty(q.tail)))
            else
              var r := Solo(b, i, q.width + 4);
              && Inv(r) && Quiescent(r) && r.threads[i] == Idle(Popped(q.tail, q.log[q.tail]))
              && r.log == q.log && r.head == q.head && r.tail == q.tail + 1
  {
    var b := Step(q, i, BeginPop);
    var b2 := SoloPopLoads(q, i, b);
    if q.head == q.tail {
      assert Solo(b, i, 2) == Solo(b2, i, 0);
    } else {
      SoloPopClaim(b2, i);
    }
  }

  /** The first two steps of a pop on a quiescent queue: load the tail, then its stamp. */
  lemma SoloPopLoads<W>(q: Queue<W>, i: nat, b: Queue<W>) returns (b2: Queue<W>)
    requires Inv(q) && Quiescent(q) && i < |q.threads| && b == Step(q, i, BeginPop)
    ensures Inv(b2) && b2 == Goto(q, i, if q.head == q.tail then Idle(Empty(q.tail)) else PopCas(q.tail))
    ensures forall k: nat :: Solo(b, i, k + 2) == Solo(b2, i, k)
  {
    QuiescentContents(q);
    TailCell(q);
    StepKeepsInv(q, i, BeginPop);
    var b1 := Step(b, i, Go(false));
    StepKeepsInv(b, i, Go(false));
    assert b1 == Goto(q, i, PopLoadStamp(q.tail));
    b2 := Step(b1, i, Go(false));
    StepKeepsInv(b1, i, Go(false));
    assert b2 == PopStampStep(b1, i, q.tail);
    forall k: nat ensures Solo(b, i, k + 2) == Solo(b2, i, k) {
      assert Solo(b, i, k + 2) == Solo(b1, i, k + 1);
    }
  }

  lemma SoloPopClaim<W>(q: Queue<W>, i: nat)
    requires Inv(q) && i < |q.threads| && q.threads[i] == PopCas(q.tail) && q.tail < q.head
    ensures var r := Solo(q, i, q.width + 2);
            && Inv(r) && r.threads[i] == Idle(Popped(q.tail, q.log[q.tail])) && OthersSame(q, r, i)
            && r.log == q.log && r.head == q.head && r.tail == q.tail + 1
  {
    assert ThreadInv(q, i);
    var b := Step(q, i, Go(false));
    StepKeepsInv(q, i, Go(false));
    assert b == PopCasStep(q, i, q.tail, false);
    SoloRead(b, i);
    assert Solo(q, i, q.width + 2) == Solo(b, i, q.width + 1);
  }

  // ---------------------------------------------------------------- SIZE 1

  /**
   With a single cell the "published" stamp `pos + 1` is also the "free for the next lap" stamp
   `pos + SIZE`: a second push overwrites the first item before anybody read it.
   */
  lemma SizeOneLosesItems<W>(threadCount: nat, i: nat, a: W, b: W)
    requires a != b && i < threadCount
    ensures IsSchedule(TwoPushes(i, a, b), threadCount)
    ensures !NothingLost(Run(Init(1, 1, a, threadCount), TwoPushes(i, a, b)))
  {
    var q0 := Init(1, 1, a, threadCount);
    var q1 := SizeOnePush(q0, i, [a]);
    var q2 := SizeOnePush(q1, i, [b]);
    var one := [(i, BeginPush([a]))] + Alone<W>(i, 5);
    var two := [(i, BeginPush([b]))] + Alone<W>(i, 5);
    AloneIsSchedule<W>(i, 5, threadCount);
    SoloIsRun(Step(q0, i, BeginPush([a])), i, 5);
    SoloIsRun(Step(q1, i, BeginPush([b])), i, 5);
    assert one[1..] == Alone<W>(i, 5) && two[1..] == Alone<W>(i, 5);
    RunAppend(q0, one, two);
    assert q2.log == [[a], [b]] && Data(q2, 0) == [b];
    assert !Accounted(q2, 0);
  }

  lemma {:induction false} RunAppend<W>(q: Queue<W>, s: seq<(nat, Choice<W>)>, t: seq<(nat, Choice<W>)>)
    requires |q.cells| > 0 && IsSchedule(s, |q.threads|) && IsSchedule(t, |q.threads|)
    ensures Run(q, s + t) == Run(Run(q, s), t)
    decreases |s|
  {
    if s == [] {
      assert s + t == t;
    } else {
      RunAppend(Step(q, s[0].0, s[0].1), s[1..], t);
      assert (s + t)[1..] == s[1..] + t;
    }
  }

  /** On the one-cell queue a push never notices the unread item. */
  lemma SizeOnePush<W>(q: Queue<W>, i: nat, item: seq<W>) returns (r: Queue<W>)
    requires |q.cells| == 1 && i < |q.threads| && q.width == |item| == 1 && q.threads[i].Idle?
    requires q.cells[0].stamp == q.head == |q.log| && |q.cells[0].data| == 1 && q.writer == map[] && q.popped == map[]
    ensures r == Solo(Step(q, i, BeginPush(item)), i, 5)
    ensures r.threads[i] == Idle(Pushed(q.head))
    ensures r.cells[0] == Cell(q.head + 1, item) && r.head == q.head + 1 && r.log == q.log + [item]
    ensures r.writer == map[] && r.popped == map[]
  {
    var b := Step(q, i, BeginPush(item));
    var b1 := Step(b, i, Go(false));
    var b2 := Step(b1, i, Go(false));
    assert Wrap(q.head, 1) == 0;
    assert b2.threads[i] == PushCas(item, q.head);
    var b3 := Step(b2, i, Go(false));
    var b4 := Step(b3, i, Go(false));
    assert b4.cells[0].data == item;
    r := Step(b4, i, Go(false));
    assert Solo(b, i, 5) == Solo(b1, i, 4) == Solo(b2, i, 3) == Solo(b3, i, 2) == Solo(b4, i, 1) == Solo(r, i, 0);
  }

  function TwoPushes<W>(i: nat, a: W, b: W): seq<(nat, Choice<W>)> {
    [(i, BeginPush([a]))] + Alone<W>(i, 5) + ([(i, BeginPush([b]))] + Alone<W>(i, 5))
  }

  /** Exactly the sizes from 2 up keep every item in every run. */
  lemma SafeExactlyFromSizeTwo<W(!new)>(size: nat, a: W, b: W)
    requires size > 0 && a != b
    ensures size >= 2 <==>
            forall width: nat, zero: W, threadCount: nat, sched: seq<(nat, Choice<W>)>
              | IsSchedule(sched, threadCount) :: NothingLost(Run(Init(size, width, zero, threadCount), sched))
  {
    if size >= 2 {
      forall width: nat, zero: W, threadCount: nat, sched: seq<(nat, Choice<W>)> | IsSchedule(sched, threadCount)
        ensures NothingLost(Run(Init(size, width, zero, threadCount), sched))
      {
        EveryRunIsSafe(size, width, zero, threadCount, sched);
      }
    } else {
      SizeOneLosesItems(1, 0, a, b);
      assert !NothingLost(Run(Init(size, 1, a, 1), TwoPushes(0, a, b)));
    }
  }
}
