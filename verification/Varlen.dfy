/**
 The single-producer/single-consumer byte ring of `lockfree/varlen_ring.hpp`: records of a 4-byte
 length and a payload, wrapping anywhere, copied one byte per step. `frames` and `delivered` are
 auxiliary: the payloads committed by the stores to `head` and to `tail`.
 */
module VarlenRing {
  import opened Numbers
  import opened Ring

  const HDR: nat := 4
  const LEN_LIMIT: nat := 0x1_0000_0000

  // ---------------------------------------------------------------- records

  /** The length prefix, in the little-endian byte order of the host. */
  function EncodeLen(len: nat): (s: seq<Byte>)
    requires len < LEN_LIMIT
    ensures |s| == HDR
  {
    [len % 256, len / 256 % 256, len / 65536 % 256, len / 16777216]
  }

  function DecodeLen(s: seq<Byte>): nat
    requires |s| == HDR
  {
    var b0: int, b1: int, b2: int, b3: int := s[0], s[1], s[2], s[3];
    b0 + 256 * b1 + 65536 * b2 + 16777216 * b3
  }

  lemma LenRoundTrip(len: nat)
    requires len < LEN_LIMIT
    ensures DecodeLen(EncodeLen(len)) == len
  {
    assert len / 256 / 256 == len / 65536 && len / 65536 / 256 == len / 16777216;
  }

  type Payload = p: seq<Byte> | 0 < |p| < LEN_LIMIT witness [0]

  function Record(p: Payload): (s: seq<Byte>)
    ensures |s| == HDR + |p|
  {
    EncodeLen(|p|) + p
  }

  /** The bytes of a sequence of records, one after the other. */
  function Stream(ps: seq<Payload>): seq<Byte> {
    if ps == [] then [] else Stream(ps[..|ps| - 1]) + Record(ps[|ps| - 1])
  }

  lemma StreamSnoc(ps: seq<Payload>, p: Payload)
    ensures Stream(ps + [p]) == Stream(ps) + Record(p)
  {
    assert (ps + [p])[..|ps|] == ps;
  }

  lemma {:induction false} StreamPrefix(ps: seq<Payload>, m: nat)
    requires m <= |ps|
    ensures Stream(ps[..m]) <= Stream(ps)
    decreases |ps|
  {
    if m < |ps| {
      var init := ps[..|ps| - 1];
      StreamPrefix(init, m);
      assert init[..m] == ps[..m];
    } else {
      assert ps[..m] == ps;
    }
  }

  /** Record `d` occupies the stream right after the first `d` records. */
  lemma RecordInStream(ps: seq<Payload>, d: nat, m: nat)
    requires d < m <= |ps|
    ensures var start := |Stream(ps[..d])|;
            && start + HDR + |ps[d]| <= |Stream(ps[..m])| <= |Stream(ps)|
            && start + HDR + |ps[d]| == |Stream(ps[..d + 1])|
            && Stream(ps)[start..start + HDR + |ps[d]|] == Record(ps[d])
  {
    StreamPrefix(ps, m);
    StreamPrefix(ps[..m], d + 1);
    StreamPrefix(ps, d + 1);
    assert ps[..m][..d + 1] == ps[..d + 1];
    RecordLast(ps, d);
    SliceOfPrefix(Stream(ps[..d + 1]), Stream(ps), |Stream(ps[..d])|, |Stream(ps[..d + 1])|);
  }

  lemma RecordLast(ps: seq<Payload>, d: nat)
    requires d < |ps|
    ensures var start, s := |Stream(ps[..d])|, Stream(ps[..d + 1]);
            |s| == start + HDR + |ps[d]| && s[start..|s|] == Record(ps[d])
  {
    assert ps[..d + 1] == ps[..d] + [ps[d]];
    StreamSnoc(ps[..d], ps[d]);
  }

  lemma SliceOfPrefix(a: seq<Byte>, b: seq<Byte>, from: nat, to: nat)
    requires a <= b && from <= to <= |a|
    ensures b[from..to] == a[from..to]
  {
  }

  /** A whole record lies in the stream at position `at`. */
  ghost predicate RecordAt(stream: seq<Byte>, at: nat, p: Payload) {
    at + HDR + |p| <= |stream| && stream[at..at + HDR + |p|] == Record(p)
  }

  // ---------------------------------------------------------------- the two threads

  /** `bytes` is the record as it is laid out in the ring. */
  datatype Producer =
    | PIdle(refused: bool)
    | PLoadHead(payload: Payload)
    | PLoadTail(payload: Payload, h: nat)
    | PWrite(payload: Payload, bytes: seq<Byte>, h: nat, done: nat)

  datatype ReadResult = NoCall | Got(payload: seq<Byte>) | NothingThere | Corrupt | TooSmall

  /** `upto` is auxiliary: the stream position of the head that was loaded. */
  datatype Consumer =
    | CIdle(last: ReadResult)
    | CLoadTail(maxLen: nat)
    | CLoadHead(maxLen: nat, t: nat)
    | CReadLen(maxLen: nat, t: nat, h: nat, upto: nat, got: seq<Byte>)
    | CReadBody(t: nat, len: nat, got: seq<Byte>)

  datatype Move = Write(payload: seq<Byte>) | Read(maxLen: nat) | ProducerGo | ConsumerGo

  /** `frames`, `delivered`, `stream` and `consumed` are auxiliary: what was committed, as payloads and as bytes. */
  datatype Varlen = Varlen(
    buffer: seq<Byte>,
    head: nat,
    tail: nat,
    producer: Producer,
    consumer: Consumer,
    frames: seq<Payload>,
    delivered: seq<seq<Byte>>,
    stream: seq<Byte>,
    consumed: nat)

  function Init(size: nat): Varlen {
    Varlen(seq(size, _ => 0), 0, 0, PIdle(false), CIdle(NoCall), [], [], [], 0)
  }

  function FreeSpace(h: nat, t: nat, n: nat): nat
    requires n > 0
  {
    Mask(t - h - 1, n)
  }

  function Available(h: nat, t: nat, n: nat): nat
    requires n > 0
  {
    Mask(h - t, n)
  }

  function ProducerStep(v: Varlen): (r: Varlen)
    requires |v.buffer| > 0
    ensures |r.buffer| == |v.buffer|
  {
    var n := |v.buffer|;
    match v.producer
    case PIdle(_) => v
    case PLoadHead(p) => v.(producer := PLoadTail(p, v.head))
    case PLoadTail(p, h) =>
      if FreeSpace(h, v.tail, n) < |p| + HDR then v.(producer := PIdle(true))
      else v.(producer := PWrite(p, Record(p), h, 0))
    case PWrite(p, bytes, h, done) =>
      if done < |bytes| then
        v.(buffer := v.buffer[Wrap(h + done, n) := bytes[done]], producer := PWrite(p, bytes, h, done + 1))
      else
        v.(head := Wrap(h + HDR + |p|, n), producer := PIdle(false),
           frames := v.frames + [p], stream := v.stream + bytes)
  }

  function LenStep(v: Varlen, maxLen: nat, t: nat, h: nat, upto: nat, got: seq<Byte>): (r: Varlen)
    requires |v.buffer| > 0
    ensures r == v.(consumer := r.consumer)
  {
    var n := |v.buffer|;
    if |got| != HDR then v.(consumer := CReadLen(maxLen, t, h, upto, got + [v.buffer[Wrap(t + |got|, n)]]))
    else
      var len := DecodeLen(got);
      if len == 0 || Available(h, t, n) < HDR + len then v.(consumer := CIdle(Corrupt))
      else if len > maxLen then v.(consumer := CIdle(TooSmall))
      else v.(consumer := CReadBody(t, len, []))
  }

  function BodyStep(v: Varlen, t: nat, len: nat, got: seq<Byte>): (r: Varlen)
    requires |v.buffer| > 0
    ensures |r.buffer| == |v.buffer|
  {
    var n := |v.buffer|;
    if |got| < len then v.(consumer := CReadBody(t, len, got + [v.buffer[Wrap(t + HDR + |got|, n)]]))
    else
      v.(tail := Wrap(t + HDR + len, n), consumer := CIdle(Got(got)),
         delivered := v.delivered + [got], consumed := v.consumed + HDR + len)
  }

  function ConsumerStep(v: Varlen): (r: Varlen)
    requires |v.buffer| > 0
    ensures |r.buffer| == |v.buffer|
  {
    match v.consumer
    case CIdle(_) => v
    case CLoadTail(maxLen) => v.(consumer := CLoadHead(maxLen, v.tail))
    case CLoadHead(maxLen, t) =>
      if Available(v.head, t, |v.buffer|) < HDR then v.(consumer := CIdle(NothingThere))
      else v.(consumer := CReadLen(maxLen, t, v.head, |v.stream|, []))
    case CReadLen(maxLen, t, h, upto, got) => LenStep(v, maxLen, t, h, upto, got)
    case CReadBody(t, len, got) => BodyStep(v, t, len, got)
  }

  /** `write` refuses an empty or oversized payload before it looks at the ring. */
  function Step(v: Varlen, m: Move): (r: Varlen)
    requires |v.buffer| > 0
    ensures |r.buffer| == |v.buffer|
  {
    match m
    case Write(p) =>
      if !v.producer.PIdle? || |p| >= LEN_LIMIT then v
      else if |p| == 0 || |p| + HDR > |v.buffer| - 1 then v.(producer := PIdle(true))
      else v.(producer := PLoadHead(p))
    case Read(maxLen) => if v.consumer.CIdle? then v.(consumer := CLoadTail(maxLen)) else v
    case ProducerGo => ProducerStep(v)
    case ConsumerGo => ConsumerStep(v)
  }

  function Run(v: Varlen, moves: seq<Move>): (r: Varlen)
    requires |v.buffer| > 0
    ensures |r.buffer| == |v.buffer|
    decreases |moves|
  {
    if moves == [] then v else Run(Step(v, moves[0]), moves[1..])
  }

  // ---------------------------------------------------------------- invariant

  /** The ring holds the unconsumed bytes of the stream, with at least one slot unused. */
  ghost predicate RingInv(v: Varlen) {
    && |v.buffer| > 0
    && v.consumed <= |v.stream| < v.consumed + |v.buffer|
    && v.head == Wrap(|v.stream|, |v.buffer|) && v.tail == Wrap(v.consumed, |v.buffer|)
    && forall k: nat {:trigger v.stream[k]} | v.consumed <= k < |v.stream| :: v.buffer[Wrap(k, |v.buffer|)] == v.stream[k]
  }

  ghost predicate ProducerInv(v: Varlen)
    requires |v.buffer| > 0
  {
    match v.producer
    case PIdle(_) => true
    case PLoadHead(_) => true
    case PLoadTail(_, h) => h == v.head
    case PWrite(p, bytes, h, done) =>
      && h == v.head && done <= |bytes| == HDR + |p|
      && |v.stream| + |bytes| < v.consumed + |v.buffer|
      && forall j: nat {:trigger bytes[j]} | j < done :: v.buffer[Wrap(|v.stream| + j, |v.buffer|)] == bytes[j]
  }

  /** The stream is the concatenation of the records, and the consumer stands between two of them. */
  ghost predicate LinkInv(v: Varlen) {
    && v.stream == Stream(v.frames)
    && v.delivered <= v.frames
    && v.consumed == |Stream(v.frames[..|v.delivered|])|
    && (v.producer.PWrite? ==> v.producer.bytes == Record(v.producer.payload))
  }

  ghost predicate ConsumerInv(v: Varlen)
    requires |v.buffer| > 0
  {
    var d := |v.delivered|;
    match v.consumer
    case CIdle(last) => last != Corrupt
    case CLoadTail(_) => true
    case CLoadHead(_, t) => t == v.tail
    case CReadLen(_, t, h, upto, got) =>
      && t == v.tail && h == Wrap(upto, |v.buffer|)
      && d < |v.frames| && v.consumed + HDR + |v.frames[d]| <= upto <= |v.stream|
      && |got| <= HDR && got == v.stream[v.consumed..v.consumed + |got|]
    case CReadBody(t, len, got) =>
      && t == v.tail && d < |v.frames| && len == |v.frames[d]|
      && v.consumed + HDR + len <= |v.stream|
      && |got| <= len && got == v.stream[v.consumed + HDR..v.consumed + HDR + |got|]
  }

  ghost predicate Inv(v: Varlen) {
    RingInv(v) && ProducerInv(v) && ConsumerInv(v) && LinkInv(v)
  }

  // ---------------------------------------------------------------- the producer keeps it

  /** Writing at the producer's position leaves every earlier byte of this lap in place. */
  lemma WriteElsewhere(buffer: seq<Byte>, at: nat, b: Byte, k: nat)
    requires |buffer| > 0 && k < at < k + |buffer|
    ensures buffer[Wrap(at, |buffer|) := b][Wrap(k, |buffer|)] == buffer[Wrap(k, |buffer|)]
  {
    SlotsDiffer(k, at, |buffer|);
  }

  lemma WriteByteRing(v: Varlen)
    requires RingInv(v) && ProducerInv(v) && v.producer.PWrite? && v.producer.done < |v.producer.bytes|
    ensures RingInv(ProducerStep(v))
  {
    var n, pc, r := |v.buffer|, v.producer, ProducerStep(v);
    WrapOffset(|v.stream|, pc.done, n);
    forall k: nat | v.consumed <= k < |v.stream| ensures r.buffer[Wrap(k, n)] == v.stream[k] {
      WriteElsewhere(v.buffer, |v.stream| + pc.done, pc.bytes[pc.done], k);
    }
  }

  lemma WriteByteProducer(v: Varlen)
    requires RingInv(v) && ProducerInv(v) && v.producer.PWrite? && v.producer.done < |v.producer.bytes|
    ensures ProducerInv(ProducerStep(v))
  {
    var at := Wrap(|v.stream| + v.producer.done, |v.buffer|);
    WriteStepIs(v, at);
    StillWriting(v, ProducerStep(v), at);
  }

  lemma WriteStepIs(v: Varlen, at: nat)
    requires RingInv(v) && ProducerInv(v) && v.producer.PWrite? && v.producer.done < |v.producer.bytes|
    requires at == Wrap(|v.stream| + v.producer.done, |v.buffer|)
    ensures var pc := v.producer;
            ProducerStep(v) == v.(buffer := v.buffer[at := pc.bytes[pc.done]],
                                  producer := PWrite(pc.payload, pc.bytes, pc.h, pc.done + 1))
  {
    WrapOffset(|v.stream|, v.producer.done, |v.buffer|);
  }

  lemma StillWriting(v: Varlen, r: Varlen, at: nat)
    requires RingInv(v) && ProducerInv(v) && v.producer.PWrite? && v.producer.done < |v.producer.bytes|
    requires at == Wrap(|v.stream| + v.producer.done, |v.buffer|)
    requires var pc := v.producer;
             r == v.(buffer := v.buffer[at := pc.bytes[pc.done]], producer := PWrite(pc.payload, pc.bytes, pc.h, pc.done + 1))
    ensures ProducerInv(r)
  {
    OneMoreByte(v.buffer, |v.stream|, v.producer.bytes, v.producer.done);
  }

  /** The bytes written so far stay, and the next one joins them. */
  lemma OneMoreByte(buffer: seq<Byte>, base: nat, bytes: seq<Byte>, done: nat)
    requires done < |bytes| < |buffer|
    requires forall j: nat {:trigger bytes[j]} | j < done :: buffer[Wrap(base + j, |buffer|)] == bytes[j]
    ensures var r := buffer[Wrap(base + done, |buffer|) := bytes[done]];
            forall j: nat {:trigger bytes[j]} | j < done + 1 :: r[Wrap(base + j, |buffer|)] == bytes[j]
  {
    var r := buffer[Wrap(base + done, |buffer|) := bytes[done]];
    forall j: nat {:trigger bytes[j]} | j < done + 1 ensures r[Wrap(base + j, |buffer|)] == bytes[j] {
      if j < done {
        WriteElsewhere(buffer, base + done, bytes[done], base + j);
      }
    }
  }

  lemma CommitRing(v: Varlen)
    requires RingInv(v) && ProducerInv(v) && v.producer.PWrite? && v.producer.done == |v.producer.bytes|
    ensures RingInv(ProducerStep(v)) && ProducerInv(ProducerStep(v))
  {
    var n, pc, r := |v.buffer|, v.producer, ProducerStep(v);
    WrapOffset(|v.stream|, |pc.bytes|, n);
    forall k: nat | r.consumed <= k < |r.stream| ensures r.buffer[Wrap(k, n)] == r.stream[k] {
      if k >= |v.stream| {
        var j := k - |v.stream|;
        assert v.buffer[Wrap(|v.stream| + j, n)] == pc.bytes[j];
      }
    }
  }

  lemma CommitLink(v: Varlen)
    requires LinkInv(v) && v.producer.PWrite? && v.producer.done == |v.producer.bytes| && |v.buffer| > 0
    ensures LinkInv(ProducerStep(v))
  {
    StreamSnoc(v.frames, v.producer.payload);
    assert (v.frames + [v.producer.payload])[..|v.delivered|] == v.frames[..|v.delivered|];
  }

  lemma CommitConsumer(v: Varlen)
    requires ConsumerPlaced(v) && v.producer.PWrite? && v.producer.done == |v.producer.bytes|
    ensures ConsumerInv(ProducerStep(v))
  {
    var r := ProducerStep(v);
    assert forall i, j | 0 <= i <= j <= |v.stream| :: r.stream[i..j] == v.stream[i..j];
  }

  ghost predicate ConsumerPlaced(v: Varlen) {
    |v.buffer| > 0 && ConsumerInv(v)
  }

  lemma WriteKeepsInv(v: Varlen)
    requires Inv(v) && v.producer.PWrite?
    ensures Inv(ProducerStep(v))
  {
    if v.producer.done < |v.producer.bytes| {
      WriteByteRing(v);
      WriteByteProducer(v);
    } else {
      CommitRing(v);
      CommitLink(v);
      CommitConsumer(v);
    }
  }

  /** A step that touches only the producer's own variables. */
  lemma MoveProducer(v: Varlen, p: Producer)
    requires Inv(v) && ProducerInv(v.(producer := p)) && (p.PWrite? ==> p.bytes == Record(p.payload))
    ensures Inv(v.(producer := p))
  {
  }

  lemma ProducerKeepsInv(v: Varlen)
    requires Inv(v)
    ensures Inv(ProducerStep(v))
  {
    match v.producer
    case PIdle(_) =>
    case PLoadHead(p) => MoveProducer(v, PLoadTail(p, v.head));
    case PLoadTail(p, h) =>
      MaskedRoom(|v.stream|, v.consumed, |v.buffer|);
      MoveProducer(v, ProducerStep(v).producer);
    case PWrite(_, _, _, _) => WriteKeepsInv(v);
  }

  // ---------------------------------------------------------------- the consumer keeps it

  /** The consumer stands at the start of a whole record, if any record is left. */
  lemma NextRecord(v: Varlen)
    requires LinkInv(v)
    ensures |v.delivered| < |v.frames| ==> RecordAt(v.stream, v.consumed, v.frames[|v.delivered|])
    ensures |v.delivered| == |v.frames| ==> v.consumed == |v.stream|
  {
    var d := |v.delivered|;
    assert v.frames[..|v.frames|] == v.frames;
    if d < |v.frames| {
      RecordInStream(v.frames, d, |v.frames|);
    }
  }

  lemma ByteAtTail(v: Varlen, j: nat)
    requires RingInv(v) && v.consumed + j < |v.stream|
    ensures v.buffer[Wrap(v.tail + j, |v.buffer|)] == v.stream[v.consumed + j]
  {
    WrapOffset(v.consumed, j, |v.buffer|);
  }

  lemma LenByte(v: Varlen)
    requires RingInv(v) && ConsumerInv(v) && v.consumer.CReadLen? && |v.consumer.got| < HDR
    ensures ConsumerInv(ConsumerStep(v))
  {
    var pc := v.consumer;
    ByteAtTail(v, |pc.got|);
    SliceGrows(v.stream, v.consumed, pc.got);
    assert ConsumerStep(v) == LenStep(v, pc.maxLen, pc.t, pc.h, pc.upto, pc.got);
    StillReading(v, ConsumerStep(v), pc.got + [v.stream[v.consumed + |pc.got|]]);
  }

  lemma StillReading(v: Varlen, r: Varlen, got: seq<Byte>)
    requires |v.buffer| > 0 && ConsumerInv(v) && v.consumer.CReadLen? && |got| <= HDR
    requires r == v.(consumer := CReadLen(v.consumer.maxLen, v.consumer.t, v.consumer.h, v.consumer.upto, got))
    requires v.consumed + |got| <= |v.stream| && got == v.stream[v.consumed..v.consumed + |got|]
    ensures ConsumerInv(r)
  {
  }

  lemma SliceGrows(stream: seq<Byte>, at: nat, got: seq<Byte>)
    requires at + |got| < |stream| && got == stream[at..at + |got|]
    ensures got + [stream[at + |got|]] == stream[at..at + |got| + 1]
  {
  }

  lemma LengthRead(stream: seq<Byte>, at: nat, p: Payload)
    requires RecordAt(stream, at, p)
    ensures DecodeLen(stream[at..at + HDR]) == |p|
  {
    assert stream[at..at + HDR] == stream[at..at + HDR + |p|][..HDR] == EncodeLen(|p|);
    LenRoundTrip(|p|);
  }

  /** With the whole length read, the record is found intact and available. */
  lemma LenDone(v: Varlen)
    requires RingInv(v) && ConsumerInv(v) && v.consumer.CReadLen? && |v.consumer.got| == HDR
    requires DecodeLen(v.consumer.got) == |v.frames[|v.delivered|]|
    ensures ConsumerInv(ConsumerStep(v))
    ensures ConsumerStep(v).consumer == CIdle(TooSmall) <==> |v.frames[|v.delivered|]| > v.consumer.maxLen
  {
    MaskedDistance(v.consumer.upto, v.consumed, |v.buffer|);
  }

  lemma BodyByte(v: Varlen)
    requires RingInv(v) && ConsumerInv(v) && v.consumer.CReadBody? && |v.consumer.got| < v.consumer.len
    ensures ConsumerInv(ConsumerStep(v))
  {
    ByteAtTail(v, HDR + |v.consumer.got|);
  }

  lemma DeliverRing(v: Varlen)
    requires RingInv(v) && ProducerInv(v) && ConsumerInv(v)
    requires v.consumer.CReadBody? && |v.consumer.got| == v.consumer.len
    ensures RingInv(ConsumerStep(v)) && ProducerInv(ConsumerStep(v)) && ConsumerInv(ConsumerStep(v))
  {
    WrapOffset(v.consumed, HDR + v.consumer.len, |v.buffer|);
  }

  lemma DeliverLink(v: Varlen)
    requires LinkInv(v) && ConsumerPlaced(v) && v.consumer.CReadBody? && |v.consumer.got| == v.consumer.len
    ensures LinkInv(ConsumerStep(v))
  {
    var d, len := |v.delivered|, v.consumer.len;
    NextRecord(v);
    var at := v.consumed + HDR;
    assert v.consumer.got == v.frames[d] by {
      assert v.stream[at..at + len] == v.stream[v.consumed..at + len][HDR..];
      assert Record(v.frames[d])[HDR..] == v.frames[d];
    }
    RecordInStream(v.frames, d, |v.frames|);
  }

  /** The load of the head finds nothing exactly when every committed record was delivered. */
  lemma LoadHead(v: Varlen)
    requires RingInv(v) && ConsumerInv(v) && v.consumer.CLoadHead?
    requires |v.delivered| < |v.frames| ==> RecordAt(v.stream, v.consumed, v.frames[|v.delivered|])
    requires |v.delivered| <= |v.frames| && (|v.delivered| == |v.frames| ==> v.consumed == |v.stream|)
    ensures ConsumerInv(ConsumerStep(v))
    ensures ConsumerStep(v).consumer == CIdle(NothingThere) <==> |v.delivered| == |v.frames|
  {
    MaskedDistance(|v.stream|, v.consumed, |v.buffer|);
  }

  /** A step that touches only the consumer's own variables. */
  lemma MoveConsumer(v: Varlen, c: Consumer)
    requires Inv(v) && ConsumerInv(v.(consumer := c))
    ensures Inv(v.(consumer := c))
  {
  }

  lemma LenKeeps(v: Varlen)
    requires Inv(v) && v.consumer.CReadLen?
    ensures ConsumerInv(ConsumerStep(v))
  {
    if |v.consumer.got| < HDR {
      LenByte(v);
    } else {
      NextRecord(v);
      LengthRead(v.stream, v.consumed, v.frames[|v.delivered|]);
      LenDone(v);
    }
  }

  lemma ConsumerKeepsInv(v: Varlen)
    requires Inv(v)
    ensures Inv(ConsumerStep(v))
  {
    match v.consumer
    case CIdle(_) =>
    case CLoadTail(maxLen) => MoveConsumer(v, CLoadHead(maxLen, v.tail));
    case CLoadHead(_, _) =>
      NextRecord(v);
      LoadHead(v);
      MoveConsumer(v, ConsumerStep(v).consumer);
    case CReadLen(_, _, _, _, _) =>
      LenKeeps(v);
      MoveConsumer(v, ConsumerStep(v).consumer);
    case CReadBody(_, len, got) =>
      if |got| < len {
        BodyByte(v);
        MoveConsumer(v, ConsumerStep(v).consumer);
      } else {
        DeliverRing(v);
        DeliverLink(v);
      }
  }

  lemma StepKeepsInv(v: Varlen, m: Move)
    requires Inv(v)
    ensures Inv(Step(v, m))
  {
    match m
    case ProducerGo => ProducerKeepsInv(v);
    case ConsumerGo => ConsumerKeepsInv(v);
    case Write(_) =>
      if Step(v, m) != v { MoveProducer(v, Step(v, m).producer); }
    case Read(_) =>
      if Step(v, m) != v { MoveConsumer(v, Step(v, m).consumer); }
  }

  lemma {:induction false} RunKeepsInv(v: Varlen, moves: seq<Move>)
    requires Inv(v)
    ensures Inv(Run(v, moves))
    decreases |moves|
  {
    if moves != [] {
      StepKeepsInv(v, moves[0]);
      RunKeepsInv(Step(v, moves[0]), moves[1..]);
    }
  }

  // ---------------------------------------------------------------- what the callers asked for

  /** The argument of the producer's call, read off the moves: a write of an idle producer starts a new one. */
  function Argument(v: Varlen, m: Move, arg: seq<Byte>): seq<Byte> {
    if v.producer.PIdle? && m.Write? then m.payload else arg
  }

  /** This move makes the producer's call return true. */
  predicate ReturnsWritten(v: Varlen, m: Move)
    requires |v.buffer| > 0
  {
    var pc := Step(v, m).producer;
    !v.producer.PIdle? && pc.PIdle? && !pc.refused
  }

  /** The arguments of the writes that return true along a list of moves, in order. */
  function Asked(v: Varlen, moves: seq<Move>, arg: seq<Byte>): seq<seq<Byte>>
    requires |v.buffer| > 0
    decreases |moves|
  {
    if moves == [] then []
    else
      (if ReturnsWritten(v, moves[0]) then [arg] else [])
      + Asked(Step(v, moves[0]), moves[1..], Argument(v, moves[0], arg))
  }

  /** What a read returns at this move, if it returns a record. */
  function Received(v: Varlen, m: Move): seq<seq<Byte>>
    requires |v.buffer| > 0
  {
    var c := Step(v, m).consumer;
    if !v.consumer.CIdle? && c.CIdle? && c.last.Got? then [c.last.payload] else []
  }

  /** The payloads the reads return along a list of moves, in order. */
  function Answers(v: Varlen, moves: seq<Move>): seq<seq<Byte>>
    requires |v.buffer| > 0
    decreases |moves|
  {
    if moves == [] then [] else Received(v, moves[0]) + Answers(Step(v, moves[0]), moves[1..])
  }

  /** A producer inside a write still carries the argument of its call. */
  ghost predicate Carries(pc: Producer, arg: seq<Byte>) {
    !pc.PIdle? ==> pc.payload == arg
  }

  lemma StepWrites(v: Varlen, m: Move, arg: seq<Byte>)
    requires |v.buffer| > 0 && Carries(v.producer, arg)
    ensures Carries(Step(v, m).producer, Argument(v, m, arg))
    ensures Step(v, m).frames == v.frames + if ReturnsWritten(v, m) then [arg] else []
  {
  }

  lemma StepReads(v: Varlen, m: Move)
    requires |v.buffer| > 0
    ensures Step(v, m).delivered == v.delivered + Received(v, m)
  {
  }

  /** Along every list of moves the frames written are the callers' payloads, in the order of their calls. */
  lemma {:induction false} FramesAreAsked(v: Varlen, moves: seq<Move>, arg: seq<Byte>)
    requires |v.buffer| > 0 && Carries(v.producer, arg)
    ensures Run(v, moves).frames == v.frames + Asked(v, moves, arg)
    decreases |moves|
  {
    if moves != [] {
      StepWrites(v, moves[0], arg);
      FramesAreAsked(Step(v, moves[0]), moves[1..], Argument(v, moves[0], arg));
    }
  }

  /** Along every list of moves the frames delivered are the payloads the reads return. */
  lemma {:induction false} DeliveredAreAnswers(v: Varlen, moves: seq<Move>)
    requires |v.buffer| > 0
    ensures Run(v, moves).delivered == v.delivered + Answers(v, moves)
    decreases |moves|
  {
    if moves != [] {
      StepReads(v, moves[0]);
      DeliveredAreAnswers(Step(v, moves[0]), moves[1..]);
    }
  }

  /**
   In every interleaving and at every wrap position the payloads that reads return are a prefix of the
   payloads of the writes that returned true, byte for byte, and the "partial/corrupt" exit was never taken.
   */
  lemma EveryRunDeliversAPrefix(size: nat, moves: seq<Move>)
    requires size > 0
    ensures Answers(Init(size), moves) <= Asked(Init(size), moves, [])
    ensures var v := Run(Init(size), moves);
            && v.frames == Asked(Init(size), moves, []) && v.delivered == Answers(Init(size), moves)
            && v.consumer != CIdle(Corrupt)
            && |Stream(v.frames)| - |Stream(v.frames[..|v.delivered|])| <= size - 1
  {
    RunKeepsInv(Init(size), moves);
    FramesAreAsked(Init(size), moves, []);
    DeliveredAreAnswers(Init(size), moves);
    var v := Run(Init(size), moves);
    assert v.frames == Asked(Init(size), moves, []) && v.delivered == Answers(Init(size), moves);
  }

  /**
   A write is refused at its call exactly when the payload is empty or can never fit, and afterwards
   exactly at its load of the tail, when the record does not fit beside the unread bytes.
   */
  lemma WriteRefusedIff(v: Varlen, m: Move, arg: seq<Byte>)
    requires Inv(v) && Carries(v.producer, arg)
    ensures v.producer.PIdle? && m.Write? && |m.payload| < LEN_LIMIT ==>
              var pc := Step(v, m).producer;
              if |m.payload| == 0 || |m.payload| + HDR > |v.buffer| - 1 then pc == PIdle(true) else !pc.PIdle?
    ensures !v.producer.PIdle? ==>
              (Step(v, m).producer == PIdle(true) <==>
               m.ProducerGo? && v.producer.PLoadTail? && |v.stream| - v.consumed + HDR + |arg| > |v.buffer| - 1)
  {
    if v.producer.PLoadTail? { WriteAnswer(v); }
  }

  // ---------------------------------------------------------------- progress

  /** The steps a producer still needs to return. */
  function ProducerNeeds(v: Varlen): int {
    match v.producer
    case PIdle(_) => 0
    case PLoadHead(p) => HDR + |p| + 3
    case PLoadTail(p, _) => HDR + |p| + 2
    case PWrite(_, bytes, _, done) => |bytes| - done + 1
  }

  /** A bound on the steps a consumer still needs to return. */
  function ConsumerNeeds(v: Varlen): int {
    match v.consumer
    case CIdle(_) => 0
    case CLoadTail(_) => HDR + |v.buffer| + 4
    case CLoadHead(_, _) => HDR + |v.buffer| + 3
    case CReadLen(_, _, _, _, got) => HDR - |got| + |v.buffer| + 2
    case CReadBody(_, len, got) => len - |got| + 1
  }

  function ProducerTurns(moves: seq<Move>): nat {
    if moves == [] then 0 else (if moves[0].ProducerGo? then 1 else 0) + ProducerTurns(moves[1..])
  }

  function ConsumerTurns(moves: seq<Move>): nat {
    if moves == [] then 0 else (if moves[0].ConsumerGo? then 1 else 0) + ConsumerTurns(moves[1..])
  }

  /** A call that is under way comes closer to its end with each step of its thread, whatever the other thread does. */
  lemma ProducerProgress(v: Varlen, m: Move)
    requires Inv(v) && !v.producer.PIdle?
    ensures ProducerNeeds(Step(v, m)) <= ProducerNeeds(v) - if m.ProducerGo? then 1 else 0
  {
  }

  lemma ConsumerProgress(v: Varlen, m: Move)
    requires RingInv(v) && ConsumerInv(v) && ConsumerInv(Step(v, m)) && !v.consumer.CIdle?
    ensures ConsumerNeeds(Step(v, m)) <= ConsumerNeeds(v) - if m.ConsumerGo? then 1 else 0
  {
  }

  /** Running the first `k + 1` moves is stepping once and running the next `k`. */
  lemma RunLater(v: Varlen, moves: seq<Move>, k: nat)
    requires |v.buffer| > 0 && k < |moves|
    ensures Run(v, moves[..k + 1]) == Run(Step(v, moves[0]), moves[1..][..k])
  {
    assert moves[..k + 1][1..] == moves[1..][..k];
  }

  /** The producer's call has returned, and has written its argument unless it was refused. */
  ghost predicate WriteAnswered(v: Varlen, r: Varlen, p: seq<Byte>) {
    r.producer.PIdle? && r.frames == v.frames + if r.producer.refused then [] else [p]
  }

  /** The consumer's call has returned: with the next record, if it fits in `maxLen` bytes, or with nothing taken. */
  ghost predicate ReadAnswered(v: Varlen, r: Varlen, maxLen: nat) {
    && r.consumer.CIdle?
    && match r.consumer.last
       case Got(p) => r.delivered == v.delivered + [p] && |p| <= maxLen
       case NothingThere => r.delivered == v.delivered
       case TooSmall => r.delivered == v.delivered && |r.delivered| < |r.frames| && |r.frames[|r.delivered|]| > maxLen
       case _ => false
  }

  /** A consumer inside a read still keeps to the limit of its call. */
  ghost predicate Keeps(pc: Consumer, maxLen: nat) {
    match pc
    case CIdle(_) => true
    case CLoadTail(limit) => limit == maxLen
    case CLoadHead(limit, _) => limit == maxLen
    case CReadLen(limit, _, _, _, _) => limit == maxLen
    case CReadBody(_, len, _) => len <= maxLen
  }

  /** What one move does for a read that is under way. */
  ghost predicate ReadGoesOn(v: Varlen, r: Varlen, maxLen: nat) {
    && Keeps(r.consumer, maxLen)
    && (if r.consumer.CIdle? then ReadAnswered(v, r, maxLen) else r.delivered == v.delivered)
  }

  lemma StepAnswersRead(v: Varlen, m: Move, maxLen: nat)
    requires Inv(v) && !v.consumer.CIdle? && Keeps(v.consumer, maxLen)
    ensures ReadGoesOn(v, Step(v, m), maxLen)
  {
    if m.ConsumerGo? && v.consumer.CReadLen? {
      if |v.consumer.got| == HDR { LengthAnswer(v); }
      LenKeeps(v);
      LenAnswersRead(v, ConsumerStep(v), maxLen);
    } else {
      OtherAnswersRead(v, m, maxLen);
    }
  }

  lemma LenAnswersRead(v: Varlen, r: Varlen, maxLen: nat)
    requires |v.buffer| > 0 && ConsumerInv(v) && v.consumer.CReadLen? && v.consumer.maxLen == maxLen
    requires r == ConsumerStep(v) && ConsumerInv(r)
    requires |v.consumer.got| == HDR ==> (r.consumer == CIdle(TooSmall) <==> |v.frames[|v.delivered|]| > maxLen)
    ensures ReadGoesOn(v, r, maxLen)
  {
    var pc := v.consumer;
    assert r == LenStep(v, maxLen, pc.t, pc.h, pc.upto, pc.got);
  }

  lemma OtherAnswersRead(v: Varlen, m: Move, maxLen: nat)
    requires |v.buffer| > 0 && !v.consumer.CIdle? && Keeps(v.consumer, maxLen) && ConsumerInv(v)
    requires !(m.ConsumerGo? && v.consumer.CReadLen?)
    ensures ReadGoesOn(v, Step(v, m), maxLen)
  {
  }

  lemma {:induction false} WriteReturns(v: Varlen, moves: seq<Move>, p: seq<Byte>)
    requires Inv(v) && !v.producer.PIdle? && Carries(v.producer, p) && ProducerTurns(moves) >= ProducerNeeds(v)
    ensures exists k: nat :: k <= |moves| && WriteAnswered(v, Run(v, moves[..k]), p)
    decreases |moves|
  {
    ProducerProgress(v, moves[0]);
    StepKeepsInv(v, moves[0]);
    StepWrites(v, moves[0], p);
    RunLater(v, moves, 0);
    var r := Step(v, moves[0]);
    if !r.producer.PIdle? {
      WriteReturns(r, moves[1..], p);
      var k: nat :| k <= |moves[1..]| && WriteAnswered(r, Run(r, moves[1..][..k]), p);
      RunLater(v, moves, k);
      assert WriteAnswered(v, Run(v, moves[..k + 1]), p);
    }
  }

  lemma {:induction false} ReadReturns(v: Varlen, moves: seq<Move>, maxLen: nat)
    requires Inv(v) && !v.consumer.CIdle? && Keeps(v.consumer, maxLen) && ConsumerTurns(moves) >= ConsumerNeeds(v)
    ensures exists k: nat :: k <= |moves| && ReadAnswered(v, Run(v, moves[..k]), maxLen)
    decreases |moves|
  {
    StepKeepsInv(v, moves[0]);
    ConsumerProgress(v, moves[0]);
    StepAnswersRead(v, moves[0], maxLen);
    RunLater(v, moves, 0);
    var r := Step(v, moves[0]);
    if !r.consumer.CIdle? {
      ReadReturns(r, moves[1..], maxLen);
      var k: nat :| k <= |moves[1..]| && ReadAnswered(r, Run(r, moves[1..][..k]), maxLen);
      RunLater(v, moves, k);
      assert ReadAnswered(v, Run(v, moves[..k + 1]), maxLen);
    }
  }

  /** Wait-freedom: whatever the consumer does, a write returns within `|p| + 7` steps of its own and has written its argument or nothing. */
  lemma WriteIsWaitFree(v: Varlen, p: seq<Byte>, moves: seq<Move>)
    requires Inv(v) && v.producer.PIdle? && |p| < LEN_LIMIT && ProducerTurns(moves) >= |p| + 7
    ensures exists k: nat :: k <= |moves| && WriteAnswered(v, Run(Step(v, Write(p)), moves[..k]), p)
  {
    StepKeepsInv(v, Write(p));
    WriteBegins(v, p);
    BegunWriteReturns(v, Step(v, Write(p)), p, moves);
  }

  lemma WriteBegins(v: Varlen, p: seq<Byte>)
    requires |v.buffer| > 0 && v.producer.PIdle? && |p| < LEN_LIMIT
    ensures var r := Step(v, Write(p));
            r.frames == v.frames && (r.producer == PIdle(true) || (|p| > 0 && r.producer == PLoadHead(p)))
  {
  }

  lemma BegunWriteReturns(v: Varlen, r: Varlen, p: seq<Byte>, moves: seq<Move>)
    requires Inv(r) && ProducerTurns(moves) >= |p| + 7
    requires r.frames == v.frames && (r.producer == PIdle(true) || (0 < |p| < LEN_LIMIT && r.producer == PLoadHead(p)))
    ensures exists k: nat :: k <= |moves| && WriteAnswered(v, Run(r, moves[..k]), p)
  {
    if r.producer.PIdle? {
      assert Run(r, moves[..0]) == r;
    } else {
      WriteReturns(r, moves, p);
      var k: nat :| k <= |moves| && WriteAnswered(r, Run(r, moves[..k]), p);
      assert WriteAnswered(v, Run(r, moves[..k]), p);
    }
  }

  /** The same for a read, within `SIZE + 8` steps: it returns the next record exactly if that fits in `maxLen` bytes. */
  lemma ReadIsWaitFree(v: Varlen, maxLen: nat, moves: seq<Move>)
    requires Inv(v) && v.consumer.CIdle? && ConsumerTurns(moves) >= |v.buffer| + 8
    ensures exists k: nat :: k <= |moves| && ReadAnswered(v, Run(Step(v, Read(maxLen)), moves[..k]), maxLen)
  {
    StepKeepsInv(v, Read(maxLen));
    ReadReturns(Step(v, Read(maxLen)), moves, maxLen);
  }

  /** What the two calls answer, in terms of the records: refusals are exact, and a read returns the next record. */
  lemma AnswersAreExact(v: Varlen)
    requires Inv(v)
    ensures v.producer.PLoadTail? ==>
              (ProducerStep(v).producer == PIdle(true) <==>
               |v.stream| - v.consumed + HDR + |v.producer.payload| > |v.buffer| - 1)
    ensures v.consumer.CLoadHead? ==>
              (ConsumerStep(v).consumer == CIdle(NothingThere) <==> |v.delivered| == |v.frames|)
    ensures v.consumer.CReadLen? && |v.consumer.got| == HDR ==>
              (ConsumerStep(v).consumer == CIdle(TooSmall) <==> |v.frames[|v.delivered|]| > v.consumer.maxLen)
  {
    NextRecord(v);
    if v.producer.PLoadTail? { WriteAnswer(v); }
    if v.consumer.CLoadHead? { LoadHead(v); }
    if v.consumer.CReadLen? && |v.consumer.got| == HDR { LengthAnswer(v); }
  }

  lemma WriteAnswer(v: Varlen)
    requires RingInv(v) && ProducerInv(v) && v.producer.PLoadTail?
    ensures ProducerStep(v).producer == PIdle(true) <==>
              |v.stream| - v.consumed + HDR + |v.producer.payload| > |v.buffer| - 1
  {
    MaskedRoom(|v.stream|, v.consumed, |v.buffer|);
  }

  lemma LengthAnswer(v: Varlen)
    requires Inv(v) && v.consumer.CReadLen? && |v.consumer.got| == HDR
    ensures ConsumerStep(v).consumer == CIdle(TooSmall) <==> |v.frames[|v.delivered|]| > v.consumer.maxLen
  {
    NextRecord(v);
    LengthRead(v.stream, v.consumed, v.frames[|v.delivered|]);
    LenDone(v);
  }

  // ---------------------------------------------------------------- the split copies

  /** `memcpy(buffer + at, src, |src|)`. */
  method CopyIn(buffer: array<Byte>, at: nat, src: seq<Byte>)
    requires at + |src| <= buffer.Length
    modifies buffer
    ensures buffer[..] == old(buffer[..])[..at] + src + old(buffer[..])[at + |src|..]
  {
    var i := 0;
    while i < |src|
      invariant i <= |src|
      invariant buffer[..] == old(buffer[..])[..at] + src[..i] + old(buffer[..])[at + i..]
    {
      CopyOne(old(buffer[..]), at, src, i);
      buffer[at + i] := src[i];
      i := i + 1;
    }
  }

  lemma CopyOne(was: seq<Byte>, at: nat, src: seq<Byte>, i: nat)
    requires at + |src| <= |was| && i < |src|
    ensures (was[..at] + src[..i] + was[at + i..])[at + i := src[i]] == was[..at] + src[..i + 1] + was[at + i + 1..]
  {
  }

  /** `write_at`: one copy, or two when the block crosses the end; byte `k` lands at the masked index `pos + k`. */
  method WriteAt(buffer: array<Byte>, pos: nat, src: seq<Byte>)
    requires pos < buffer.Length && |src| <= buffer.Length
    modifies buffer
    ensures forall k: nat | k < |src| :: buffer[Wrap(pos + k, buffer.Length)] == src[k]
    ensures forall i: nat | i < buffer.Length && !(pos <= i < pos + |src|) && !(i + buffer.Length < pos + |src|) ::
              buffer[i] == old(buffer[i])
  {
    var n := buffer.Length;
    if pos + |src| <= n {
      CopyIn(buffer, pos, src);
    } else {
      var first := n - pos;
      CopyIn(buffer, pos, src[..first]);
      ghost var mid := buffer[..];
      CopyIn(buffer, 0, src[first..]);
      assert forall i: nat | |src| - first <= i < n :: buffer[i] == mid[i];
    }
    forall k: nat | k < |src| ensures buffer[Wrap(pos + k, n)] == src[k] {
      assert Wrap(pos + k, n) == if pos + k < n then pos + k else pos + k - n;
    }
  }

  /** `read_at`: the inverse, gathering byte `k` from the masked index `pos + k`. */
  method ReadAt(buffer: array<Byte>, pos: nat, count: nat) returns (dst: seq<Byte>)
    requires pos < buffer.Length && count <= buffer.Length
    ensures |dst| == count
    ensures forall k: nat | k < count :: dst[k] == buffer[Wrap(pos + k, buffer.Length)]
  {
    var n := buffer.Length;
    if pos + count <= n {
      dst := buffer[pos..pos + count];
    } else {
      dst := buffer[pos..] + buffer[..count - (n - pos)];
    }
    forall k: nat | k < count ensures dst[k] == buffer[Wrap(pos + k, n)] {
      assert Wrap(pos + k, n) == if pos + k < n then pos + k else pos + k - n;
    }
  }
}
