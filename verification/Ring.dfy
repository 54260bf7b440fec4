/** Positions on a ring: the masked index `pos & (SIZE - 1)` of the queues, for any ring size. */
module Ring {

  /** The slot of position `pos`, one lap at a time; `WrapIsModulo` shows that it is the remainder. */
  function Wrap(pos: nat, n: nat): (c: nat)
    requires n > 0
    ensures c < n
  {
    if pos < n then pos else Wrap(pos - n, n)
  }

  lemma {:induction false} WrapIsModulo(pos: nat, n: nat)
    requires n > 0
    ensures Wrap(pos, n) == pos % n
  {
    if pos >= n {
      WrapIsModulo(pos - n, n);
      assert pos == (pos - n) / n * n + (pos - n) % n + n;
      assert pos == ((pos - n) / n + 1) * n + (pos - n) % n;
      RemainderUnique(pos, n, (pos - n) / n + 1, (pos - n) % n);
    } else {
      RemainderUnique(pos, n, 0, pos);
    }
  }

  lemma RemainderUnique(a: nat, n: nat, d: nat, r: nat)
    requires n > 0 && a == d * n + r && r < n
    ensures a % n == r
  {
    var k := a / n - d;
    assert a % n == r - k * n by {
      assert a == a / n * n + a % n;
      assert (d + k) * n == d * n + k * n;
    }
    assert k >= 1 ==> k * n >= n;
    assert k <= -1 ==> k * n + n <= 0;
  }

  lemma {:induction false} SameSlot(a: nat, b: nat, n: nat)
    requires n > 0 && Wrap(a, n) == Wrap(b, n) && b < a + n && a < b + n
    ensures a == b
  {
    if a >= n && b >= n {
      SameSlot(a - n, b - n, n);
    }
  }

  /** Wrapping an already wrapped base plus an offset. */
  lemma {:induction false} WrapOffset(base: nat, k: nat, n: nat)
    requires n > 0
    ensures Wrap(Wrap(base, n) + k, n) == Wrap(base + k, n)
  {
    if base >= n {
      WrapOffset(base - n, k, n);
    }
  }

  /** `x & (SIZE - 1)` for a difference that may have wrapped below zero. */
  function Mask(x: int, n: nat): (c: nat)
    requires n > 0
    ensures c < n
    decreases if x < 0 then -x else 0
  {
    if x < 0 then Mask(x + n, n) else Wrap(x, n)
  }

  /** The masked distance between two wrapped positions less than a lap apart is their true distance. */
  lemma {:induction false} MaskedDistance(a: nat, b: nat, n: nat)
    requires n > 0 && b <= a < b + n
    ensures Mask(Wrap(a, n) - Wrap(b, n), n) == a - b
  {
    if b >= n {
      MaskedDistance(a - n, b - n, n);
    }
  }

  /** The masked free space `(t - h - 1) & MASK` is the room left with one slot kept unused. */
  lemma {:induction false} MaskedRoom(head: nat, tail: nat, n: nat)
    requires n > 0 && tail <= head < tail + n
    ensures Mask(Wrap(tail, n) - Wrap(head, n) - 1, n) == n - 1 - (head - tail)
  {
    if tail >= n {
      MaskedRoom(head - n, tail - n, n);
    }
  }

  /** Slots less than a lap apart are different. */
  lemma SlotsDiffer(a: nat, b: nat, n: nat)
    requires n > 0 && a < b < a + n
    ensures Wrap(a, n) != Wrap(b, n)
  {
    if Wrap(a, n) == Wrap(b, n) {
      SameSlot(a, b, n);
      assert false;
    }
  }
}
