/** Bytes, decimal numbers and byte sums as the FIX framing of `fix-protocol/fix_parser.hpp` uses them. */
module FixText {
  import opened Numbers

  type Text = seq<Byte>

  const NUL: Byte := 0
  const SOH: Byte := 1
  const PIPE: Byte := 124
  const EQUALS: Byte := 61
  const ZERO: Byte := 48

  /** `memchr` from a position: the first index holding `b`, or the length. */
  function Find(s: Text, b: Byte, from: nat): (i: nat)
    requires from <= |s|
    ensures from <= i <= |s| && (i < |s| ==> s[i] == b)
    decreases |s| - from
  {
    if from == |s| || s[from] == b then from else Find(s, b, from + 1)
  }

  lemma {:induction false} FindSkips(s: Text, b: Byte, from: nat)
    requires from <= |s|
    ensures forall j | from <= j < Find(s, b, from) :: s[j] != b
    decreases |s| - from
  {
    if from < |s| && s[from] != b {
      FindSkips(s, b, from + 1);
    }
  }

  lemma {:induction false} FindIs(s: Text, b: Byte, from: nat, i: nat)
    requires from <= i <= |s| && (i < |s| ==> s[i] == b) && forall j | from <= j < i :: s[j] != b
    ensures Find(s, b, from) == i
  {
    FindSkips(s, b, from);
  }

  // ---------------------------------------------------------------- numbers

  predicate Digit(b: Byte) {
    48 <= b <= 57
  }

  predicate AllDigits(s: Text) {
    forall i | 0 <= i < |s| :: Digit(s[i])
  }

  predicate Space(b: Byte) {
    b == 32 || 9 <= b <= 13
  }

  /** The number written by a run of digits. */
  function Number(s: Text): int {
    if s == [] then 0 else Number(s[..|s| - 1]) * 10 + s[|s| - 1] - 48
  }

  function DigitsEnd(s: Text, from: nat): (i: nat)
    requires from <= |s|
    ensures from <= i <= |s|
    decreases |s| - from
  {
    if from < |s| && Digit(s[from]) then DigitsEnd(s, from + 1) else from
  }

  function SpacesEnd(s: Text, from: nat): (i: nat)
    requires from <= |s|
    ensures from <= i <= |s|
    decreases |s| - from
  {
    if from < |s| && Space(s[from]) then SpacesEnd(s, from + 1) else from
  }

  /** `atoi`: spaces, an optional sign, then digits up to the first other byte. */
  function Atoi(s: Text): int {
    var i := SpacesEnd(s, 0);
    if i < |s| && s[i] == 45 then -Number(s[i + 1..DigitsEnd(s, i + 1)])
    else
      var j := if i < |s| && s[i] == 43 then i + 1 else i;
      Number(s[j..DigitsEnd(s, j)])
  }

  lemma {:induction false} DigitsToEnd(s: Text, from: nat)
    requires AllDigits(s) && from <= |s|
    ensures DigitsEnd(s, from) == |s|
    decreases |s| - from
  {
    if from < |s| {
      DigitsToEnd(s, from + 1);
    }
  }

  lemma AtoiDigits(s: Text)
    requires AllDigits(s)
    ensures Atoi(s) == Number(s)
  {
    DigitsToEnd(s, 0);
    assert s[0..|s|] == s;
  }

  lemma {:induction false} DigitsToOther(s: Text, from: nat, d: Byte)
    requires AllDigits(s) && from <= |s| && !Digit(d)
    ensures DigitsEnd(s + [d], from) == |s|
    decreases |s| - from
  {
    if from < |s| {
      assert (s + [d])[from] == s[from];
      DigitsToOther(s, from + 1, d);
    } else {
      assert (s + [d])[from] == d;
    }
  }

  /** Reading stops at the first byte that is not a digit. */
  lemma AtoiPrefix(s: Text, d: Byte)
    requires AllDigits(s) && s != [] && !Digit(d)
    ensures Atoi(s + [d]) == Number(s) == Atoi(s)
  {
    AtoiDigits(s);
    DigitsToOther(s, 0, d);
    assert (s + [d])[0] == s[0] && (s + [d])[0..|s|] == s;
  }

  /** `%d` of a non-negative number. */
  function Decimal(n: nat): (s: Text)
    ensures AllDigits(s) && s != []
  {
    if n < 10 then [48 + n] else Decimal(n / 10) + [48 + n % 10]
  }

  lemma {:induction false} NumberDecimal(n: nat)
    ensures Number(Decimal(n)) == n
  {
    if n >= 10 {
      NumberDecimal(n / 10);
      assert Decimal(n)[..|Decimal(n)| - 1] == Decimal(n / 10);
    } else {
      assert [48 + n][..0] == [];
    }
  }

  /** Printing and reading back a number. */
  lemma AtoiDecimal(n: nat)
    ensures Atoi(Decimal(n)) == n
  {
    NumberDecimal(n);
    AtoiDigits(Decimal(n));
  }

  lemma DecimalIsShort(n: nat)
    requires n < 10000
    ensures |Decimal(n)| <= 4
  {
    assert n >= 10 ==> |Decimal(n)| == |Decimal(n / 10)| + 1;
    assert n >= 100 ==> |Decimal(n / 10)| == |Decimal(n / 100)| + 1;
    assert n >= 1000 ==> |Decimal(n / 100)| == |Decimal(n / 1000)| + 1;
  }

  /** `%03u` of a byte. */
  function ThreeDigits(n: Byte): (s: Text)
    ensures |s| == 3 && AllDigits(s)
  {
    [48 + n / 100, 48 + n / 10 % 10, 48 + n % 10]
  }

  lemma AtoiThreeDigits(n: Byte)
    ensures Atoi(ThreeDigits(n)) == n
  {
    var s := ThreeDigits(n);
    AtoiDigits(s);
    assert s[..2][..1] == s[..1] && s[..1][..0] == [];
    assert Number(s[..1]) == n / 100;
    assert Number(s[..2]) == n / 100 * 10 + n / 10 % 10;
  }

  // ---------------------------------------------------------------- checksums

  function ByteSum(s: Text, k: nat): (t: nat)
    requires k <= |s|
  {
    if k == 0 then 0 else ByteSum(s, k - 1) + s[k - 1]
  }

  function Checksum(s: Text, k: nat): (c: Byte)
    requires k <= |s|
  {
    ByteSum(s, k) % 256
  }

  /** `compute_checksum`. */
  method ComputeChecksum(data: Text, len: nat) returns (c: Byte)
    requires len <= |data|
    ensures c == Checksum(data, len)
  {
    var sum: nat := 0;
    for i := 0 to len
      invariant sum == ByteSum(data, i)
    {
      sum := sum + data[i];
    }
    return sum % 256;
  }

  lemma {:induction false} ByteSumPrefix(s: Text, t: Text, k: nat)
    requires k <= |s| && k <= |t| && forall i | 0 <= i < k :: s[i] == t[i]
    ensures ByteSum(s, k) == ByteSum(t, k)
  {
    if k > 0 {
      ByteSumPrefix(s, t, k - 1);
    }
  }

  lemma {:induction false} ByteSumChange(s: Text, i: nat, b: Byte, k: nat)
    requires i < |s| && k <= |s|
    ensures ByteSum(s[i := b], k) == ByteSum(s, k) + if i < k then b - s[i] else 0
  {
    if k > 0 {
      ByteSumChange(s, i, b, k - 1);
    }
  }

  /** One changed byte always changes the checksum of what contains it. */
  lemma ChecksumDetects(s: Text, i: nat, b: Byte, k: nat)
    requires i < k <= |s| && b != s[i]
    ensures Checksum(s[i := b], k) != Checksum(s, k)
  {
    ByteSumChange(s, i, b, k);
  }
}
