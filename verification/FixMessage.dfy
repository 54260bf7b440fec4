/** FIX framing of `fix-protocol/fix_parser.hpp`: `FIXMessage::parse`, `validate`, `build_message`, `is_valid`. */
module FixMessage {
  import opened Numbers
  import opened FixText

  const MAX_TAGS: nat := 32
  const MAX_VALUE: nat := 32
  const MAX_TEXT: nat := 1023

  datatype Option<T> = None | Some(value: T)

  datatype Field = Field(tag: int, value: Text)

  /** What the cursor loop has gathered: fields, where the last `10=` and the body begin. */
  datatype Scan = Scan(fields: seq<Field>, cksumOff: int, bodyOff: int, pendingBody: bool)

  const NO_SCAN := Scan([], -1, -1, false)

  datatype Parsed = Parsed(
    fields: seq<Field>,
    cksumPresent: bool, cksumValid: bool, computedCksum: int,
    bodyPresent: bool, bodyValid: bool, computedBody: int)

  const NOTHING := Parsed([], false, false, -1, false, false, -1)

  // ---------------------------------------------------------------- parsing

  /** The C string at `raw`, read to its NUL and no further than the working copy holds. */
  function Clip(raw: Text): (t: Text)
    ensures |t| <= MAX_TEXT
  {
    var n := Find(raw, NUL, 0);
    raw[..if n <= MAX_TEXT then n else MAX_TEXT]
  }

  function Delimiter(t: Text): Byte {
    if SOH in t then SOH else PIPE
  }

  /** Values keep at most 31 bytes. */
  function Cut(v: Text): Text {
    if |v| < MAX_VALUE then v else v[..MAX_VALUE - 1]
  }

  /** The field a delimiter-free segment holds, if it has a tag. */
  function FieldOf(seg: Text): Option<Field> {
    var e := Find(seg, EQUALS, 0);
    if 0 < e < |seg| && Atoi(seg[..e]) > 0 then Some(Field(Atoi(seg[..e]), Cut(seg[e + 1..]))) else None
  }

  /** One turn of the loop, on a segment that starts at `off` and holds this field or none. */
  function Absorb(st: Scan, off: nat, f: Option<Field>): Scan {
    var st := if st.pendingBody then st.(bodyOff := off, pendingBody := false) else st;
    if f.None? then st
    else
      Scan(st.fields + [f.value], if f.value.tag == 10 then off else st.cksumOff, st.bodyOff, f.value.tag == 9)
  }

  /** The segments of a text from `pos` on: what lies between delimiters, the last one possibly unterminated. */
  function Segments(t: Text, d: Byte, pos: nat): seq<Text>
    requires pos <= |t|
    decreases |t| - pos
  {
    if pos == |t| then []
    else [t[pos..Find(t, d, pos)]] + Segments(t, d, NextStart(t, d, pos))
  }

  /** Where the segment after the one at `pos` starts. */
  function NextStart(t: Text, d: Byte, pos: nat): (next: nat)
    requires pos < |t|
    ensures pos < next <= |t|
  {
    var e := Find(t, d, pos);
    if e < |t| then e + 1 else e
  }

  /** All the cursor loop keeps of a segment: its length and its field. */
  datatype Item = Item(len: nat, field: Option<Field>)

  function ItemOf(seg: Text): Item {
    Item(|seg|, FieldOf(seg))
  }

  function ItemsOf(segs: seq<Text>): (items: seq<Item>)
    ensures |items| == |segs|
  {
    if segs == [] then [] else [ItemOf(segs[0])] + ItemsOf(segs[1..])
  }

  /** The loop, segment by segment, until the text or the room for fields ends. */
  function ScanItems(st: Scan, off: nat, items: seq<Item>): Scan
    decreases |items|
  {
    if items == [] || |st.fields| >= MAX_TAGS then st
    else ScanItems(Absorb(st, off, items[0].field), off + items[0].len + 1, items[1..])
  }

  function ScanOf(t: Text, d: Byte): Scan {
    ScanItems(NO_SCAN, 0, ItemsOf(Segments(t, d, 0)))
  }

  function FindField(fs: seq<Field>, tag: int): Option<Field> {
    if fs == [] then None else if fs[0].tag == tag then Some(fs[0]) else FindField(fs[1..], tag)
  }

  function Validate(t: Text, st: Scan): Parsed {
    var f10, f9 := FindField(st.fields, 10), FindField(st.fields, 9);
    var cksum := f10.Some? && 0 <= st.cksumOff <= |t|;
    var computed := if cksum then Checksum(t, st.cksumOff) else -1;
    var body := f9.Some? && st.bodyOff >= 0 && st.cksumOff >= st.bodyOff;
    var length := if body then st.cksumOff - st.bodyOff else -1;
    Parsed(st.fields,
           cksum, cksum && Atoi(f10.value.value) == computed, computed,
           body, body && Atoi(f9.value.value) == length, length)
  }

  function Parse(raw: Text): Parsed {
    var t := Clip(raw);
    if t == [] then NOTHING else Validate(t, ScanOf(t, Delimiter(t)))
  }

  predicate Has(fs: seq<Field>, tag: int) {
    FindField(fs, tag).Some?
  }

  predicate IsValid(p: Parsed) {
    Has(p.fields, 8) && Has(p.fields, 9) && Has(p.fields, 35) && Has(p.fields, 10) && p.cksumValid && p.bodyValid
  }

  // ---------------------------------------------------------------- the object

  class FIXMessage {
    var fields: seq<Field>
    var cksumPresent: bool
    var cksumValid: bool
    var computedCksum: int
    var bodyPresent: bool
    var bodyValid: bool
    var computedBody: int

    ghost function View(): Parsed
      reads this
    {
      Parsed(fields, cksumPresent, cksumValid, computedCksum, bodyPresent, bodyValid, computedBody)
    }

    constructor ()
      ensures View() == NOTHING
    {
      fields, cksumPresent, cksumValid, computedCksum := [], false, false, -1;
      bodyPresent, bodyValid, computedBody := false, false, -1;
    }

    method ParseMessage(raw: Text)
      modifies this
      ensures View() == Parse(raw)
    {
      fields, cksumPresent, cksumValid, computedCksum := [], false, false, -1;
      bodyPresent, bodyValid, computedBody := false, false, -1;
      var t := Clip(raw);
      if t == [] { return; }
      var scan := ScanText(t, Delimiter(t));
      fields := scan.fields;
      var f10, f9 := FindField(fields, 10), FindField(fields, 9);
      if f10.Some? && 0 <= scan.cksumOff <= |t| {
        cksumPresent := true;
        computedCksum := ComputeChecksum(t, scan.cksumOff);
        cksumValid := Atoi(f10.value.value) == computedCksum;
      }
      if f9.Some? && scan.bodyOff >= 0 && scan.cksumOff >= scan.bodyOff {
        bodyPresent := true;
        computedBody := scan.cksumOff - scan.bodyOff;
        bodyValid := Atoi(f9.value.value) == computedBody;
      }
    }
  }

  /** The cursor loop of `parse`. */
  method ScanText(t: Text, d: Byte) returns (scan: Scan)
    ensures scan == ScanOf(t, d)
  {
    scan := NO_SCAN;
    ghost var goal := ScanOf(t, d);
    var pos := 0;
    while pos < |t| && |scan.fields| < MAX_TAGS
      invariant pos <= |t| && ScanItems(scan, pos, ItemsOf(Segments(t, d, pos))) == goal
      decreases |t| - pos
    {
      var end := Find(t, d, pos);
      var next := if end < |t| then end + 1 else end;
      SegmentsCons(t, d, pos);
      TakeSegment(scan, pos, Segments(t, d, pos), t[pos..end], Segments(t, d, next), next);
      scan := ScanSegment(scan, pos, t[pos..end]);
      pos := next;
    }
  }

  lemma ItemsCons(seg: Text, segs: seq<Text>)
    ensures ItemsOf([seg] + segs) == [ItemOf(seg)] + ItemsOf(segs)
  {
    assert ([seg] + segs)[1..] == segs;
  }

  lemma ScanCons(st: Scan, off: nat, it: Item, items: seq<Item>)
    requires |st.fields| < MAX_TAGS
    ensures ScanItems(st, off, [it] + items) == ScanItems(Absorb(st, off, it.field), off + it.len + 1, items)
  {
    assert ([it] + items)[1..] == items;
  }

  lemma ScanNone(st: Scan, off: nat, items: seq<Item>)
    requires items == []
    ensures ScanItems(st, off, items) == st
  {
  }

  /** After the last segment the offset no longer matters. */
  lemma ScanOn(st: Scan, off: nat, it: Item, items: seq<Item>, next: nat)
    requires |st.fields| < MAX_TAGS && (items == [] || next == off + it.len + 1)
    ensures ScanItems(st, off, [it] + items) == ScanItems(Absorb(st, off, it.field), next, items)
  {
    ScanCons(st, off, it, items);
    if items == [] {
      ScanNone(Absorb(st, off, it.field), next, items);
      ScanNone(Absorb(st, off, it.field), off + it.len + 1, items);
    }
  }

  lemma SegmentsCons(t: Text, d: Byte, pos: nat)
    requires pos < |t|
    ensures Segments(t, d, pos) == [t[pos..Find(t, d, pos)]] + Segments(t, d, NextStart(t, d, pos))
    ensures Find(t, d, pos) == |t| ==> Segments(t, d, NextStart(t, d, pos)) == []
  {
  }

  /** One turn of the loop takes one segment. */
  lemma TakeSegment(st: Scan, off: nat, segs: seq<Text>, seg: Text, rest: seq<Text>, next: nat)
    requires segs == [seg] + rest && |st.fields| < MAX_TAGS && (rest == [] || next == off + |seg| + 1)
    ensures ScanItems(st, off, ItemsOf(segs)) == ScanItems(Absorb(st, off, FieldOf(seg)), next, ItemsOf(rest))
  {
    ItemsCons(seg, rest);
    ScanOn(st, off, ItemOf(seg), ItemsOf(rest), next);
  }

  /** The body of that loop, on one segment. */
  method ScanSegment(scan: Scan, pos: nat, seg: Text) returns (r: Scan)
    ensures r == Absorb(scan, pos, FieldOf(seg))
  {
    r := scan;
    if r.pendingBody { r := r.(bodyOff := pos, pendingBody := false); }
    var eq := Find(seg, EQUALS, 0);
    if 0 < eq < |seg| {
      var tag := Atoi(seg[..eq]);
      if tag > 0 {
        r := r.(fields := r.fields + [Field(tag, Cut(seg[eq + 1..]))]);
        if tag == 9 { r := r.(pendingBody := true); }
        if tag == 10 { r := r.(cksumOff := pos); }
      }
    }
  }

  // ---------------------------------------------------------------- building

  function Eight(begin: Text): Text {
    [56, EQUALS] + begin
  }

  function Nine(len: nat): Text {
    [57, EQUALS] + Decimal(len)
  }

  function Ten(sum: Byte): Text {
    [49, 48, EQUALS] + ThreeDigits(sum)
  }

  function Head(begin: Text, d: Byte, len: nat): Text {
    Eight(begin) + [d] + Nine(len) + [d]
  }

  function Trailer(t: Text, d: Byte): Text {
    Ten(Checksum(t, |t|)) + [d]
  }

  /** The size of the scratch area for the header, terminator included. */
  const HEAD_AREA: nat := 64

  /**
   What a build ends in: a refused buffer, a header that outgrows its scratch area (the copy then
   reads past it and the result is unspecified), or the message.
   */
  datatype Outcome = TooSmall | Overrun | Built(text: Text)

  /** `build_message`. */
  function Build(cap: int, body: Text, begin: Text, d: Byte): Outcome {
    var head := Head(begin, d, |body|);
    if |head| + |body| + 16 > cap then TooSmall
    else if |head| >= HEAD_AREA then Overrun
    else Built(head + body + Trailer(head + body, d))
  }

  method BuildMessage(cap: int, body: Text, begin: Text, d: Byte) returns (m: Outcome)
    ensures m == Build(cap, body, begin, d)
  {
    var head := Head(begin, d, |body|);
    if |head| + |body| + 16 > cap { return TooSmall; }
    if |head| >= HEAD_AREA { return Overrun; }
    var out := head + body;
    var ck := ComputeChecksum(out, |out|);
    return Built(out + (Ten(ck) + [d]));
  }
}
