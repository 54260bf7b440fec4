/** Building and parsing FIX messages are inverse, and the checksum catches a changed value byte. */
module FixRoundTrip {
  import opened Numbers
  import opened FixText
  import opened FixMessage

  // ---------------------------------------------------------------- segments

  /** The segments of a text, each ended by the delimiter. */
  function Join(segs: seq<Text>, d: Byte): Text {
    if segs == [] then [] else segs[0] + [d] + Join(segs[1..], d)
  }

  predicate Free(segs: seq<Text>, d: Byte) {
    forall i | 0 <= i < |segs| :: d !in segs[i]
  }

  predicate Terminated(t: Text, d: Byte) {
    t == [] || t[|t| - 1] == d
  }

  lemma JoinCons(seg: Text, rest: seq<Text>, d: Byte)
    ensures Join([seg] + rest, d) == seg + [d] + Join(rest, d)
  {
    assert ([seg] + rest)[1..] == rest;
  }

  lemma FreeCons(seg: Text, rest: seq<Text>, d: Byte)
    requires d !in seg && Free(rest, d)
    ensures Free([seg] + rest, d)
  {
  }

  /** The first segment of a non-empty terminated text, and what follows it. */
  lemma FirstSegment(t: Text, d: Byte) returns (seg: Text, rest: Text)
    requires Terminated(t, d) && t != []
    ensures t == seg + [d] + rest && d !in seg && Terminated(rest, d)
  {
    var e := Find(t, d, 0);
    FindSkips(t, d, 0);
    seg, rest := t[..e], t[e + 1..];
  }

  lemma {:induction false} Splits(t: Text, d: Byte) returns (segs: seq<Text>)
    requires Terminated(t, d)
    ensures Join(segs, d) == t && Free(segs, d)
    decreases |t|
  {
    if t == [] {
      segs := [];
    } else {
      var seg, rest := FirstSegment(t, d);
      var tail := Splits(rest, d);
      segs := [seg] + tail;
      JoinCons(seg, tail, d);
      FreeCons(seg, tail, d);
    }
  }

  /** The segment at `pos`, when the text from there on is `seg`, a delimiter and the rest. */
  lemma NextSegment(t: Text, pos: nat, seg: Text, rest: Text, d: Byte)
    requires pos <= |t| && t[pos..] == seg + [d] + rest && d !in seg
    ensures pos + |seg| < |t| && Find(t, d, pos) == pos + |seg| && NextStart(t, d, pos) == pos + |seg| + 1
    ensures t[pos..pos + |seg|] == seg && t[pos + |seg| + 1..] == rest
  {
    var s := t[pos..];
    assert s[|seg|] == d && s[..|seg|] == seg && s[|seg| + 1..] == rest;
    assert forall j | pos <= j < pos + |seg| :: t[j] == s[j - pos] == seg[j - pos];
    FindIs(t, d, pos, pos + |seg|);
  }

  /** Reading the segments of joined segments gives them back. */
  lemma {:induction false} SegmentsJoin(t: Text, d: Byte, pos: nat, segs: seq<Text>)
    requires pos <= |t| && t[pos..] == Join(segs, d) && Free(segs, d)
    ensures Segments(t, d, pos) == segs
    decreases |segs|
  {
    if segs == [] {
      SegmentsEnd(t, d, pos);
    } else {
      JoinStep(t, d, pos, segs);
      SegmentsJoin(t, d, NextStart(t, d, pos), segs[1..]);
      SegmentsAre(t, d, pos, segs);
    }
  }

  lemma SegmentsEnd(t: Text, d: Byte, pos: nat)
    requires pos <= |t| && |t[pos..]| == 0
    ensures Segments(t, d, pos) == []
  {
  }

  lemma JoinStep(t: Text, d: Byte, pos: nat, segs: seq<Text>)
    requires pos <= |t| && t[pos..] == Join(segs, d) && Free(segs, d) && segs != []
    ensures pos < |t| && t[pos..Find(t, d, pos)] == segs[0]
    ensures t[NextStart(t, d, pos)..] == Join(segs[1..], d) && Free(segs[1..], d)
  {
    NextSegment(t, pos, segs[0], Join(segs[1..], d), d);
  }

  lemma SegmentsAre(t: Text, d: Byte, pos: nat, segs: seq<Text>)
    requires segs != [] && pos < |t| && t[pos..Find(t, d, pos)] == segs[0] && Segments(t, d, NextStart(t, d, pos)) == segs[1..]
    ensures Segments(t, d, pos) == segs
  {
    SegmentsCons(t, d, pos);
    assert segs == [segs[0]] + segs[1..];
  }

  /** Every delimiter-terminated text is its segments. */
  lemma JoinSegments(t: Text, d: Byte)
    requires Terminated(t, d)
    ensures Join(Segments(t, d, 0), d) == t && Free(Segments(t, d, 0), d)
  {
    var segs := Splits(t, d);
    assert t[0..] == t;
    SegmentsJoin(t, d, 0, segs);
  }

  lemma JoinOne(seg: Text, d: Byte)
    ensures Join([seg], d) == seg + [d]
  {
    var none: seq<Text> := [];
    assert [seg] == [seg] + none;
    JoinCons(seg, none, d);
  }

  lemma {:induction false} JoinAppend(a: seq<Text>, b: seq<Text>, d: Byte)
    ensures Join(a + b, d) == Join(a, d) + Join(b, d)
  {
    if a == [] {
      assert a + b == b;
    } else {
      var x, rest := a[0], a[1..];
      JoinAppend(rest, b, d);
      assert a == [x] + rest && a + b == [x] + (rest + b);
      JoinCons(x, rest, d);
      JoinCons(x, rest + b, d);
      Regroup(x + [d], Join(rest, d), Join(b, d));
    }
  }

  lemma Regroup(x: Text, y: Text, z: Text)
    ensures x + (y + z) == x + y + z
  {
  }

  // ---------------------------------------------------------------- parsing by segments

  lemma {:induction false} ItemsAt(segs: seq<Text>, i: nat)
    requires i < |segs|
    ensures ItemsOf(segs)[i] == ItemOf(segs[i])
  {
    if i > 0 {
      ItemsAt(segs[1..], i - 1);
    }
  }

  lemma ItemsAppend(a: seq<Text>, b: seq<Text>)
    ensures ItemsOf(a + b) == ItemsOf(a) + ItemsOf(b)
  {
    forall i: nat | i < |a| + |b| ensures ItemsOf(a + b)[i] == (ItemsOf(a) + ItemsOf(b))[i] {
      ItemsAt(a + b, i);
      if i < |a| {
        ItemsAt(a, i);
      } else {
        ItemsAt(b, i - |a|);
      }
    }
  }

  /** The text length of items, delimiters included. */
  function Width(items: seq<Item>): nat {
    if items == [] then 0 else items[0].len + 1 + Width(items[1..])
  }

  lemma {:induction false} JoinWidth(segs: seq<Text>, d: Byte)
    ensures |Join(segs, d)| == Width(ItemsOf(segs))
  {
    if segs != [] {
      JoinWidth(segs[1..], d);
      assert ItemsOf(segs)[1..] == ItemsOf(segs[1..]);
    }
  }

  lemma {:induction false} ScanAppend(st: Scan, off: nat, a: seq<Item>, b: seq<Item>)
    ensures ScanItems(st, off, a + b) == ScanItems(ScanItems(st, off, a), off + Width(a), b)
    decreases |a|
  {
    if a == [] {
      assert a + b == b;
    } else if |st.fields| < MAX_TAGS {
      assert (a + b)[1..] == a[1..] + b;
      ScanAppend(Absorb(st, off, a[0].field), off + a[0].len + 1, a[1..], b);
    }
  }

  lemma ScanOne(st: Scan, off: nat, it: Item)
    requires |st.fields| < MAX_TAGS
    ensures ScanItems(st, off, [it]) == Absorb(st, off, it.field)
  {
    assert |[it][1..]| == 0;
  }

  function Few(f: Option<Field>): seq<Field> {
    if f.Some? then [f.value] else []
  }

  /** The fields among items, in order. */
  function Fields(items: seq<Item>): seq<Field> {
    if items == [] then [] else Few(items[0].field) + Fields(items[1..])
  }

  /** The fields of a body, in order. */
  function FieldsOf(body: Text, d: Byte): seq<Field> {
    Fields(ItemsOf(Segments(body, d, 0)))
  }

  predicate NoFraming(fs: seq<Field>) {
    forall i | 0 <= i < |fs| :: fs[i].tag != 9 && fs[i].tag != 10
  }

  lemma NoFramingParts(a: seq<Field>, b: seq<Field>)
    requires NoFraming(a + b)
    ensures NoFraming(a) && NoFraming(b)
  {
    assert forall i | 0 <= i < |a| :: a[i] == (a + b)[i];
    assert forall i | 0 <= i < |b| :: b[i] == (a + b)[|a| + i];
  }

  lemma AbsorbPlain(st: Scan, off: nat, f: Option<Field>)
    requires !st.pendingBody && NoFraming(Few(f))
    ensures Absorb(st, off, f) == st.(fields := st.fields + Few(f))
  {
    var fs := Few(f);
    assert fs != [] ==> fs[0].tag != 9 && fs[0].tag != 10;
    assert fs == [] ==> st.fields + fs == st.fields;
  }

  /** Items without tags 9 and 10 only add their fields. */
  lemma {:induction false} BodyScan(st: Scan, off: nat, items: seq<Item>)
    requires !st.pendingBody && |st.fields| + |Fields(items)| < MAX_TAGS && NoFraming(Fields(items))
    ensures ScanItems(st, off, items) == st.(fields := st.fields + Fields(items))
    decreases |items|
  {
    if items == [] {
      assert st.fields + Fields(items) == st.fields;
    } else {
      var here, rest := Few(items[0].field), Fields(items[1..]);
      NoFramingParts(here, rest);
      AbsorbPlain(st, off, items[0].field);
      BodyScan(Absorb(st, off, items[0].field), off + items[0].len + 1, items[1..]);
      assert st.fields + (here + rest) == st.fields + here + rest;
    }
  }

  /** The segment after tag 9 is where the body starts, whatever it holds. */
  lemma PendingScan(st: Scan, off: nat, items: seq<Item>)
    requires st.pendingBody && items != [] && |st.fields| < MAX_TAGS
    ensures ScanItems(st, off, items) == ScanItems(st.(bodyOff := off, pendingBody := false), off, items)
  {
  }

  // ---------------------------------------------------------------- the framing fields

  lemma EightIs(begin: Text)
    ensures ItemOf(Eight(begin)) == Item(|begin| + 2, Some(Field(8, Cut(begin))))
  {
    var s := Eight(begin);
    FindIs(s, EQUALS, 0, 1);
    assert s[..1] == [56] == Decimal(8) && s[2..] == begin;
    AtoiDecimal(8);
  }

  lemma NineIs(len: nat)
    requires len < 10000
    ensures ItemOf(Nine(len)) == Item(|Decimal(len)| + 2, Some(Field(9, Decimal(len))))
  {
    var s := Nine(len);
    FindIs(s, EQUALS, 0, 1);
    assert s[..1] == [57] == Decimal(9) && s[2..] == Decimal(len);
    AtoiDecimal(9);
    DecimalIsShort(len);
  }

  lemma TenIs(sum: Byte)
    ensures ItemOf(Ten(sum)) == Item(6, Some(Field(10, ThreeDigits(sum))))
  {
    var s := Ten(sum);
    FindIs(s, EQUALS, 0, 2);
    assert Decimal(1) == [49];
    assert s[..2] == [49, 48] == Decimal(10) && s[3..] == ThreeDigits(sum);
    AtoiDecimal(10);
  }

  /** The segments of a built message before its trailer. */
  function Front(begin: Text, body: Text, d: Byte): seq<Text> {
    [Eight(begin)] + ([Nine(|body|)] + Segments(body, d, 0))
  }

  lemma FrontJoins(begin: Text, body: Text, d: Byte)
    requires Terminated(body, d)
    ensures Join(Front(begin, body, d), d) == Head(begin, d, |body|) + body
  {
    JoinSegments(body, d);
    JoinCons(Nine(|body|), Segments(body, d, 0), d);
    JoinCons(Eight(begin), [Nine(|body|)] + Segments(body, d, 0), d);
  }

  // ---------------------------------------------------------------- what can be framed

  /** Bodies and begin strings that the framing carries: see the limits of the parser. */
  ghost predicate Framed(begin: Text, body: Text, d: Byte) {
    && (d == SOH || (d == PIPE && SOH !in begin && SOH !in body))
    && NUL !in begin && d !in begin && NUL !in body && Terminated(body, d)
    && |Head(begin, d, |body|)| + |body| + 7 <= MAX_TEXT
    && |FieldsOf(body, d)| + 3 <= MAX_TAGS
    && NoFraming(FieldsOf(body, d))
  }

  lemma NoDigitIs(s: Text, b: Byte)
    requires AllDigits(s) && !Digit(b)
    ensures b !in s
  {
  }

  lemma HeadFree(begin: Text, len: nat, d: Byte)
    requires (d == SOH || d == PIPE) && d !in begin
    ensures d !in Eight(begin) && d !in Nine(len)
  {
    NoDigitIs(Decimal(len), d);
  }

  lemma FrontFree(begin: Text, body: Text, d: Byte)
    requires (d == SOH || d == PIPE) && d !in begin && Terminated(body, d)
    ensures Free(Front(begin, body, d), d)
  {
    JoinSegments(body, d);
    HeadFree(begin, |body|, d);
    FreeCons(Nine(|body|), Segments(body, d, 0), d);
    FreeCons(Eight(begin), [Nine(|body|)] + Segments(body, d, 0), d);
  }

  /** A text that the parser reads whole, with `d` as its delimiter. */
  predicate Clean(m: Text, d: Byte) {
    NUL !in m && |m| <= MAX_TEXT && d in m && (d == SOH || (d == PIPE && SOH !in m))
  }

  /** A byte that is neither framing nor in the parts is not in the message. */
  lemma Missing(b: Byte, begin: Text, body: Text, d: Byte, sum: Byte)
    requires (b == NUL || b == SOH) && b != d && b !in begin && b !in body
    ensures b !in Head(begin, d, |body|) + body + (Ten(sum) + [d])
  {
    NoDigitIs(Decimal(|body|), b);
    NoDigitIs(ThreeDigits(sum), b);
    assert b !in Eight(begin) && b !in Nine(|body|) && b !in Ten(sum);
  }

  lemma TextIsClean(begin: Text, body: Text, d: Byte, sum: Byte)
    requires Framed(begin, body, d)
    ensures Clean(Head(begin, d, |body|) + body + (Ten(sum) + [d]), d)
  {
    Missing(NUL, begin, body, d, sum);
    if d == PIPE {
      Missing(SOH, begin, body, d, sum);
    }
  }

  lemma TenFree(sum: Byte, d: Byte)
    requires d == SOH || d == PIPE
    ensures d !in Ten(sum)
  {
    NoDigitIs(ThreeDigits(sum), d);
  }

  // ---------------------------------------------------------------- the round trip

  lemma ClipWhole(m: Text)
    requires NUL !in m && |m| <= MAX_TEXT
    ensures Clip(m) == m
  {
    FindIs(m, NUL, 0, |m|);
  }

  lemma ParseClean(m: Text, segs: seq<Text>, d: Byte)
    requires Clean(m, d) && m == Join(segs, d) && Free(segs, d)
    ensures Parse(m) == Validate(m, ScanItems(NO_SCAN, 0, ItemsOf(segs)))
  {
    ClipWhole(m);
    assert m[0..] == m;
    SegmentsJoin(m, d, 0, segs);
  }

  /** Any text of segments, followed by the trailer segment, parses item by item. */
  lemma ParseWithTrailer(t: Text, front: seq<Text>, d: Byte, sum: Byte, m: Text)
    requires t == Join(front, d) && Free(front, d) && m == t + (Ten(sum) + [d]) && Clean(m, d)
    ensures Parse(m) == Validate(m, ScanItems(NO_SCAN, 0, ItemsOf(front) + [ItemOf(Ten(sum))]))
  {
    var ten := Ten(sum);
    TenFree(sum, d);
    JoinAppend(front, [ten], d);
    JoinOne(ten, d);
    ParseClean(m, front + [ten], d);
    ItemsAppend(front, [ten]);
    assert ItemsOf([ten]) == [ItemOf(ten)];
  }

  /** The scan of the two header items. */
  lemma ScanHead(f8: Field, f9: Field, a: nat, b: nat, rest: seq<Item>)
    requires f8.tag == 8 && f9.tag == 9
    ensures ScanItems(NO_SCAN, 0, [Item(a, Some(f8))] + ([Item(b, Some(f9))] + rest))
            == ScanItems(Scan([f8, f9], -1, -1, true), a + b + 2, rest)
  {
    var i8, i9 := Item(a, Some(f8)), Item(b, Some(f9));
    var tail := [i9] + rest;
    assert ([i8] + tail)[1..] == tail && tail[1..] == rest;
    var st1 := Absorb(NO_SCAN, 0, Some(f8));
    assert st1 == Scan([f8], -1, -1, false);
    var st2 := Absorb(st1, a + 1, Some(f9));
    assert st2 == Scan([f8, f9], -1, -1, true);
    assert ScanItems(NO_SCAN, 0, [i8] + tail) == ScanItems(st1, a + 1, tail);
  }

  /** From the end of the header: the body's fields, then the trailer. */
  lemma ScanRest(head: seq<Field>, h: nat, items: seq<Item>, len: nat, f10: Field)
    requires |head| == 2 && 2 + |Fields(items)| < MAX_TAGS && NoFraming(Fields(items)) && f10.tag == 10
    ensures ScanItems(Scan(head, -1, -1, true), h, items + [Item(len, Some(f10))])
            == Scan(head + Fields(items) + [f10], h + Width(items), h, false)
  {
    var st, ten := Scan(head, -1, h, false), Item(len, Some(f10));
    PendingScan(Scan(head, -1, -1, true), h, items + [ten]);
    ScanAppend(st, h, items, [ten]);
    BodyScan(st, h, items);
    ScanOne(st.(fields := head + Fields(items)), h + Width(items), ten);
  }

  lemma FrontItems(begin: Text, body: Text, d: Byte)
    requires |body| < 10000
    ensures ItemsOf(Front(begin, body, d))
            == [Item(|begin| + 2, Some(Field(8, Cut(begin))))]
               + ([Item(|Decimal(|body|)| + 2, Some(Field(9, Decimal(|body|))))] + ItemsOf(Segments(body, d, 0)))
  {
    EightIs(begin);
    NineIs(|body|);
    var segs := [Nine(|body|)] + Segments(body, d, 0);
    assert segs[1..] == Segments(body, d, 0) && Front(begin, body, d)[1..] == segs;
  }

  /** The scan of a whole message: header items, body items, trailer item. */
  lemma ScanMessage(f8: Field, f9: Field, a: nat, b: nat, items: seq<Item>, len: nat, f10: Field, front: seq<Item>)
    requires f8.tag == 8 && f9.tag == 9 && f10.tag == 10
    requires |Fields(items)| + 3 <= MAX_TAGS && NoFraming(Fields(items))
    requires front == [Item(a, Some(f8))] + ([Item(b, Some(f9))] + items)
    ensures ScanItems(NO_SCAN, 0, front + [Item(len, Some(f10))])
            == Scan([f8, f9] + Fields(items) + [f10], a + b + 2 + Width(items), a + b + 2, false)
  {
    var ten := Item(len, Some(f10));
    assert front + [ten] == [Item(a, Some(f8))] + ([Item(b, Some(f9))] + (items + [ten]));
    ScanHead(f8, f9, a, b, items + [ten]);
    ScanRest([f8, f9], a + b + 2, items, len, f10);
  }

  lemma {:induction false} FindAppend(a: seq<Field>, b: seq<Field>, tag: int)
    ensures FindField(a + b, tag) == if Has(a, tag) then FindField(a, tag) else FindField(b, tag)
  {
    if a == [] {
      assert a + b == b;
    } else {
      FindAppend(a[1..], b, tag);
      assert (a + b)[1..] == a[1..] + b;
    }
  }

  lemma {:induction false} NotFound(fs: seq<Field>, tag: int)
    requires forall i | 0 <= i < |fs| :: fs[i].tag != tag
    ensures !Has(fs, tag)
  {
    if fs != [] {
      NotFound(fs[1..], tag);
    }
  }

  /** Looking the framing tags and the message type up in a framed message. */
  lemma FindFramed(f8: Field, f9: Field, fs: seq<Field>, f10: Field)
    requires f8.tag == 8 && f9.tag == 9 && f10.tag == 10 && NoFraming(fs)
    ensures var all := [f8, f9] + fs + [f10];
            && FindField(all, 8) == Some(f8) && FindField(all, 9) == Some(f9) && FindField(all, 10) == Some(f10)
            && (Has(all, 35) <==> Has(fs, 35))
  {
    var all := [f8, f9] + fs + [f10];
    NotFound(fs, 10);
    assert [f8, f9][1..] == [f9] && [f9][1..] == [] && [f10][1..] == [];
    FindAppend([f8, f9] + fs, [f10], 10);
    FindAppend([f8, f9], fs, 10);
    FindAppend([f8, f9] + fs, [f10], 35);
    FindAppend([f8, f9], fs, 35);
    assert all[0] == f8 && all[1..][0] == f9;
  }

  lemma PrefixChecksum(t: Text, more: Text)
    ensures Checksum(t + more, |t|) == Checksum(t, |t|)
  {
    ByteSumPrefix(t + more, t, |t|);
  }

  /** What a receiver gets: the framing fields, then exactly these body fields, with both checks passed. */
  predicate Delivers(p: Parsed, f8: Field, f9: Field, fs: seq<Field>, len: nat) {
    && |p.fields| == |fs| + 3 && p.fields[0] == f8 && p.fields[1] == f9 && p.fields[2..|fs| + 2] == fs
    && p.cksumValid && p.bodyValid && p.computedBody == len
    && (IsValid(p) <==> Has(fs, 35))
  }

  lemma ValidateFramed(m: Text, f8: Field, f9: Field, fs: seq<Field>, f10: Field, h: nat, n: nat)
    requires f8.tag == 8 && f9.tag == 9 && f10.tag == 10 && NoFraming(fs) && h <= n <= |m|
    requires Atoi(f10.value) == Checksum(m, n) && Atoi(f9.value) == n - h
    ensures Delivers(Validate(m, Scan([f8, f9] + fs + [f10], n, h, false)), f8, f9, fs, n - h)
  {
    FindFramed(f8, f9, fs, f10);
  }

  /** The scan of a built message, in terms of its text. */
  lemma ScanFramed(begin: Text, body: Text, d: Byte, sum: Byte, fs: seq<Field>, h: nat)
    requires |body| < 10000 && Terminated(body, d) && h == |Head(begin, d, |body|)|
    requires fs == FieldsOf(body, d) && |fs| + 3 <= MAX_TAGS && NoFraming(fs)
    ensures ScanItems(NO_SCAN, 0, ItemsOf(Front(begin, body, d)) + [ItemOf(Ten(sum))])
            == Scan([Field(8, Cut(begin)), Field(9, Decimal(|body|))] + fs + [Field(10, ThreeDigits(sum))],
                    h + |body|, h, false)
  {
    var items := ItemsOf(Segments(body, d, 0));
    FrontItems(begin, body, d);
    TenIs(sum);
    BodyWidth(body, d);
    ScanMessage(Field(8, Cut(begin)), Field(9, Decimal(|body|)), |begin| + 2, |Decimal(|body|)| + 2, items,
                6, Field(10, ThreeDigits(sum)), ItemsOf(Front(begin, body, d)));
  }

  lemma BodyWidth(body: Text, d: Byte)
    requires Terminated(body, d)
    ensures Width(ItemsOf(Segments(body, d, 0))) == |body|
  {
    JoinSegments(body, d);
    JoinWidth(Segments(body, d, 0), d);
  }

  lemma FramedChecks(t: Text, d: Byte, m: Text, n: nat)
    requires m == t + Trailer(t, d)
    ensures Atoi(ThreeDigits(Checksum(t, |t|))) == Checksum(m, |t|) && Atoi(Decimal(n)) == n
  {
    AtoiThreeDigits(Checksum(t, |t|));
    AtoiDecimal(n);
    PrefixChecksum(t, Trailer(t, d));
  }

  lemma BuildIs(cap: int, begin: Text, body: Text, d: Byte, m: Text, t: Text)
    requires Build(cap, body, begin, d) == Built(m) && t == Head(begin, d, |body|) + body
    ensures m == t + Trailer(t, d)
  {
  }

  lemma FrontFacts(begin: Text, body: Text, d: Byte, t: Text, m: Text)
    requires Framed(begin, body, d) && t == Head(begin, d, |body|) + body && m == t + Trailer(t, d)
    ensures Clean(m, d) && t == Join(Front(begin, body, d), d) && Free(Front(begin, body, d), d)
  {
    TextIsClean(begin, body, d, Checksum(t, |t|));
    FrontJoins(begin, body, d);
    FrontFree(begin, body, d);
  }

  lemma ParseFramed(begin: Text, body: Text, d: Byte, m: Text, t: Text, fs: seq<Field>, h: nat)
    requires Framed(begin, body, d) && t == Head(begin, d, |body|) + body && m == t + Trailer(t, d)
    requires fs == FieldsOf(body, d) && h == |Head(begin, d, |body|)|
    ensures Parse(m) == Validate(m, Scan([Field(8, Cut(begin)), Field(9, Decimal(|body|))] + fs
                                         + [Field(10, ThreeDigits(Checksum(t, |t|)))], |t|, h, false))
  {
    var sum := Checksum(t, |t|);
    FrontFacts(begin, body, d, t, m);
    ScanFramed(begin, body, d, sum, fs, h);
    ParseAs(t, Front(begin, body, d), d, sum, m,
            Scan([Field(8, Cut(begin)), Field(9, Decimal(|body|))] + fs + [Field(10, ThreeDigits(sum))], |t|, h, false));
  }

  lemma ParseAs(t: Text, front: seq<Text>, d: Byte, sum: Byte, m: Text, st: Scan)
    requires t == Join(front, d) && Free(front, d) && m == t + (Ten(sum) + [d]) && Clean(m, d)
    requires st == ScanItems(NO_SCAN, 0, ItemsOf(front) + [ItemOf(Ten(sum))])
    ensures Parse(m) == Validate(m, st)
  {
    ParseWithTrailer(t, front, d, sum, m);
  }

  lemma FramedDelivers(p: Parsed, f8: Field, f9: Field, fs: seq<Field>, t: Text, d: Byte, m: Text, h: nat, len: nat)
    requires m == t + Trailer(t, d) && f8.tag == 8 && f9 == Field(9, Decimal(len)) && NoFraming(fs) && h + len == |t|
    requires p == Validate(m, Scan([f8, f9] + fs + [Field(10, ThreeDigits(Checksum(t, |t|)))], |t|, h, false))
    ensures Delivers(p, f8, f9, fs, len)
  {
    FramedChecks(t, d, m, len);
    ValidateFramed(m, f8, f9, fs, Field(10, ThreeDigits(Checksum(t, |t|))), h, |t|);
  }

  /**
   Parsing a built message gives back the begin string, the body's length and every field of the
   body in order, with checksum and body length right; it is valid exactly when the body has a
   message type.
   */
  lemma RoundTrip(cap: int, begin: Text, body: Text, d: Byte, m: Text)
    requires Framed(begin, body, d) && Build(cap, body, begin, d) == Built(m)
    ensures Delivers(Parse(m), Field(8, Cut(begin)), Field(9, Decimal(|body|)), FieldsOf(body, d), |body|)
  {
    var t, h := Head(begin, d, |body|) + body, |Head(begin, d, |body|)|;
    BuildIs(cap, begin, body, d, m, t);
    ParseFramed(begin, body, d, m, t, FieldsOf(body, d), h);
    FramedDelivers(Parse(m), Field(8, Cut(begin)), Field(9, Decimal(|body|)), FieldsOf(body, d), t, d, m, h, |body|);
  }

  // ---------------------------------------------------------------- bodies made of fields

  function SegmentOf(f: Field): Text
    requires f.tag > 0
  {
    Decimal(f.tag) + [EQUALS] + f.value
  }

  ghost predicate Plain(fs: seq<Field>, d: Byte) {
    forall i | 0 <= i < |fs| :: fs[i].tag > 0 && |fs[i].value| < MAX_VALUE && d !in fs[i].value
  }

  /** The body text of a list of fields. */
  function Encode(fs: seq<Field>, d: Byte): Text
    requires forall i | 0 <= i < |fs| :: fs[i].tag > 0
  {
    if fs == [] then [] else SegmentOf(fs[0]) + [d] + Encode(fs[1..], d)
  }

  lemma SegmentRoundTrip(f: Field, d: Byte)
    requires f.tag > 0 && |f.value| < MAX_VALUE && d !in f.value && (d == SOH || d == PIPE)
    ensures FieldOf(SegmentOf(f)) == Some(f) && d !in SegmentOf(f)
  {
    var s, n := SegmentOf(f), Decimal(f.tag);
    NoDigitIs(n, EQUALS);
    NoDigitIs(n, d);
    FindIs(s, EQUALS, 0, |n|);
    assert s[..|n|] == n && s[|n| + 1..] == f.value;
    AtoiDecimal(f.tag);
  }

  function SegmentsOf(fs: seq<Field>): seq<Text>
    requires forall i | 0 <= i < |fs| :: fs[i].tag > 0
  {
    if fs == [] then [] else [SegmentOf(fs[0])] + SegmentsOf(fs[1..])
  }

  lemma {:induction false} EncodeJoins(fs: seq<Field>, d: Byte)
    requires Plain(fs, d) && (d == SOH || d == PIPE)
    ensures Encode(fs, d) == Join(SegmentsOf(fs), d) && Free(SegmentsOf(fs), d)
  {
    if fs != [] {
      EncodeJoins(fs[1..], d);
      SegmentRoundTrip(fs[0], d);
      JoinCons(SegmentOf(fs[0]), SegmentsOf(fs[1..]), d);
      FreeCons(SegmentOf(fs[0]), SegmentsOf(fs[1..]), d);
    }
  }

  lemma FieldsCons(seg: Text, segs: seq<Text>)
    ensures Fields(ItemsOf([seg] + segs)) == Few(FieldOf(seg)) + Fields(ItemsOf(segs))
  {
    ItemsCons(seg, segs);
    assert ([ItemOf(seg)] + ItemsOf(segs))[1..] == ItemsOf(segs);
  }

  lemma {:induction false} FieldsOfSegments(fs: seq<Field>, d: Byte)
    requires Plain(fs, d) && (d == SOH || d == PIPE)
    ensures Fields(ItemsOf(SegmentsOf(fs))) == fs
  {
    if fs != [] {
      FieldsOfSegments(fs[1..], d);
      SegmentRoundTrip(fs[0], d);
      FieldsCons(SegmentOf(fs[0]), SegmentsOf(fs[1..]));
      assert fs == [fs[0]] + fs[1..];
    }
  }

  lemma {:induction false} JoinTerminated(segs: seq<Text>, d: Byte)
    ensures Terminated(Join(segs, d), d)
  {
    if segs != [] {
      JoinTerminated(segs[1..], d);
    }
  }

  /** Reading a body of encoded fields gives exactly those fields, unchanged and in order. */
  lemma EncodedFields(fs: seq<Field>, d: Byte)
    requires Plain(fs, d) && (d == SOH || d == PIPE)
    ensures Terminated(Encode(fs, d), d) && FieldsOf(Encode(fs, d), d) == fs
  {
    var t := Encode(fs, d);
    EncodeJoins(fs, d);
    JoinTerminated(SegmentsOf(fs), d);
    assert t[0..] == t;
    SegmentsJoin(t, d, 0, SegmentsOf(fs));
    FieldsOfSegments(fs, d);
  }

  /** A message built from fields parses to those fields between its framing. */
  lemma FieldsRoundTrip(cap: int, begin: Text, fs: seq<Field>, d: Byte, body: Text, m: Text)
    requires Plain(fs, d) && body == Encode(fs, d) && Framed(begin, body, d) && Build(cap, body, begin, d) == Built(m)
    ensures Delivers(Parse(m), Field(8, Cut(begin)), Field(9, Decimal(|body|)), fs, |body|)
  {
    EncodedFields(fs, d);
    RoundTrip(cap, begin, body, d, m);
  }

  // ---------------------------------------------------------------- corruption

  /** Items that differ, if at all, only in the bytes of their values. */
  predicate SameShape(a: Item, b: Item) {
    && a.len == b.len && (a.field.Some? <==> b.field.Some?)
    && (a.field.Some? ==> a.field.value.tag == b.field.value.tag)
  }

  function Changed(t: Text, i: nat, b: Byte): Text
    requires i < |t|
  {
    t[i := b]
  }

  lemma ValueByte(seg: Text, i: nat, b: Byte)
    requires Find(seg, EQUALS, 0) < i < |seg|
    ensures SameShape(ItemOf(seg), ItemOf(Changed(seg, i, b)))
  {
    var e := Find(seg, EQUALS, 0);
    FindSkips(seg, EQUALS, 0);
    FindIs(seg[i := b], EQUALS, 0, e);
    assert seg[i := b][..e] == seg[..e];
  }

  /** Scans that agree on everything but the values. */
  predicate Alike(a: Scan, b: Scan) {
    && a.cksumOff == b.cksumOff && a.bodyOff == b.bodyOff && a.pendingBody == b.pendingBody
    && |a.fields| == |b.fields| && forall i | 0 <= i < |a.fields| :: a.fields[i].tag == b.fields[i].tag
  }

  lemma AbsorbAlike(a: Scan, b: Scan, off: nat, x: Item, y: Item)
    requires Alike(a, b) && SameShape(x, y)
    ensures Alike(Absorb(a, off, x.field), Absorb(b, off, y.field))
  {
  }

  ghost predicate SameShapes(xs: seq<Item>, ys: seq<Item>) {
    |xs| == |ys| && forall i | 0 <= i < |xs| :: SameShape(xs[i], ys[i])
  }

  lemma {:induction false} ScanAlike(a: Scan, b: Scan, off: nat, xs: seq<Item>, ys: seq<Item>)
    requires Alike(a, b) && SameShapes(xs, ys)
    ensures Alike(ScanItems(a, off, xs), ScanItems(b, off, ys))
    decreases |xs|
  {
    if xs != [] && |a.fields| < MAX_TAGS {
      assert SameShape(xs[0], ys[0]);
      AbsorbAlike(a, b, off, xs[0], ys[0]);
      ScanAlike(Absorb(a, off, xs[0].field), Absorb(b, off, ys[0].field), off + xs[0].len + 1, xs[1..], ys[1..]);
    }
  }

  /** Where a segment starts in the joined text. */
  function Offset(segs: seq<Text>, d: Byte, j: nat): nat
    requires j <= |segs|
  {
    |Join(segs[..j], d)|
  }

  lemma {:induction false} JoinChange(segs: seq<Text>, d: Byte, j: nat, i: nat, b: Byte)
    requires j < |segs| && i < |segs[j]|
    ensures var k := Offset(segs, d, j) + i;
            && k < |Join(segs, d)| && Join(segs, d)[k] == segs[j][i]
            && Join(segs[j := Changed(segs[j], i, b)], d) == Join(segs, d)[k := b]
  {
    var pre, post := segs[..j], segs[j + 1..];
    var was, now := segs[j], Changed(segs[j], i, b);
    assert segs == pre + ([was] + post) && segs[j := now] == pre + ([now] + post);
    JoinAppend(pre, [was] + post, d);
    JoinAppend(pre, [now] + post, d);
    JoinCons(was, post, d);
    JoinCons(now, post, d);
  }

  /** No field has tag 10 and there is room for one more. */
  predicate Room(st: Scan) {
    |st.fields| < MAX_TAGS && forall i | 0 <= i < |st.fields| :: st.fields[i].tag != 10
  }

  lemma RoomOf(a: Scan, b: Scan)
    requires Alike(a, b) && Room(a)
    ensures Room(b)
  {
  }

  lemma TrailerFound(fs: seq<Field>, f10: Field)
    requires f10.tag == 10 && forall i | 0 <= i < |fs| :: fs[i].tag != 10
    ensures FindField(fs + [f10], 10) == Some(f10)
  {
    NotFound(fs, 10);
    FindAppend(fs, [f10], 10);
  }

  /** Whatever was scanned before, the scan ends in the trailer's field, placed after it. */
  lemma TrailerScan(items: seq<Item>, len: nat, f10: Field)
    requires Room(ScanItems(NO_SCAN, 0, items)) && f10.tag == 10
    ensures var end := ScanItems(NO_SCAN, 0, items + [Item(len, Some(f10))]);
            FindField(end.fields, 10) == Some(f10) && end.cksumOff == Width(items)
  {
    var st := ScanItems(NO_SCAN, 0, items);
    ScanAppend(NO_SCAN, 0, items, [Item(len, Some(f10))]);
    ScanOne(st, Width(items), Item(len, Some(f10)));
    TrailerFound(st.fields, f10);
  }

  lemma FrontScan(begin: Text, body: Text, d: Byte)
    requires Framed(begin, body, d)
    ensures Room(ScanItems(NO_SCAN, 0, ItemsOf(Front(begin, body, d))))
  {
    FrontItems(begin, body, d);
    HeaderRoom(Field(8, Cut(begin)), Field(9, Decimal(|body|)), |begin| + 2, |Decimal(|body|)| + 2, ItemsOf(Segments(body, d, 0)));
  }

  lemma HeaderRoom(f8: Field, f9: Field, a: nat, b: nat, items: seq<Item>)
    requires f8.tag == 8 && f9.tag == 9 && |Fields(items)| + 3 <= MAX_TAGS && NoFraming(Fields(items))
    ensures Room(ScanItems(NO_SCAN, 0, [Item(a, Some(f8))] + ([Item(b, Some(f9))] + items)))
  {
    var head, h := [f8, f9], a + b + 2;
    ScanHead(f8, f9, a, b, items);
    if items != [] {
      PendingScan(Scan(head, -1, -1, true), h, items);
      BodyScan(Scan(head, -1, h, false), h, items);
    }
  }

  lemma CleanChange(m: Text, d: Byte, k: nat, b: Byte)
    requires Clean(m, d) && k < |m| - 1 && m[|m| - 1] == d && b != NUL && b != SOH
    ensures Clean(m[k := b], d)
  {
    assert m[k := b][|m| - 1] == d;
  }

  lemma FreeChange(segs: seq<Text>, d: Byte, j: nat, i: nat, b: Byte)
    requires Free(segs, d) && j < |segs| && i < |segs[j]| && b != d
    ensures Free(segs[j := Changed(segs[j], i, b)], d)
  {
  }

  lemma ShapesChange(segs: seq<Text>, j: nat, i: nat, b: Byte)
    requires j < |segs| && Find(segs[j], EQUALS, 0) < i < |segs[j]|
    ensures SameShapes(ItemsOf(segs), ItemsOf(segs[j := Changed(segs[j], i, b)]))
  {
    var xs := segs[j := Changed(segs[j], i, b)];
    forall p: nat | p < |segs| ensures SameShape(ItemsOf(segs)[p], ItemsOf(xs)[p]) {
      ItemsAt(segs, p);
      ItemsAt(xs, p);
      if p == j {
        ValueByte(segs[j], i, b);
      }
    }
  }

  /** A trailer that names another checksum is caught. */
  lemma Mismatch(m: Text, st: Scan, sum: Byte, n: nat)
    requires FindField(st.fields, 10) == Some(Field(10, ThreeDigits(sum))) && st.cksumOff == n <= |m|
    requires Checksum(m, n) != sum
    ensures Validate(m, st).cksumPresent && !Validate(m, st).cksumValid
  {
    AtoiThreeDigits(sum);
  }

  /** Altered segments of the same shapes, under the old trailer, fail the checksum. */
  lemma AlteredFails(xs: seq<Text>, front: seq<Text>, d: Byte, sum: Byte, t: Text, m: Text)
    requires SameShapes(ItemsOf(front), ItemsOf(xs)) && Room(ScanItems(NO_SCAN, 0, ItemsOf(front)))
    requires t == Join(xs, d) && Free(xs, d) && m == t + (Ten(sum) + [d]) && Clean(m, d) && Checksum(t, |t|) != sum
    ensures Parse(m).cksumPresent && !Parse(m).cksumValid
  {
    var f10 := Field(10, ThreeDigits(sum));
    ParseWithTrailer(t, xs, d, sum, m);
    TenIs(sum);
    ScanAlike(NO_SCAN, NO_SCAN, 0, ItemsOf(front), ItemsOf(xs));
    RoomOf(ScanItems(NO_SCAN, 0, ItemsOf(front)), ScanItems(NO_SCAN, 0, ItemsOf(xs)));
    TrailerScan(ItemsOf(xs), 6, f10);
    JoinWidth(xs, d);
    PrefixChecksum(t, Ten(sum) + [d]);
    Mismatch(m, ScanItems(NO_SCAN, 0, ItemsOf(xs) + [Item(6, Some(f10))]), sum, |t|);
  }

  lemma ChangePrefix(t: Text, more: Text, k: nat, b: Byte)
    requires k < |t|
    ensures (t + more)[k := b] == t[k := b] + more
  {
  }

  lemma ChangedMessage(t: Text, d: Byte, m: Text, k: nat, b: Byte)
    requires m == t + Trailer(t, d) && Clean(m, d) && k < |t| && b != t[k] && b != NUL && b != SOH
    ensures m[k := b] == t[k := b] + Trailer(t, d) && Clean(m[k := b], d)
    ensures Checksum(t[k := b], |t|) != Checksum(t, |t|)
  {
    CleanChange(m, d, k, b);
    ChecksumDetects(t, k, b, |t|);
    ChangePrefix(t, Trailer(t, d), k, b);
  }

  lemma Detected(t: Text, d: Byte, m: Text, front: seq<Text>, j: nat, i: nat, b: Byte, k: nat)
    requires m == t + Trailer(t, d) && Clean(m, d) && t == Join(front, d) && Free(front, d)
    requires Room(ScanItems(NO_SCAN, 0, ItemsOf(front)))
    requires j < |front| && Find(front[j], EQUALS, 0) < i < |front[j]| && k == Offset(front, d, j) + i
    requires b != front[j][i] && b != d && b != NUL && b != SOH
    ensures k < |t| && t[k] == front[j][i] && Parse(m[k := b]).cksumPresent && !Parse(m[k := b]).cksumValid
  {
    var xs := front[j := Changed(front[j], i, b)];
    JoinChange(front, d, j, i, b);
    FreeChange(front, d, j, i, b);
    ShapesChange(front, j, i, b);
    ChangedMessage(t, d, m, k, b);
    AlteredFails(xs, front, d, Checksum(t, |t|), t[k := b], m[k := b]);
  }

  /** The message with byte `k` changed to `b` does not pass its checksum. */
  ghost predicate Rejected(m: Text, k: nat, b: Byte) {
    k < |m| && (var p := Parse(m[k := b]); p.cksumPresent && !p.cksumValid && !IsValid(p))
  }

  lemma FramedDetected(begin: Text, body: Text, d: Byte, t: Text, m: Text, front: seq<Text>, j: nat, i: nat, b: Byte, k: nat)
    requires Framed(begin, body, d) && t == Head(begin, d, |body|) + body && m == t + Trailer(t, d)
    requires front == Front(begin, body, d)
    requires j < |front| && Find(front[j], EQUALS, 0) < i < |front[j]| && k == Offset(front, d, j) + i
    requires b != front[j][i] && b != d && b != NUL && b != SOH
    ensures k < |m| && m[k] == front[j][i] && Rejected(m, k, b)
  {
    FrontFacts(begin, body, d, t, m);
    FrontScan(begin, body, d);
    Detected(t, d, m, front, j, i, b, k);
  }

  /**
   Changing one value byte anywhere before the trailer, to any byte that is not a delimiter or NUL,
   leaves the message with a checksum that does not match.
   */
  lemma CorruptionDetected(cap: int, begin: Text, body: Text, d: Byte, m: Text, front: seq<Text>, j: nat, i: nat, b: Byte, k: nat)
    requires Framed(begin, body, d) && Build(cap, body, begin, d) == Built(m) && front == Front(begin, body, d)
    requires j < |front| && Find(front[j], EQUALS, 0) < i < |front[j]| && k == Offset(front, d, j) + i
    requires b != front[j][i] && b != d && b != NUL && b != SOH
    ensures k < |m| && m[k] == front[j][i] && Rejected(m, k, b)
  {
    var t := Head(begin, d, |body|) + body;
    BuildIs(cap, begin, body, d, m, t);
    FramedDetected(begin, body, d, t, m, front, j, i, b, k);
  }

  // ---------------------------------------------------------------- any changed byte

  predicate SegmentStart(t: Text, d: Byte, pos: nat) {
    pos == 0 || (pos <= |t| && t[pos - 1] == d)
  }

  /** The segment at `pos` is a checksum field. */
  predicate TenAt(t: Text, d: Byte, pos: nat)
    requires pos <= |t|
  {
    var f := FieldOf(t[pos..Find(t, d, pos)]);
    f.Some? && f.value.tag == 10
  }

  /** The text has a checksum field that starts before `cut`. */
  predicate TenBefore(t: Text, d: Byte, cut: nat)
    requires cut <= |t|
  {
    exists pos | 0 <= pos < cut :: SegmentStart(t, d, pos) && TenAt(t, d, pos)
  }

  predicate NoTen(fs: seq<Field>) {
    forall i | 0 <= i < |fs| :: fs[i].tag != 10
  }

  /** Of these items, at offsets from `off` on, only one at `cut` is a checksum field, and it reads `sum`. */
  predicate OnlyTen(items: seq<Item>, off: nat, cut: nat, sum: int) {
    items == [] ||
    (var f := items[0].field;
     && (f.Some? && f.value.tag == 10 ==> off == cut && Atoi(f.value.value) == sum)
     && OnlyTen(items[1..], off + items[0].len + 1, cut, sum))
  }

  /** No checksum field yet, or just the one at `cut`, reading `sum`. */
  predicate TenOrNone(st: Scan, cut: nat, sum: int) {
    NoTen(st.fields) ||
    (st.cksumOff == cut && Has(st.fields, 10) && Atoi(FindField(st.fields, 10).value.value) == sum)
  }

  lemma AbsorbOther(st: Scan, off: nat, f: Option<Field>, cut: nat, sum: int)
    requires TenOrNone(st, cut, sum) && (f.Some? ==> f.value.tag != 10)
    ensures TenOrNone(Absorb(st, off, f), cut, sum) && (NoTen(st.fields) ==> NoTen(Absorb(st, off, f).fields))
  {
    if f.Some? {
      FindAppend(st.fields, [f.value], 10);
    }
  }

  lemma AbsorbTen(st: Scan, f: Field, cut: nat, sum: int)
    requires NoTen(st.fields) && f.tag == 10 && Atoi(f.value) == sum
    ensures TenOrNone(Absorb(st, cut, Some(f)), cut, sum)
  {
    TrailerFound(st.fields, f);
  }

  lemma {:induction false} ScanOnlyTen(st: Scan, off: nat, items: seq<Item>, cut: nat, sum: int)
    requires OnlyTen(items, off, cut, sum) && TenOrNone(st, cut, sum) && (off <= cut ==> NoTen(st.fields))
    ensures TenOrNone(ScanItems(st, off, items), cut, sum)
    decreases |items|
  {
    if items != [] && |st.fields| < MAX_TAGS {
      var f := items[0].field;
      if f.Some? && f.value.tag == 10 {
        AbsorbTen(st, f.value, cut, sum);
      } else {
        AbsorbOther(st, off, f, cut, sum);
      }
      ScanOnlyTen(Absorb(st, off, f), off + items[0].len + 1, items[1..], cut, sum);
    }
  }

  lemma OnlyTenCons(it: Item, items: seq<Item>, off: nat, cut: nat, sum: int, next: nat)
    requires it.field.Some? && it.field.value.tag == 10 ==> off == cut && Atoi(it.field.value.value) == sum
    requires OnlyTen(items, next, cut, sum) && (items == [] || next == off + it.len + 1)
    ensures OnlyTen([it] + items, off, cut, sum)
  {
    assert ([it] + items)[1..] == items;
  }

  /** Past `cut` no segment starts before the end. */
  lemma NoneStartsAfter(t: Text, d: Byte, pos: nat, cut: nat)
    requires cut < pos <= |t| && SegmentStart(t, d, pos) && forall x | cut <= x < |t| - 1 :: t[x] != d
    ensures pos == |t|
  {
  }

  lemma {:induction false} SegmentsOnlyTen(t: Text, d: Byte, pos: nat, cut: nat, sum: int)
    requires pos <= |t| && cut < |t| && (pos == |t| || SegmentStart(t, d, pos)) && !TenBefore(t, d, cut)
    requires forall x | cut <= x < |t| - 1 :: t[x] != d
    requires var f := FieldOf(t[cut..Find(t, d, cut)]); f.Some? && f.value.tag == 10 && Atoi(f.value.value) == sum
    ensures OnlyTen(ItemsOf(Segments(t, d, pos)), pos, cut, sum)
    decreases |t| - pos
  {
    if pos < |t| {
      var seg, next := t[pos..Find(t, d, pos)], NextStart(t, d, pos);
      if cut < pos { NoneStartsAfter(t, d, pos, cut); }
      assert pos < cut ==> !TenAt(t, d, pos);
      SegmentsCons(t, d, pos);
      SegmentsOnlyTen(t, d, next, cut, sum);
      ItemsCons(seg, Segments(t, d, next));
      OnlyTenCons(ItemOf(seg), ItemsOf(Segments(t, d, next)), pos, cut, sum, next);
    }
  }

  /** What the trailer reads as, whether its last byte still ends the segment or has become part of it. */
  lemma TrailerReads(sum: Byte, d: Byte)
    requires !Digit(d)
    ensures FieldOf(Ten(sum)) == Some(Field(10, ThreeDigits(sum))) && Atoi(ThreeDigits(sum)) == sum
    ensures FieldOf(Ten(sum) + [d]) == Some(Field(10, ThreeDigits(sum) + [d])) && Atoi(ThreeDigits(sum) + [d]) == sum
  {
    TenIs(sum);
    AtoiThreeDigits(sum);
    var s := Ten(sum) + [d];
    FindIs(s, EQUALS, 0, 2);
    assert Decimal(1) == [49];
    assert s[..2] == [49, 48] == Decimal(10) && s[3..] == ThreeDigits(sum) + [d];
    AtoiDecimal(10);
    AtoiPrefix(ThreeDigits(sum), d);
  }

  lemma TrailerAt(m: Text, cut: nat, d: Byte, e: Byte, sum: Byte)
    requires cut <= |m| && m[cut..] == Ten(sum) + [d] && (d == SOH || d == PIPE) && (e == SOH || e == PIPE)
    ensures (forall x | cut <= x < |m| - 1 :: m[x] != e) && cut < |m|
    ensures var f := FieldOf(m[cut..Find(m, e, cut)]); f.Some? && f.value.tag == 10 && Atoi(f.value.value) == sum
  {
    TrailerReads(sum, d);
    TenFree(sum, e);
    LastSegment(m, cut, d, e, Ten(sum));
  }

  /** The last segment, when its delimiter is `e` and the text ends in `d`. */
  lemma LastSegment(m: Text, cut: nat, d: Byte, e: Byte, seg: Text)
    requires cut <= |m| && m[cut..] == seg + [d] && e !in seg
    ensures (forall x | cut <= x < |m| - 1 :: m[x] != e) && cut < |m|
    ensures m[cut..Find(m, e, cut)] == if d == e then seg else seg + [d]
  {
    var s := m[cut..];
    assert forall x | cut <= x < |m| - 1 :: m[x] == s[x - cut] == seg[x - cut];
    assert m[|m| - 1] == s[|s| - 1] == d;
    var end := if d == e then |m| - 1 else |m|;
    FindIs(m, e, cut, end);
    assert m[cut..end] == s[..end - cut];
  }

  /** A text whose only checksum field is a trailer naming another sum is not valid. */
  lemma WrongSumIsInvalid(m: Text, cut: nat, d: Byte, sum: Byte)
    requires NUL !in m && |m| <= MAX_TEXT && cut <= |m| && m[cut..] == Ten(sum) + [d] && (d == SOH || d == PIPE)
    requires Checksum(m, cut) != sum && !TenBefore(m, Delimiter(m), cut)
    ensures !Parse(m).cksumValid && !IsValid(Parse(m))
  {
    var e := Delimiter(m);
    ClipWhole(m);
    TrailerAt(m, cut, d, e, sum);
    SegmentsOnlyTen(m, e, 0, cut, sum);
    ScanOnlyTen(NO_SCAN, 0, ItemsOf(Segments(m, e, 0)), cut, sum);
    NoValidSum(m, ScanOf(m, e), cut, sum);
  }

  lemma NoValidSum(m: Text, st: Scan, cut: nat, sum: Byte)
    requires TenOrNone(st, cut, sum) && cut <= |m| && Checksum(m, cut) != sum
    ensures !Validate(m, st).cksumValid
  {
    if NoTen(st.fields) {
      NotFound(st.fields, 10);
    }
  }

  /**
   Changing any one byte before the trailer, tags and delimiters included, to any byte but NUL makes
   the message invalid, unless it leaves a checksum field before the trailer.
   */
  lemma ByteChangeDetected(cap: int, begin: Text, body: Text, d: Byte, m: Text, k: nat, b: Byte)
    requires Build(cap, body, begin, d) == Built(m) && (d == SOH || d == PIPE)
    requires NUL !in m && |m| <= MAX_TEXT && k < |m| - 7 && b != m[k] && b != NUL
    requires !TenBefore(m[k := b], Delimiter(m[k := b]), |m| - 7)
    ensures !Parse(m[k := b]).cksumValid && !IsValid(Parse(m[k := b]))
  {
    var t := Head(begin, d, |body|) + body;
    var sum := Checksum(t, |t|);
    BuildIs(cap, begin, body, d, m, t);
    ChangePrefix(t, Trailer(t, d), k, b);
    ChecksumDetects(t, k, b, |t|);
    PrefixChecksum(t[k := b], Trailer(t, d));
    WrongSumIsInvalid(m[k := b], |t|, d, sum);
  }

  // ---------------------------------------------------------------- exactly when a checksum passes

  predicate IsTen(it: Item) {
    it.field.Some? && it.field.value.tag == 10
  }

  /** The items that the scan takes in while there is room for `room` more fields. */
  function Kept(items: seq<Item>, room: nat): seq<Item> {
    if items == [] || room == 0 then []
    else [items[0]] + Kept(items[1..], if items[0].field.Some? then room - 1 else room)
  }

  /** Where the last checksum field among items from offset `off` on starts, or -1. */
  function LastTen(items: seq<Item>, off: nat): int {
    if items == [] then -1
    else
      var later := LastTen(items[1..], off + items[0].len + 1);
      if later >= 0 then later else if IsTen(items[0]) then off else -1
  }

  lemma KeptCons(items: seq<Item>, room: nat, off: nat)
    requires items != [] && room > 0
    ensures var rest := Kept(items[1..], if items[0].field.Some? then room - 1 else room);
            && Fields(Kept(items, room)) == Few(items[0].field) + Fields(rest)
            && LastTen(Kept(items, room), off)
               == (var later := LastTen(rest, off + items[0].len + 1);
                   if later >= 0 then later else if IsTen(items[0]) then off else -1)
  {
    var rest := Kept(items[1..], if items[0].field.Some? then room - 1 else room);
    assert ([items[0]] + rest)[1..] == rest;
  }

  /** The scan collects the kept fields and ends at the last kept checksum field. */
  lemma {:induction false} ScanKept(st: Scan, off: nat, items: seq<Item>, kept: seq<Item>)
    requires |st.fields| <= MAX_TAGS && kept == Kept(items, MAX_TAGS - |st.fields|)
    ensures ScanItems(st, off, items).fields == st.fields + Fields(kept)
    ensures ScanItems(st, off, items).cksumOff == if LastTen(kept, off) >= 0 then LastTen(kept, off) else st.cksumOff
    decreases |items|
  {
    if items == [] || |st.fields| == MAX_TAGS {
      assert st.fields + Fields(kept) == st.fields;
    } else {
      var st' := Absorb(st, off, items[0].field);
      var rest := Kept(items[1..], MAX_TAGS - |st'.fields|);
      KeptCons(items, MAX_TAGS - |st.fields|, off);
      ScanKept(st', off + items[0].len + 1, items[1..], rest);
      FewAppend(st, off, items[0].field, Fields(rest));
    }
  }

  lemma FewAppend(st: Scan, off: nat, f: Option<Field>, rest: seq<Field>)
    ensures Absorb(st, off, f).fields + rest == st.fields + (Few(f) + rest)
  {
  }

  /** The fields of a text that the parser keeps, and the offset of the last checksum field among them. */
  function KeptOf(m: Text): seq<Item> {
    Kept(ItemsOf(Segments(m, Delimiter(m), 0)), MAX_TAGS)
  }

  /**
   For every text the parser reads whole: the checksum passes if and only if the first checksum field
   kept names the sum of all bytes before the last one kept.
   */
  lemma ChecksumPassesIff(m: Text, kept: seq<Item>, last: int)
    requires m != [] && NUL !in m && |m| <= MAX_TEXT && kept == KeptOf(m) && last == LastTen(kept, 0)
    ensures Parse(m).fields == Fields(kept)
    ensures Parse(m).cksumPresent <==> Has(Fields(kept), 10) && 0 <= last <= |m|
    ensures Parse(m).cksumPresent ==> Parse(m).computedCksum == Checksum(m, last)
    ensures Parse(m).cksumValid <==>
              Has(Fields(kept), 10) && 0 <= last <= |m| && Atoi(FindField(Fields(kept), 10).value.value) == Checksum(m, last)
  {
    ClipWhole(m);
    ScanKept(NO_SCAN, 0, ItemsOf(Segments(m, Delimiter(m), 0)), kept);
    assert NO_SCAN.fields + Fields(kept) == Fields(kept);
  }

  lemma {:induction false} NoFieldsNoTen(items: seq<Item>, off: nat)
    requires Fields(items) == []
    ensures LastTen(items, off) == -1
    decreases |items|
  {
    if items != [] {
      NoFieldsNoTen(items[1..], off + items[0].len + 1);
    }
  }

  /** When the fields fit, all of them are kept. */
  lemma {:induction false} AllKept(items: seq<Item>, room: nat, off: nat)
    requires |Fields(items)| <= room
    ensures Fields(Kept(items, room)) == Fields(items) && LastTen(Kept(items, room), off) == LastTen(items, off)
    decreases |items|
  {
    if items != [] {
      if room == 0 {
        NoFieldsNoTen(items, off);
      } else {
        KeptCons(items, room, off);
        AllKept(items[1..], if items[0].field.Some? then room - 1 else room, off + items[0].len + 1);
      }
    }
  }

  lemma {:induction false} TenFound(items: seq<Item>, off: nat)
    requires LastTen(items, off) >= 0
    ensures Has(Fields(items), 10)
    decreases |items|
  {
    FindAppend(Few(items[0].field), Fields(items[1..]), 10);
    if LastTen(items[1..], off + items[0].len + 1) >= 0 {
      TenFound(items[1..], off + items[0].len + 1);
    }
  }

  lemma LastTenCons(it: Item, items: seq<Item>, off: nat)
    ensures LastTen([it] + items, off)
            == (var later := LastTen(items, off + it.len + 1); if later >= 0 then later else if IsTen(it) then off else -1)
  {
    assert ([it] + items)[1..] == items;
  }

  /** With a segment of its own at `cut` the last checksum field, it is so for every earlier start. */
  lemma {:induction false} LastTenIsCut(t: Text, d: Byte, pos: nat, cut: nat)
    requires pos <= cut < |t| && SegmentStart(t, d, cut) && LastTen(ItemsOf(Segments(t, d, cut)), cut) == cut
    ensures LastTen(ItemsOf(Segments(t, d, pos)), pos) == cut
    decreases |t| - pos
  {
    if pos < cut {
      StopsBefore(t, d, pos, cut);
      LastTenIsCut(t, d, NextStart(t, d, pos), cut);
      SegmentsCons(t, d, pos);
      LastTenStep(t[pos..Find(t, d, pos)], Segments(t, d, NextStart(t, d, pos)), Segments(t, d, pos), pos, cut);
    }
  }

  lemma LastTenStep(seg: Text, rest: seq<Text>, segs: seq<Text>, pos: nat, cut: nat)
    requires segs == [seg] + rest && LastTen(ItemsOf(rest), pos + |seg| + 1) == cut
    ensures LastTen(ItemsOf(segs), pos) == cut
  {
    ItemsCons(seg, rest);
    LaterTen(ItemOf(seg), ItemsOf(rest), pos, cut);
  }

  lemma LaterTen(it: Item, items: seq<Item>, off: nat, cut: nat)
    requires LastTen(items, off + it.len + 1) == cut
    ensures LastTen([it] + items, off) == cut
  {
    LastTenCons(it, items, off);
  }

  lemma TenAtEnd(t: Text, d: Byte, cut: nat)
    requires cut < |t| && TenAt(t, d, cut) && forall x | cut <= x < |t| - 1 :: t[x] != d
    ensures LastTen(ItemsOf(Segments(t, d, cut)), cut) == cut
  {
    var seg := t[cut..Find(t, d, cut)];
    EndsText(t, d, cut);
    SegmentsCons(t, d, cut);
    ItemsCons(seg, []);
    LastTenCons(ItemOf(seg), [], cut);
  }

  /** A segment before `cut` ends before it, when `cut` is where a segment starts. */
  lemma StopsBefore(t: Text, d: Byte, pos: nat, cut: nat)
    requires pos < cut < |t| && SegmentStart(t, d, cut)
    ensures Find(t, d, pos) < cut && NextStart(t, d, pos) == Find(t, d, pos) + 1 && SegmentStart(t, d, NextStart(t, d, pos))
  {
    FindSkips(t, d, pos);
  }

  lemma EndsText(t: Text, d: Byte, cut: nat)
    requires cut < |t| && forall x | cut <= x < |t| - 1 :: t[x] != d
    ensures NextStart(t, d, cut) == |t| && Segments(t, d, NextStart(t, d, cut)) == []
  {
  }

  /** With the trailer a segment of its own, it is the last checksum field. */
  lemma TrailerIsLast(m: Text, cut: nat, d: Byte, e: Byte, named: Byte)
    requires cut <= |m| && m[cut..] == Ten(named) + [d] && (d == SOH || d == PIPE) && (e == SOH || e == PIPE)
    requires SegmentStart(m, e, cut)
    ensures cut < |m| && LastTen(ItemsOf(Segments(m, e, 0)), 0) == cut
  {
    TrailerAt(m, cut, d, e, named);
    TenAtEnd(m, e, cut);
    LastTenIsCut(m, e, 0, cut);
  }

  /** These are the fields, a checksum among them, and the checksum passes exactly when the first one names `sum`. */
  predicate PassesIff(p: Parsed, fs: seq<Field>, sum: int) {
    Has(fs, 10) && p.fields == fs && (p.cksumValid <==> Atoi(FindField(fs, 10).value.value) == sum)
  }

  /**
   With the trailer `10=sum` still a segment of its own, behind fields that fit the parser, the checksum
   of a text passes if and only if its first checksum field names the sum of the bytes before the trailer.
   */
  lemma IntactTrailerPassesIff(m: Text, cut: nat, d: Byte, e: Byte, sum: Byte, fs: seq<Field>)
    requires NUL !in m && |m| <= MAX_TEXT && cut <= |m| && m[cut..] == Ten(sum) + [d] && (d == SOH || d == PIPE)
    requires e == Delimiter(m) && SegmentStart(m, e, cut) && fs == FieldsOf(m, e) && |fs| <= MAX_TAGS
    ensures PassesIff(Parse(m), fs, Checksum(m, cut))
  {
    var items := ItemsOf(Segments(m, e, 0));
    TrailerIsLast(m, cut, d, e, sum);
    AllKept(items, MAX_TAGS, 0);
    TenFound(items, 0);
    ChecksumPassesIff(m, KeptOf(m), LastTen(KeptOf(m), 0));
  }

  /** The sum that a change makes of the bytes before the trailer. */
  function SumAfter(m: Text, k: nat, b: Byte): int
    requires k < |m| - 7
  {
    (Checksum(m, |m| - 7) + b - m[k]) % 256
  }

  /**
   Exactly when a one-byte change passes the checksum, for changes that leave the trailer a segment of
   its own and fields that fit: when the first checksum field names the new sum.
   */
  lemma ByteChangePassesIff(cap: int, begin: Text, body: Text, d: Byte, m: Text, k: nat, b: Byte, m': Text, e: Byte, fs: seq<Field>)
    requires Build(cap, body, begin, d) == Built(m) && (d == SOH || d == PIPE)
    requires NUL !in m && |m| <= MAX_TEXT && k < |m| - 7 && b != NUL && m' == m[k := b]
    requires e == Delimiter(m') && SegmentStart(m', e, |m| - 7) && fs == FieldsOf(m', e) && |fs| <= MAX_TAGS
    ensures PassesIff(Parse(m'), fs, SumAfter(m, k, b))
  {
    var t := Head(begin, d, |body|) + body;
    BuildIs(cap, begin, body, d, m, t);
    ChangedPassesIff(t, d, m, k, b, m', e, fs, |m| - 7, SumAfter(m, k, b));
  }

  lemma ChangedPassesIff(t: Text, d: Byte, m: Text, k: nat, b: Byte, m': Text, e: Byte, fs: seq<Field>, cut: nat, sum: int)
    requires m == t + Trailer(t, d) && (d == SOH || d == PIPE) && cut == |m| - 7 && k < cut && sum == SumAfter(m, k, b)
    requires NUL !in m && |m| <= MAX_TEXT && b != NUL && m' == m[k := b]
    requires e == Delimiter(m') && SegmentStart(m', e, cut) && fs == FieldsOf(m', e) && |fs| <= MAX_TAGS
    ensures PassesIff(Parse(m'), fs, sum)
  {
    ChangedFacts(t, d, m, k, b, m', cut, sum, Checksum(t, |t|));
    PassesWith(m', cut, d, e, Checksum(t, |t|), fs, sum);
  }

  lemma PassesWith(m: Text, cut: nat, d: Byte, e: Byte, named: Byte, fs: seq<Field>, sum: int)
    requires NUL !in m && |m| <= MAX_TEXT && cut <= |m| && m[cut..] == Ten(named) + [d] && (d == SOH || d == PIPE)
    requires e == Delimiter(m) && SegmentStart(m, e, cut) && fs == FieldsOf(m, e) && |fs| <= MAX_TAGS
    requires Checksum(m, cut) == sum
    ensures PassesIff(Parse(m), fs, sum)
  {
    IntactTrailerPassesIff(m, cut, d, e, named, fs);
  }

  lemma ChangedFacts(t: Text, d: Byte, m: Text, k: nat, b: Byte, m': Text, cut: nat, sum: int, named: Byte)
    requires m == t + Trailer(t, d) && cut == |m| - 7 && k < cut && sum == SumAfter(m, k, b) && named == Checksum(t, |t|)
    requires NUL !in m && b != NUL && m' == m[k := b]
    ensures |m'| == |m| && NUL !in m' && cut == |t| && m'[cut..] == Ten(named) + [d] && Checksum(m', cut) == sum
  {
    KeepsTrailer(t, d, m, k, b, m');
    ChangedSum(m, k, b, cut);
  }

  lemma KeepsTrailer(t: Text, d: Byte, m: Text, k: nat, b: Byte, m': Text)
    requires m == t + Trailer(t, d) && k < |t| && NUL !in m && b != NUL && m' == m[k := b]
    ensures |m'| == |m| == |t| + 7 && NUL !in m' && m'[|t|..] == Ten(Checksum(t, |t|)) + [d]
  {
    ChangePrefix(t, Trailer(t, d), k, b);
  }

  lemma ChangedSum(m: Text, k: nat, b: Byte, n: nat)
    requires k < n <= |m|
    ensures Checksum(m[k := b], n) == (Checksum(m, n) + b - m[k]) % 256
  {
    ByteSumChange(m, k, b, n);
  }

  /** A text that starts with a built header: its first two items, and the rest from the body on. */
  lemma HeadItems(m: Text, begin: Text, d: Byte, len: nat, h: nat)
    requires h == |Head(begin, d, len)| <= |m| && m[..h] == Head(begin, d, len)
    requires (d == SOH || d == PIPE) && d !in begin && len < 10000
    ensures ItemsOf(Segments(m, d, 0))
            == [Item(|begin| + 2, Some(Field(8, Cut(begin))))]
               + ([Item(|Decimal(len)| + 2, Some(Field(9, Decimal(len))))] + ItemsOf(Segments(m, d, h)))
  {
    HeadSegments(m, begin, d, len, h, Segments(m, d, h));
    ItemsCons(Eight(begin), [Nine(len)] + Segments(m, d, h));
    ItemsCons(Nine(len), Segments(m, d, h));
    EightIs(begin);
    NineIs(len);
  }

  lemma HeadSegments(m: Text, begin: Text, d: Byte, len: nat, h: nat, rest: seq<Text>)
    requires h == |Head(begin, d, len)| <= |m| && m[..h] == Head(begin, d, len) && rest == Segments(m, d, h)
    requires (d == SOH || d == PIPE) && d !in begin
    ensures Segments(m, d, 0) == [Eight(begin)] + ([Nine(len)] + rest)
  {
    var e, n, p := Eight(begin), Nine(len), |begin| + 3;
    HeadFree(begin, len, d);
    HeadSplits(m, begin, d, len, h, e, n, p);
    OneSegment(m, d, 0, e, n + [d] + m[h..], p);
    OneSegment(m, d, p, n, m[h..], h);
  }

  lemma OneSegment(m: Text, d: Byte, pos: nat, seg: Text, rest: Text, next: nat)
    requires pos <= |m| && m[pos..] == seg + [d] + rest && d !in seg && next == pos + |seg| + 1
    ensures next <= |m| && Segments(m, d, pos) == [seg] + Segments(m, d, next)
  {
    NextSegment(m, pos, seg, rest, d);
    SegmentsCons(m, d, pos);
  }

  lemma HeadSplits(m: Text, begin: Text, d: Byte, len: nat, h: nat, e: Text, n: Text, p: nat)
    requires e == Eight(begin) && n == Nine(len) && p == |begin| + 3
    requires h == |Head(begin, d, len)| <= |m| && m[..h] == Head(begin, d, len)
    ensures m[0..] == e + [d] + (n + [d] + m[h..]) && p == |e| + 1 && h == p + |n| + 1 && m[p..] == n + [d] + m[h..]
  {
    assert m == m[..h] + m[h..];
    assert Head(begin, d, len) == e + [d] + (n + [d]);
  }

  /** After the header, items without tag 9 leave the start of the body where the first of them set it. */
  lemma {:induction false} BodyOffStays(st: Scan, off: nat, items: seq<Item>)
    requires !st.pendingBody && forall i | 0 <= i < |Fields(items)| :: Fields(items)[i].tag != 9
    ensures ScanItems(st, off, items).bodyOff == st.bodyOff
    decreases |items|
  {
    if items != [] && |st.fields| < MAX_TAGS {
      var here, rest := Few(items[0].field), Fields(items[1..]);
      assert Fields(items) == here + rest;
      assert forall i | 0 <= i < |rest| :: rest[i] == (here + rest)[|here| + i];
      assert here != [] ==> here[0] == (here + rest)[0];
      BodyOffStays(Absorb(st, off, items[0].field), off + items[0].len + 1, items[1..]);
    }
  }

  lemma BodyStarts(f8: Field, f9: Field, a: nat, b: nat, items: seq<Item>, all: seq<Item>)
    requires f8.tag == 8 && f9.tag == 9 && items != [] && all == [Item(a, Some(f8))] + ([Item(b, Some(f9))] + items)
    requires forall i | 0 <= i < |Fields(items)| :: Fields(items)[i].tag != 9
    ensures ScanItems(NO_SCAN, 0, all).bodyOff == a + b + 2 && Fields(all) == [f8, f9] + Fields(items)
  {
    var st, h := Scan([f8, f9], -1, -1, true), a + b + 2;
    ScanHead(f8, f9, a, b, items);
    PendingScan(st, h, items);
    BodyOffStays(st.(bodyOff := h, pendingBody := false), h, items);
    FieldsTwo(f8, f9, a, b, items);
  }

  lemma FieldsTwo(f8: Field, f9: Field, a: nat, b: nat, items: seq<Item>)
    ensures Fields([Item(a, Some(f8))] + ([Item(b, Some(f9))] + items)) == [f8, f9] + Fields(items)
  {
    var tail := [Item(b, Some(f9))] + items;
    assert tail[1..] == items && ([Item(a, Some(f8))] + tail)[1..] == tail;
    assert Fields(tail) == [f9] + Fields(items);
  }

  lemma ScanAll(items: seq<Item>)
    requires |Fields(items)| <= MAX_TAGS && LastTen(items, 0) >= 0
    ensures ScanItems(NO_SCAN, 0, items).fields == Fields(items) && ScanItems(NO_SCAN, 0, items).cksumOff == LastTen(items, 0)
  {
    AllKept(items, MAX_TAGS, 0);
    ScanKept(NO_SCAN, 0, items, Kept(items, MAX_TAGS));
    assert NO_SCAN.fields + Fields(items) == Fields(items);
  }

  /** Items of a built header, with no other tag 9, up to a last checksum field at the announced distance. */
  lemma ItemsLengthOk(m: Text, all: seq<Item>, items: seq<Item>, f8: Field, f9: Field, a: nat, b: nat, len: nat, fs: seq<Field>)
    requires f8.tag == 8 && f9 == Field(9, Decimal(len)) && items != []
    requires all == [Item(a, Some(f8))] + ([Item(b, Some(f9))] + items) && LastTen(all, 0) == a + b + 2 + len
    requires fs == Fields(all) && |fs| <= MAX_TAGS && forall i | 2 <= i < |fs| :: fs[i].tag != 9
    ensures LengthOk(Validate(m, ScanItems(NO_SCAN, 0, all)), fs)
  {
    FieldsTwo(f8, f9, a, b, items);
    assert forall i | 0 <= i < |Fields(items)| :: Fields(items)[i] == fs[i + 2];
    BodyStarts(f8, f9, a, b, items, all);
    ScanAll(all);
    LengthValidates(m, ScanItems(NO_SCAN, 0, all), f8, f9, Fields(items), a + b + 2, len);
  }

  /** A text with a built header, a last checksum field right after the body and no other tag 9 has the right body length. */
  lemma BodyLengthHolds(m: Text, begin: Text, d: Byte, len: nat, h: nat, all: seq<Item>, fs: seq<Field>)
    requires NUL !in m && |m| <= MAX_TEXT && Delimiter(m) == d && (d == SOH || d == PIPE) && d !in begin && len < 10000
    requires h == |Head(begin, d, len)| < |m| && m[..h] == Head(begin, d, len)
    requires all == ItemsOf(Segments(m, d, 0)) && LastTen(all, 0) == h + len
    requires fs == Fields(all) && |fs| <= MAX_TAGS && forall i | 2 <= i < |fs| :: fs[i].tag != 9
    ensures LengthOk(Parse(m), fs)
  {
    HeadItems(m, begin, d, len, h);
    RestIsThere(m, d, h);
    ParseIs(m, d, all);
    ItemsLengthOk(m, all, ItemsOf(Segments(m, d, h)), Field(8, Cut(begin)), Field(9, Decimal(len)),
                  |begin| + 2, |Decimal(len)| + 2, len, fs);
  }

  lemma RestIsThere(m: Text, d: Byte, h: nat)
    requires h < |m|
    ensures ItemsOf(Segments(m, d, h)) != []
  {
    SegmentsCons(m, d, h);
    ItemsCons(m[h..Find(m, d, h)], Segments(m, d, NextStart(m, d, h)));
  }

  lemma ParseIs(m: Text, d: Byte, items: seq<Item>)
    requires m != [] && NUL !in m && |m| <= MAX_TEXT && d == Delimiter(m) && items == ItemsOf(Segments(m, d, 0))
    ensures Parse(m) == Validate(m, ScanItems(NO_SCAN, 0, items))
  {
    ClipWhole(m);
  }

  /** The header fields are there and the body length is right. */
  predicate LengthOk(p: Parsed, fs: seq<Field>) {
    p.bodyValid && Has(fs, 8) && Has(fs, 9)
  }

  lemma ValidFrom(p: Parsed, fs: seq<Field>, sum: int)
    requires PassesIff(p, fs, sum) && LengthOk(p, fs)
    ensures ValidIff(p, fs, sum)
  {
  }

  /** Valid exactly with a message type and a first checksum field that names `sum`. */
  predicate ValidIff(p: Parsed, fs: seq<Field>, sum: int) {
    Has(fs, 10) && (IsValid(p) <==> Has(fs, 35) && Atoi(FindField(fs, 10).value.value) == sum)
  }

  lemma LengthValidates(m: Text, st: Scan, f8: Field, f9: Field, rest: seq<Field>, h: nat, len: nat)
    requires st.fields == [f8, f9] + rest && f8.tag == 8 && f9 == Field(9, Decimal(len))
    requires st.bodyOff == h && st.cksumOff == h + len
    ensures LengthOk(Validate(m, st), st.fields)
  {
    AtoiDecimal(len);
    var fs := st.fields;
    assert fs[0] == f8 && fs[1..][0] == f9;
    assert FindField(fs, 8) == Some(f8) && FindField(fs[1..], 9) == Some(f9) && FindField(fs, 9) == Some(f9);
  }

  /**
   Exactly when a one-byte change inside the body leaves a valid message: the trailer still a segment of
   its own, the fields fitting and none of them a second tag 9, it is valid if and only if it has a
   message type and its first checksum field names the new sum.
   */
  lemma BodyChangeValidIff(cap: int, begin: Text, body: Text, d: Byte, m: Text, k: nat, b: Byte, m': Text, fs: seq<Field>)
    requires Build(cap, body, begin, d) == Built(m) && (d == SOH || d == PIPE) && d !in begin
    requires NUL !in m && |m| <= MAX_TEXT && |Head(begin, d, |body|)| <= k < |m| - 7 && b != NUL && m' == m[k := b]
    requires Delimiter(m') == d && SegmentStart(m', d, |m| - 7)
    requires fs == FieldsOf(m', d) && |fs| <= MAX_TAGS && forall i | 2 <= i < |fs| :: fs[i].tag != 9
    ensures ValidIff(Parse(m'), fs, SumAfter(m, k, b))
  {
    var head := Head(begin, d, |body|);
    BuildIs(cap, begin, body, d, m, head + body);
    ChangedValidIff(head + body, head, begin, body, d, m, k, b, m', fs, |m| - 7, SumAfter(m, k, b));
  }

  lemma ChangedValidIff(t: Text, head: Text, begin: Text, body: Text, d: Byte, m: Text, k: nat, b: Byte, m': Text, fs: seq<Field>,
                        cut: nat, sum: int)
    requires head == Head(begin, d, |body|) && t == head + body && m == t + Trailer(t, d) && cut == |m| - 7
    requires (d == SOH || d == PIPE) && d !in begin
    requires NUL !in m && |m| <= MAX_TEXT && |head| <= k < cut && b != NUL && m' == m[k := b] && sum == SumAfter(m, k, b)
    requires Delimiter(m') == d && SegmentStart(m', d, cut)
    requires fs == FieldsOf(m', d) && |fs| <= MAX_TAGS && forall i | 2 <= i < |fs| :: fs[i].tag != 9
    ensures ValidIff(Parse(m'), fs, sum)
  {
    ChangedFacts(t, d, m, k, b, m', cut, sum, Checksum(t, |t|));
    KeepsHead(t, head, body, d, m, k, b, m');
    ValidWith(m', begin, d, |body|, |head|, cut, Checksum(t, |t|), fs, sum);
  }

  /** The same, of the changed text alone. */
  lemma ValidWith(m: Text, begin: Text, d: Byte, len: nat, h: nat, cut: nat, named: Byte, fs: seq<Field>, sum: int)
    requires NUL !in m && |m| <= MAX_TEXT && Delimiter(m) == d && (d == SOH || d == PIPE) && d !in begin
    requires h == |Head(begin, d, len)| && cut == h + len < |m| && m[..h] == Head(begin, d, len)
    requires m[cut..] == Ten(named) + [d] && SegmentStart(m, d, cut) && Checksum(m, cut) == sum
    requires fs == FieldsOf(m, d) && |fs| <= MAX_TAGS && forall i | 2 <= i < |fs| :: fs[i].tag != 9
    ensures ValidIff(Parse(m), fs, sum)
  {
    PassesWith(m, cut, d, d, named, fs, sum);
    TrailerIsLast(m, cut, d, d, named);
    BodyLengthHolds(m, begin, d, len, h, ItemsOf(Segments(m, d, 0)), fs);
    ValidFrom(Parse(m), fs, sum);
  }

  lemma KeepsHead(t: Text, head: Text, body: Text, d: Byte, m: Text, k: nat, b: Byte, m': Text)
    requires t == head + body && m == t + Trailer(t, d) && |head| <= k < |t| && m' == m[k := b]
    ensures m'[..|head|] == head
  {
  }

  /** `35=Q|20=5|` and the message text `8=|9=10|35=Q|20=5|` before its trailer. */
  const BODY: Text := [51, 53, 61, 81, 124, 50, 48, 61, 53, 124]
  const TEXT: Text := [56, 61, 124, 57, 61, 49, 48, 124, 51, 53, 61, 81, 124, 50, 48, 61, 53, 124]

  lemma ForgedFields()
    ensures ItemOf([51, 53, 61, 81]) == Item(4, Some(Field(35, [81]))) && ItemOf([49, 48, 61, 53]) == Item(4, Some(Field(10, [53])))
  {
    assert Decimal(3) == [51] && Decimal(1) == [49];
    assert Decimal(35) == [51, 53] && Decimal(10) == [49, 48];
    SegmentRoundTrip(Field(35, [81]), PIPE);
    SegmentRoundTrip(Field(10, [53]), PIPE);
    assert SegmentOf(Field(35, [81])) == [51, 53, 61, 81];
    assert SegmentOf(Field(10, [53])) == [49, 48, 61, 53];
  }

  lemma ForgedScan(f8: Field, f9: Field, f35: Field, a: Field, b: Field)
    requires f8.tag == 8 && f9.tag == 9 && f35.tag == 35 && a.tag == 10 && b.tag == 10
    ensures ScanItems(NO_SCAN, 0, [Item(2, Some(f8))] + ([Item(4, Some(f9))] + [Item(4, Some(f35)), Item(4, Some(a)), Item(6, Some(b))]))
            == Scan([f8, f9, f35, a, b], 18, 8, false)
  {
    var rest := [Item(4, Some(f35)), Item(4, Some(a)), Item(6, Some(b))];
    ScanHead(f8, f9, 2, 4, rest);
    var st := Scan([f8, f9], -1, -1, true);
    var st1 := Absorb(st, 8, Some(f35));
    assert st1 == Scan([f8, f9, f35], -1, 8, false);
    var st2 := Absorb(st1, 13, Some(a));
    assert st2 == Scan([f8, f9, f35, a], 13, 8, false);
    assert rest[1..] == [Item(4, Some(a)), Item(6, Some(b))] && rest[1..][1..] == [Item(6, Some(b))];
    ScanOne(st2, 18, Item(6, Some(b)));
    assert ScanItems(st, 8, rest) == ScanItems(st1, 13, rest[1..]) == ScanItems(st2, 18, rest[1..][1..]);
  }

  lemma TextSum(t: Text, c: Byte)
    requires t == TEXT[13 := c]
    ensures ByteSum(t, 18) == 1236 + c
  {
    assert ByteSum(t, 0) == 0 && ByteSum(t, 1) == 56;
    assert ByteSum(t, 2) == 117;
    assert ByteSum(t, 4) == 298;
    assert ByteSum(t, 6) == 408;
    assert ByteSum(t, 8) == 580;
    assert ByteSum(t, 10) == 684;
    assert ByteSum(t, 12) == 826;
    assert ByteSum(t, 14) == 950 + c;
    assert ByteSum(t, 16) == 1059 + c;
  }

  lemma ForgedHead()
    ensures Eight([]) == [56, 61] && Nine(10) == [57, 61, 49, 48]
    ensures Head([], PIPE, 10) == [56, 61, 124, 57, 61, 49, 48, 124]
  {
    assert Decimal(1) == [49];
    assert Decimal(10) == [49, 48];
  }

  lemma ForgedText(t: Text)
    requires t == TEXT
    ensures Head([], PIPE, |BODY|) + BODY == t && Checksum(t, |t|) == 6 && Checksum(t[13 := 49], |t|) == 5
    ensures Build(64, BODY, [], PIPE) == Built(t + Trailer(t, PIPE))
  {
    ForgedHead();
    assert TEXT == [56, 61, 124, 57, 61, 49, 48, 124] + BODY;
    assert t == TEXT[13 := 50];
    TextSum(t, 50);
    TextSum(t[13 := 49], 49);
  }

  /**
   The exception is real: changing the tag 20 of `8=|9=10|35=Q|20=5|10=006|` into a second tag 10
   leaves a message that passes every check.
   */
  lemma TagChangeUndetected() returns (m: Text)
    ensures Build(64, BODY, [], PIPE) == Built(m) && |m| == 25 && m[13] == 50
    ensures IsValid(Parse(m[13 := 49]))
  {
    var t := TEXT;
    ForgedText(t);
    m := ForgedMessage(t);
  }

  lemma ForgedShape(t: Text, m: Text)
    requires t == TEXT && m == t + Trailer(t, PIPE) && Checksum(t, |t|) == 6
    ensures |m| == 25 && m[13] == 50 && m[13 := 49] == t[13 := 49] + (Ten(6) + [PIPE])
  {
    ChangePrefix(t, Trailer(t, PIPE), 13, 49);
  }

  lemma ForgedMessage(t: Text) returns (m: Text)
    requires t == TEXT && Checksum(t, |t|) == 6 && Checksum(t[13 := 49], |t|) == 5
    ensures m == t + Trailer(t, PIPE) && |m| == 25 && m[13] == 50 && IsValid(Parse(m[13 := 49]))
  {
    m := t + Trailer(t, PIPE);
    ForgedShape(t, m);
    ForgedParse(t[13 := 49], m[13 := 49]);
  }

  lemma ForgedJoin(t: Text, front: seq<Text>)
    requires t == TEXT[13 := 49]
    requires front == [Eight([]), Nine(10), [51, 53, 61, 81], [49, 48, 61, 53]]
    ensures Join(front, PIPE) == t && Free(front, PIPE)
  {
    HeadFree([], 10, PIPE);
    ForgedHead();
    JoinFour(Eight([]), Nine(10), [51, 53, 61, 81], [49, 48, 61, 53], PIPE);
  }

  lemma JoinFour(a: Text, b: Text, c: Text, e: Text, d: Byte)
    ensures Join([a, b, c, e], d) == a + [d] + (b + [d] + (c + [d] + (e + [d])))
  {
    JoinOne(e, d);
    assert [c] + [e] == [c, e] && [b] + [c, e] == [b, c, e] && [a] + [b, c, e] == [a, b, c, e];
    JoinCons(c, [e], d);
    JoinCons(b, [c, e], d);
    JoinCons(a, [b, c, e], d);
  }

  lemma ForgedItems(front: seq<Text>)
    requires front == [Eight([]), Nine(10), [51, 53, 61, 81], [49, 48, 61, 53]]
    ensures ItemsOf(front) + [ItemOf(Ten(6))]
            == [Item(2, Some(Field(8, [])))] + ([Item(4, Some(Field(9, Decimal(10))))]
               + [Item(4, Some(Field(35, [81]))), Item(4, Some(Field(10, [53]))), Item(6, Some(Field(10, ThreeDigits(6))))])
  {
    EightIs([]);
    NineIs(10);
    ForgedFields();
    TenIs(6);
    ForgedHead();
    forall i: nat | i < 4 ensures ItemsOf(front)[i] == ItemOf(front[i]) {
      ItemsAt(front, i);
    }
  }

  lemma ForgedParse(t: Text, m: Text)
    requires t == TEXT[13 := 49] && m == t + (Ten(6) + [PIPE]) && Checksum(t, |t|) == 5
    ensures IsValid(Parse(m))
  {
    var front: seq<Text> := [Eight([]), Nine(10), [51, 53, 61, 81], [49, 48, 61, 53]];
    var f8, f9, f35, a, b := Field(8, []), Field(9, Decimal(10)), Field(35, [81]), Field(10, [53]), Field(10, ThreeDigits(6));
    ForgedJoin(t, front);
    ForgedClean(t, m);
    ParseWithTrailer(t, front, PIPE, 6, m);
    ForgedItems(front);
    ForgedScan(f8, f9, f35, a, b);
    PrefixChecksum(t, Ten(6) + [PIPE]);
    ForgedValid(m, f8, f9, f35, a, b);
  }

  lemma ForgedClean(t: Text, m: Text)
    requires t == TEXT[13 := 49] && m == t + (Ten(6) + [PIPE])
    ensures Clean(m, PIPE)
  {
    NoDigitIs(ThreeDigits(6), NUL);
    NoDigitIs(ThreeDigits(6), SOH);
    assert NUL !in t && SOH !in t;
    assert m[2] == t[2] == PIPE;
  }

  lemma ForgedValid(m: Text, f8: Field, f9: Field, f35: Field, a: Field, b: Field)
    requires f8.tag == 8 && f9 == Field(9, Decimal(10)) && f35.tag == 35 && a == Field(10, [53]) && b.tag == 10
    requires |m| >= 18 && Checksum(m, 18) == 5
    ensures IsValid(Validate(m, Scan([f8, f9, f35, a, b], 18, 8, false)))
  {
    AtoiDecimal(10);
    AtoiDecimal(5);
    assert Decimal(5) == [53];
    var fs := [f8, f9, f35, a, b];
    assert fs[1..] == [f9, f35, a, b] && fs[1..][1..] == [f35, a, b] && fs[1..][1..][1..] == [a, b];
    assert FindField([a, b], 10) == Some(a) && FindField([f35, a, b], 10) == Some(a) && FindField([f35, a, b], 35) == Some(f35);
    assert FindField([f9, f35, a, b], 10) == Some(a) && FindField([f9, f35, a, b], 35) == Some(f35) && FindField([f9, f35, a, b], 9) == Some(f9);
  }
}
