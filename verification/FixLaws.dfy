/**
 What the parser keeps of an arbitrary text, stated on the text itself: how much of it is read, which
 segments are fields, how numbers are read, how many fields are kept, and what validity asks for.
 */
module FixLaws {
  import opened Numbers
  import opened FixText
  import opened FixMessage
  import opened FixRoundTrip

  /** The longest prefix of at most 1023 bytes without a NUL. */
  lemma ClipLaw(raw: Text)
    ensures var t := Clip(raw);
            && t <= raw && |t| <= 1023 && NUL !in t
            && (|t| == |raw| || |t| == 1023 || raw[|t|] == NUL)
  {
    FindSkips(raw, NUL, 0);
  }

  // ---------------------------------------------------------------- numbers

  predicate Blank(s: Text) {
    forall i | 0 <= i < |s| :: Space(s[i])
  }

  lemma {:induction false} SpacesSkip(pad: Text, rest: Text, from: nat)
    requires Blank(pad) && from <= |pad| && (rest == [] || !Space(rest[0]))
    ensures SpacesEnd(pad + rest, from) == |pad|
    decreases |pad| - from
  {
    var s := pad + rest;
    if from < |pad| {
      assert s[from] == pad[from];
      SpacesSkip(pad, rest, from + 1);
    } else if rest != [] {
      assert s[from] == rest[0];
    }
  }

  lemma {:induction false} DigitsSkip(lead: Text, digits: Text, rest: Text, from: nat)
    requires AllDigits(digits) && |lead| <= from <= |lead| + |digits| && (rest == [] || !Digit(rest[0]))
    ensures DigitsEnd(lead + digits + rest, from) == |lead| + |digits|
    decreases |lead| + |digits| - from
  {
    var s := lead + digits + rest;
    if from < |lead| + |digits| {
      assert s[from] == digits[from - |lead|];
      DigitsSkip(lead, digits, rest, from + 1);
    } else if rest != [] {
      assert s[from] == rest[0];
    }
  }

  lemma SignedNumber(pad: Text, sign: Byte, digits: Text, rest: Text)
    requires Blank(pad) && AllDigits(digits) && (rest == [] || !Digit(rest[0])) && (sign == 43 || sign == 45)
    ensures Atoi(pad + ([sign] + digits + rest)) == if sign == 45 then -Number(digits) else Number(digits)
  {
    var s := pad + ([sign] + digits + rest);
    SpacesSkip(pad, [sign] + digits + rest, 0);
    DigitsSkip(pad + [sign], digits, rest, |pad| + 1);
    assert s == pad + [sign] + digits + rest;
    assert s[|pad|] == sign && s[|pad| + 1..|pad| + 1 + |digits|] == digits;
  }

  lemma PlainNumber(pad: Text, digits: Text, rest: Text)
    requires Blank(pad) && AllDigits(digits) && digits != [] && (rest == [] || !Digit(rest[0]))
    ensures Atoi(pad + (digits + rest)) == Number(digits)
  {
    var s := pad + (digits + rest);
    assert (digits + rest)[0] == digits[0];
    SpacesSkip(pad, digits + rest, 0);
    DigitsSkip(pad, digits, rest, |pad|);
    assert s == pad + digits + rest;
    assert s[|pad|] == digits[0] && s[|pad|..|pad| + |digits|] == digits;
  }

  /** A number is read past blanks and one sign, up to the first byte that is not a digit, whatever follows. */
  lemma AtoiLaw(pad: Text, n: nat, rest: Text)
    requires Blank(pad) && (rest == [] || !Digit(rest[0]))
    ensures Atoi(pad + (Decimal(n) + rest)) == n
    ensures Atoi(pad + ([43] + Decimal(n) + rest)) == n
    ensures Atoi(pad + ([45] + Decimal(n) + rest)) == 0 - n
  {
    NumberDecimal(n);
    PlainNumber(pad, Decimal(n), rest);
    SignedNumber(pad, 43, Decimal(n), rest);
    SignedNumber(pad, 45, Decimal(n), rest);
  }

  // ---------------------------------------------------------------- fields

  /** Text, an equals sign and a value make a field exactly when the text reads as a positive number; values keep 31 bytes. */
  lemma FieldLaw(tag: Text, value: Text)
    requires EQUALS !in tag
    ensures FieldOf(tag + [EQUALS] + value)
            == if tag != [] && Atoi(tag) > 0 then Some(Field(Atoi(tag), value[..Min(|value|, 31)])) else None
  {
    var seg := tag + [EQUALS] + value;
    assert forall j | 0 <= j < |tag| :: seg[j] == tag[j];
    FindIs(seg, EQUALS, 0, |tag|);
    assert seg[..|tag|] == tag && seg[|tag| + 1..] == value && value[..|value|] == value;
  }

  /** Without an equals sign there is no field. */
  lemma NoFieldLaw(seg: Text)
    requires EQUALS !in seg
    ensures FieldOf(seg) == None
  {
    FindIs(seg, EQUALS, 0, |seg|);
  }

  lemma {:induction false} KeptFields(items: seq<Item>, room: nat)
    ensures Fields(Kept(items, room)) == Fields(items)[..Min(room, |Fields(items)|)]
    decreases |items|
  {
    if items != [] && room > 0 {
      KeptCons(items, room, 0);
      KeptFields(items[1..], if items[0].field.Some? then room - 1 else room);
    }
  }

  /** The parser keeps the first 32 fields of what it reads, in order. */
  lemma FieldsLaw(raw: Text, t: Text, all: seq<Field>)
    requires t == Clip(raw) && all == FieldsOf(t, Delimiter(t))
    ensures Parse(raw).fields == all[..Min(32, |all|)]
  {
    if t == [] {
      assert Segments(t, Delimiter(t), 0) == [];
    } else {
      var items := ItemsOf(Segments(t, Delimiter(t), 0));
      ScanKept(NO_SCAN, 0, items, Kept(items, 32));
      KeptFields(items, 32);
      assert NO_SCAN.fields + Fields(Kept(items, 32)) == Fields(Kept(items, 32));
    }
  }

  // ---------------------------------------------------------------- the body length

  predicate IsNine(it: Item) {
    it.field.Some? && it.field.value.tag == 9
  }

  /** Where the segment after the last length field starts, among items from offset `off` on, or -1. */
  function AfterNine(items: seq<Item>, off: nat): int {
    if |items| < 2 then -1
    else
      var next := off + items[0].len + 1;
      var later := AfterNine(items[1..], next);
      if later >= 0 then later else if IsNine(items[0]) then next else -1
  }

  lemma AfterNineCons(it: Item, rest: seq<Item>, off: nat)
    ensures var next := off + it.len + 1;
            AfterNine([it] + rest, off)
            == if AfterNine(rest, next) >= 0 then AfterNine(rest, next) else if rest != [] && IsNine(it) then next else -1
  {
    assert ([it] + rest)[1..] == rest;
  }

  lemma {:induction false} ScanBody(st: Scan, off: nat, items: seq<Item>, kept: seq<Item>)
    requires |st.fields| <= MAX_TAGS && kept == Kept(items, MAX_TAGS - |st.fields|)
    ensures ScanItems(st, off, items).bodyOff
            == if AfterNine(kept, off) >= 0 then AfterNine(kept, off)
               else if st.pendingBody && kept != [] then off else st.bodyOff
    decreases |items|
  {
    if items != [] && |st.fields| < MAX_TAGS {
      var st' := Absorb(st, off, items[0].field);
      var rest := Kept(items[1..], MAX_TAGS - |st'.fields|);
      AfterNineCons(items[0], rest, off);
      ScanBody(st', off + items[0].len + 1, items[1..], rest);
    }
  }

  /** The body length is judged between these two offsets, by the first length field. */
  predicate LengthIff(p: Parsed, start: int, last: int) {
    && (p.bodyPresent <==> Has(p.fields, 9) && 0 <= start <= last)
    && (p.bodyPresent ==> p.computedBody == last - start)
    && (p.bodyValid <==> p.bodyPresent && Atoi(FindField(p.fields, 9).value.value) == last - start)
  }

  lemma ValidateLength(t: Text, st: Scan)
    ensures LengthIff(Validate(t, st), st.bodyOff, st.cksumOff) && Validate(t, st).fields == st.fields
  {
  }

  lemma ParseWhole(m: Text)
    requires m != [] && NUL !in m && |m| <= MAX_TEXT
    ensures Parse(m) == Validate(m, ScanItems(NO_SCAN, 0, ItemsOf(Segments(m, Delimiter(m), 0))))
  {
    ClipWhole(m);
  }

  /**
   For every text the parser reads whole: the length is present if and only if a length field is kept and
   a checksum field is kept behind the segment that follows the last one, and passes if and only if the
   first length field names the distance between the two.
   */
  lemma LengthPassesIff(m: Text, kept: seq<Item>, start: int, last: int)
    requires m != [] && NUL !in m && |m| <= MAX_TEXT && kept == KeptOf(m)
    requires start == AfterNine(kept, 0) && last == LastTen(kept, 0)
    ensures Parse(m).fields == Fields(kept) && LengthIff(Parse(m), start, last)
  {
    var items := ItemsOf(Segments(m, Delimiter(m), 0));
    ParseWhole(m);
    ValidateLength(m, ScanItems(NO_SCAN, 0, items));
    WholeScan(items, kept, ScanItems(NO_SCAN, 0, items), start, last);
  }

  lemma WholeScan(items: seq<Item>, kept: seq<Item>, st: Scan, start: int, last: int)
    requires kept == Kept(items, MAX_TAGS) && st == ScanItems(NO_SCAN, 0, items)
    requires start == AfterNine(kept, 0) && last == LastTen(kept, 0)
    ensures st.fields == Fields(kept)
    ensures st.bodyOff == start || (start < 0 && st.bodyOff == -1)
    ensures st.cksumOff == last || (last < 0 && st.cksumOff == -1)
  {
    ScanKept(NO_SCAN, 0, items, kept);
    ScanBody(NO_SCAN, 0, items, kept);
    assert NO_SCAN.fields + Fields(kept) == Fields(kept);
  }

  // ---------------------------------------------------------------- validity and building

  ghost predicate Appears(fs: seq<Field>, tag: int) {
    exists i | 0 <= i < |fs| :: fs[i].tag == tag
  }

  /** A look-up finds the first field with the tag, if there is one. */
  lemma {:induction false} FindFieldIsFirst(fs: seq<Field>, tag: int)
    ensures Has(fs, tag) <==> Appears(fs, tag)
    ensures Has(fs, tag) ==> exists i | 0 <= i < |fs| :: fs[i] == FindField(fs, tag).value && FirstWith(fs, tag, i)
  {
    if fs != [] {
      if fs[0].tag == tag {
        assert FirstWith(fs, tag, 0);
      } else {
        FindFieldIsFirst(fs[1..], tag);
        if Has(fs, tag) {
          var i :| 0 <= i < |fs[1..]| && fs[1..][i] == FindField(fs[1..], tag).value && FirstWith(fs[1..], tag, i);
          FirstLater(fs, tag, i);
          assert fs[i + 1] == FindField(fs, tag).value && FirstWith(fs, tag, i + 1);
        } else {
          assert forall i | 0 < i < |fs| :: fs[i] == fs[1..][i - 1];
        }
      }
    }
  }

  ghost predicate FirstWith(fs: seq<Field>, tag: int, i: int) {
    0 <= i < |fs| && fs[i].tag == tag && forall j | 0 <= j < i :: fs[j].tag != tag
  }

  lemma FirstLater(fs: seq<Field>, tag: int, i: int)
    requires fs != [] && fs[0].tag != tag && FirstWith(fs[1..], tag, i)
    ensures FirstWith(fs, tag, i + 1)
  {
    assert forall j | 0 < j < |fs| :: fs[j] == fs[1..][j - 1];
  }

  /** A message is valid exactly when it has each of the four framing tags and both checks passed. */
  lemma ValidLaw(p: Parsed)
    ensures IsValid(p) <==>
              && p.cksumValid && p.bodyValid
              && Appears(p.fields, 8) && Appears(p.fields, 9) && Appears(p.fields, 35) && Appears(p.fields, 10)
  {
    FindFieldIsFirst(p.fields, 8);
    FindFieldIsFirst(p.fields, 9);
    FindFieldIsFirst(p.fields, 35);
    FindFieldIsFirst(p.fields, 10);
  }

  /** The buffer is refused exactly when header, body and sixteen bytes do not fit; a built message has these lengths. */
  lemma BuildLaw(cap: int, body: Text, begin: Text, d: Byte)
    ensures var head := |begin| + |Decimal(|body|)| + 6;
            && (Build(cap, body, begin, d) == TooSmall <==> head + |body| + 16 > cap)
            && (Build(cap, body, begin, d) == Overrun <==> head + |body| + 16 <= cap && head >= 64)
            && (Build(cap, body, begin, d).Built? ==>
                  |Build(cap, body, begin, d).text| == head + |body| + 7 && |Build(cap, body, begin, d).text| < cap)
  {
  }
}
