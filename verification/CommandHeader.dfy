/**
 The command header: a 32-bit word packed from six bit fields.
 */
module Headers {
  import opened Bits
  import opened Utils

  const HEADER_SIZE := 4

  /** A value to be packed and the number of bits it gets. */
  datatype Field = Field(value: uint32, width: nat)

  /** writeBits as a function of the destination word. */
  function Written(destination: uint32, field: Field): uint32 {
    AsUint32(Or(ShiftLeft(destination, field.width), And(field.value, Mask(field.width))))
  }

  /** readBits: the value read, and the source word left behind. */
  function ReadOff(source: uint32, width: nat): (uint32, uint32) {
    (AsUint32(And(source, Mask(width))), ShiftRight(source, width))
  }

  /** writeBits over a list of fields, first field first. */
  function WriteAll(destination: uint32, fields: seq<Field>): uint32 {
    if fields == [] then destination
    else Written(WriteAll(destination, fields[..|fields| - 1]), fields[|fields| - 1])
  }

  /** readBits over the widths of a list, last field first; the values are listed in field order. */
  function ReadBack(source: uint32, widths: seq<nat>): (r: (seq<uint32>, uint32))
    ensures |r.0| == |widths|
    decreases |widths|
  {
    if widths == [] then ([], source)
    else
      var (value, rest) := ReadOff(source, widths[|widths| - 1]);
      var (values, bottom) := ReadBack(rest, widths[..|widths| - 1]);
      (values + [value], bottom)
  }

  function Widths(fields: seq<Field>): seq<nat> { seq(|fields|, i requires 0 <= i < |fields| => fields[i].width) }

  function Reduced(fields: seq<Field>): (values: seq<uint32>)
    ensures |values| == |fields|
  {
    seq(|fields|, i requires 0 <= i < |fields| => ReducedValue(fields[i]))
  }

  function ReducedValue(field: Field): uint32 {
    ModShrinks(field.value, Pow2(field.width));
    field.value % Pow2(field.width)
  }

  function Zipped(values: seq<uint32>, widths: seq<nat>): seq<Field>
    requires |values| == |widths|
  {
    seq(|values|, i requires 0 <= i < |values| => Field(values[i], widths[i]))
  }

  function Total(widths: seq<nat>): nat {
    if widths == [] then 0 else Total(widths[..|widths| - 1]) + widths[|widths| - 1]
  }

  ghost predicate NarrowWidths(widths: seq<nat>) { forall i :: 0 <= i < |widths| ==> widths[i] < 32 }

  lemma ModShrinks(x: nat, d: int)
    requires d > 0
    ensures 0 <= x % d <= x
  {
    DivShrinks(x, d);
    var q := x / d;
    assert x == q * d + x % d;
    assert q * d >= 0;
  }

  lemma InRange(x: int)
    requires 0 <= x < UINT32_RANGE
    ensures AsUint32(x) == x
  {
  }

  lemma Pow2Monotone(m: nat, n: nat)
    requires m <= n
    ensures Pow2(m) <= Pow2(n)
    decreases n
  {
    if m < n {
      Pow2Monotone(m, n - 1);
    }
  }

  lemma Pow2Of32()
    ensures Pow2(32) == UINT32_RANGE
  {
    assert Pow2(8) == 0x100;
    Pow2Sum(8, 8);
    Pow2Sum(16, 16);
  }

  lemma ProductBound(x: nat, limit: nat, p: nat, low: nat)
    requires x < limit && low < p
    ensures 0 <= x * p && x * p + low < limit * p
  {
    assert (limit - x - 1) * p >= 0;
    assert (limit - x - 1) * p == limit * p - x * p - p;
  }

  /** Appending n bits to a word of m bits gives a word of m + n bits. */
  lemma AppendedBits(x: nat, m: nat, low: nat, n: nat)
    requires x < Pow2(m) && low < Pow2(n) && m + n <= 32
    ensures 0 <= x * Pow2(n) <= x * Pow2(n) + low < Pow2(m + n) <= UINT32_RANGE
  {
    ProductBound(x, Pow2(m), Pow2(n), low);
    Pow2Sum(m, n);
    Pow2Monotone(m + n, 32);
    Pow2Of32();
  }

  lemma ModBound(x: nat, d: int)
    requires d > 0
    ensures 0 <= x % d < d
  {
  }

  /** While no set bit is shifted out, a write appends the low bits of the value to the destination. */
  lemma WrittenValue(destination: uint32, field: Field, used: nat)
    requires field.width < 32
    requires destination < Pow2(used) && used + field.width <= 32
    ensures 0 <= destination * Pow2(field.width)
    ensures var appended := destination * Pow2(field.width) + ReducedValue(field);
            Written(destination, field) == appended < Pow2(used + field.width)
  {
    var low := ReducedValue(field);
    ModBound(field.value, Pow2(field.width));
    AppendedBits(destination, used, low, field.width);
    MaskValue(field.width);
    AndMask(field.value, field.width);
    OrDisjoint(destination, low, field.width);
    InRange(destination * Pow2(field.width));
    InRange(destination * Pow2(field.width) + low);
  }

  lemma ReadOffValue(source: uint32, width: nat)
    requires width < 32
    ensures ReadOff(source, width).0 == source % Pow2(width)
    ensures ReadOff(source, width).1 == source / Pow2(width)
  {
    MaskValue(width);
    AndMask(source, width);
    ModShrinks(source, Pow2(width));
    InRange(source % Pow2(width));
  }

  lemma ReadUndoesWrite(destination: uint32, field: Field, used: nat)
    requires field.width < 32
    requires destination < Pow2(used) && used + field.width <= 32
    ensures ReadOff(Written(destination, field), field.width) == (ReducedValue(field), destination)
  {
    var p := Pow2(field.width);
    WrittenValue(destination, field, used);
    ReadOffValue(Written(destination, field), field.width);
    ModBound(field.value, p);
    ModUnique(Written(destination, field), p, destination, ReducedValue(field));
  }

  lemma QuotientBelow(x: nat, p: int, limit: nat)
    requires p > 0 && x < limit * p
    ensures x / p < limit
  {
    var q := x / p;
    DivMod(x, p);
    assert (q - limit) * p == q * p - limit * p;
    if q >= limit {
      ProductNonNegative(q - limit, p);
    }
  }

  lemma QuotientBits(source: nat, width: nat, used: nat)
    requires source < Pow2(used) && width <= used
    ensures source / Pow2(width) < Pow2(used - width)
  {
    Pow2Sum(used - width, width);
    QuotientBelow(source, Pow2(width), Pow2(used - width));
  }

  lemma ProductNonNegative(x: nat, y: nat)
    ensures x * y >= 0
  {
  }

  lemma WriteUndoesRead(source: uint32, width: nat)
    requires width < 32
    ensures Written(ReadOff(source, width).1, Field(ReadOff(source, width).0, width)) == source
  {
    ReadOffValue(source, width);
    var (value, rest) := ReadOff(source, width);
    Pow2Of32();
    QuotientBits(source, width, 32);
    ReducedTwice(source, width, value);
    WrittenValue(rest, Field(value, width), 32 - width);
    DivMod(source, Pow2(width));
  }

  lemma DivMod(x: nat, d: int)
    requires d > 0
    ensures x == x / d * d + x % d
  {
  }

  lemma ReducedTwice(source: uint32, width: nat, value: uint32)
    requires value == source % Pow2(width)
    ensures ReducedValue(Field(value, width)) == value
  {
    ModBound(source, Pow2(width));
    ModUnique(value, Pow2(width), 0, value);
  }

  lemma {:induction false} WriteAllStaysBelow(destination: uint32, fields: seq<Field>, used: nat)
    requires NarrowWidths(Widths(fields))
    requires destination < Pow2(used) && used + Total(Widths(fields)) <= 32
    ensures WriteAll(destination, fields) < Pow2(used + Total(Widths(fields)))
  {
    if fields != [] {
      var front, f := fields[..|fields| - 1], fields[|fields| - 1];
      WidthsOfFront(fields);
      WriteAllStaysBelow(destination, front, used);
      WrittenValue(WriteAll(destination, front), f, used + Total(Widths(front)));
    }
  }

  lemma WidthsOfFront(fields: seq<Field>)
    requires fields != []
    ensures Widths(fields)[..|fields| - 1] == Widths(fields[..|fields| - 1])
    ensures Total(Widths(fields)) == Total(Widths(fields[..|fields| - 1])) + fields[|fields| - 1].width
    ensures Reduced(fields) == Reduced(fields[..|fields| - 1]) + [ReducedValue(fields[|fields| - 1])]
  {
    assert Widths(fields)[..|fields| - 1] == Widths(fields[..|fields| - 1]);
  }

  /**
   Stack law. Fields written above the bits a word already uses come back in reverse
   order, each reduced to its width, and the bits beneath them are untouched, for every
   list of fields the word has room for.
   */
  lemma {:induction false} StackLaw(destination: uint32, fields: seq<Field>, used: nat)
    requires NarrowWidths(Widths(fields))
    requires destination < Pow2(used) && used + Total(Widths(fields)) <= 32
    ensures ReadBack(WriteAll(destination, fields), Widths(fields)) == (Reduced(fields), destination)
    decreases |fields|
  {
    if fields != [] {
      var front, f := fields[..|fields| - 1], fields[|fields| - 1];
      WidthsOfFront(fields);
      WriteAllStaysBelow(destination, front, used);
      ReadUndoesWrite(WriteAll(destination, front), f, used + Total(Widths(front)));
      StackLaw(destination, front, used);
    }
  }

  /** Converse: writing back what was read, over what was left, restores any word. */
  lemma {:induction false} UnstackLaw(source: uint32, widths: seq<nat>, values: seq<uint32>, bottom: uint32)
    requires NarrowWidths(widths)
    requires ReadBack(source, widths) == (values, bottom)
    ensures WriteAll(bottom, Zipped(values, widths)) == source
    decreases |widths|
  {
    if widths == [] {
      assert Zipped(values, widths) == [];
    } else {
      var front, w := widths[..|widths| - 1], widths[|widths| - 1];
      var (value, rest) := ReadOff(source, w);
      ReadBackSnoc(source, widths);
      var shallower := ReadBack(rest, front).0;
      UnstackLaw(rest, front, shallower, bottom);
      WriteUndoesRead(source, w);
      WriteZippedSnoc(bottom, shallower, value, widths);
    }
  }

  lemma WriteZippedSnoc(bottom: uint32, values: seq<uint32>, value: uint32, widths: seq<nat>)
    requires |values| + 1 == |widths|
    ensures WriteAll(bottom, Zipped(values + [value], widths))
         == Written(WriteAll(bottom, Zipped(values, widths[..|widths| - 1])), Field(value, widths[|widths| - 1]))
  {
    ZippedSnoc(values, value, widths);
    WriteAllSnoc(bottom, Zipped(values, widths[..|widths| - 1]), Field(value, widths[|widths| - 1]));
  }

  lemma ReadBackSnoc(source: uint32, widths: seq<nat>)
    requires widths != []
    ensures var (value, rest) := ReadOff(source, widths[|widths| - 1]);
            var (values, bottom) := ReadBack(rest, widths[..|widths| - 1]);
            ReadBack(source, widths) == (values + [value], bottom)
  {
  }

  lemma ZippedSnoc(values: seq<uint32>, value: uint32, widths: seq<nat>)
    requires |values| + 1 == |widths|
    ensures Zipped(values + [value], widths)
         == Zipped(values, widths[..|widths| - 1]) + [Field(value, widths[|widths| - 1])]
  {
  }

  lemma WriteAllSnoc(destination: uint32, fields: seq<Field>, f: Field)
    ensures WriteAll(destination, fields + [f]) == Written(WriteAll(destination, fields), f)
  {
    assert (fields + [f])[..|fields|] == fields;
  }

  /** The fields of a header, with the integer widths of the class. */
  datatype Header = Header(client: uint8, id: uint8, res1: uint8, length: uint16, res2: uint8, code: uint16)

  const ZERO_HEADER := Header(0, 0, 0, 0, 0, 0)
  const HEADER_WIDTHS: seq<nat> := [4, 4, 1, 11, 1, 11]

  function HeaderFields(h: Header): seq<Field> {
    [Field(h.client, 4), Field(h.id, 4), Field(h.res1, 1), Field(h.length, 11), Field(h.res2, 1), Field(h.code, 11)]
  }

  /** Every field reduced to the bits it has on the wire. */
  function Narrow(h: Header): Header {
    Header(h.client % 16, h.id % 16, h.res1 % 2, h.length % 2048, h.res2 % 2, h.code % 2048)
  }

  function Values(h: Header): seq<uint32> {
    var client: uint32 := h.client;
    [client, h.id, h.res1, h.length, h.res2, h.code]
  }

  /** The documented layout: bits 28-31 client, 24-27 id, 23 reserved, 12-22 length, 11 reserved, 0-10 code. */
  function Layout(h: Header): uint32 {
    0x1000_0000 * (h.client as int % 16) + 0x100_0000 * (h.id as int % 16) + 0x80_0000 * (h.res1 as int % 2)
    + 0x1000 * (h.length as int % 2048) + 0x800 * (h.res2 as int % 2) + h.code as int % 2048
  }

  function FieldsAt(w: uint32): Header {
    Header(w / 0x1000_0000, w / 0x100_0000 % 16, w / 0x80_0000 % 2, w / 0x1000 % 2048, w / 0x800 % 2, w % 2048)
  }

  /**
   The fields of a header by the bytes it arrives in: client and id share byte 3, the length
   is spread over bytes 1 and 2, the code over bytes 0 and 1.
   */
  function HeaderInBytes(b0: uint8, b1: uint8, b2: uint8, b3: uint8): Header {
    Header(b3 / 16, b3 % 16, b2 / 128, 16 * (b2 as int % 128) + b1 as int / 16,
           b1 / 8 % 2, 256 * (b1 as int % 8) + b0 as int)
  }

  /** The header in front of a message, byte by byte. */
  function HeaderOf(message: seq<uint8>): Header
    requires |message| >= 4
  {
    HeaderInBytes(message[0], message[1], message[2], message[3])
  }

  /** Decoding the word and reading its six fields takes every field from its place in the bytes. */
  lemma HeaderByBytes(message: seq<uint8>)
    requires |message| >= 4
    ensures FieldsAt(Word(message, 0)) == HeaderOf(message)
  {
    HeaderOfDigits(Word(message, 0), message[0], message[1], message[2], message[3]);
  }

  lemma HeaderOfDigits(w: uint32, b0: int, b1: int, b2: int, b3: int)
    requires 0 <= b0 < 0x100 && 0 <= b1 < 0x100 && 0 <= b2 < 0x100 && 0 <= b3 < 0x100
    requires w == b0 + 0x100 * b1 + 0x1_0000 * b2 + 0x100_0000 * b3
    ensures FieldsAt(w) == HeaderInBytes(b0, b1, b2, b3)
  {
    var top := 2 * b3 + b2 / 128;
    ModUnique(w, 0x1000_0000, b3 / 16, 0x100_0000 * (b3 % 16) + 0x1_0000 * b2 + 0x100 * b1 + b0);
    ModUnique(w, 0x100_0000, b3, 0x1_0000 * b2 + 0x100 * b1 + b0);
    ModUnique(w, 0x80_0000, top, 0x1_0000 * (b2 % 128) + 0x100 * b1 + b0);
    ModUnique(top, 2, b3, b2 / 128);
    HeaderLowHalf(w, b0, b1, b2 + 0x100 * b3);
    ModUnique(16 * (b2 + 0x100 * b3) + b1 / 16, 2048, top, b2 % 128 * 16 + b1 / 16);
  }

  lemma HeaderLowHalf(w: uint32, b0: int, b1: int, high: int)
    requires 0 <= b0 < 0x100 && 0 <= b1 < 0x100 && w == b0 + 0x100 * b1 + 0x1_0000 * high
    ensures w / 0x1000 == 16 * high + b1 / 16
    ensures w / 0x800 % 2 == b1 / 8 % 2
    ensures w % 2048 == b1 % 8 * 256 + b0
  {
    ModUnique(w, 0x1000, 16 * high + b1 / 16, 0x100 * (b1 % 16) + b0);
    ModUnique(w, 2048, 32 * high + b1 / 8, b1 % 8 * 256 + b0);
    ModUnique(32 * high + b1 / 8, 2, 16 * high + b1 / 16, b1 / 8 % 2);
  }

  /** toUint32 as a function: the six writes in order, from an empty word. */
  function Pack(h: Header): uint32 { WriteAll(0, HeaderFields(h)) }

  /** fromUint32 as a function: the six reads, last field first. */
  function Unpack(w: uint32): Header {
    var values := ReadBack(w, HEADER_WIDTHS).0;
    Header(values[0] % 0x100, values[1] % 0x100, values[2] % 0x100,
           values[3] % 0x1_0000, values[4] % 0x100, values[5] % 0x1_0000)
  }

  lemma HeaderPow2()
    ensures Pow2(1) == 2 && Pow2(4) == 16 && Pow2(11) == 2048
  {
    assert Pow2(4) == 16;
    Pow2Sum(4, 4);
    assert Pow2(3) == 8;
    Pow2Sum(8, 3);
  }

  /** The six writes, one after the other. */
  lemma PackInSteps(h: Header)
    ensures var w2 := Written(Written(0, Field(h.client, 4)), Field(h.id, 4));
            var w4 := Written(Written(w2, Field(h.res1, 1)), Field(h.length, 11));
            Pack(h) == Written(Written(w4, Field(h.res2, 1)), Field(h.code, 11))
  {
    var f := HeaderFields(h);
    var l1 := [] + [f[0]];
    var l2 := l1 + [f[1]];
    var l3 := l2 + [f[2]];
    var l4 := l3 + [f[3]];
    var l5 := l4 + [f[4]];
    WriteAllSnoc(0, [], f[0]);
    WriteAllSnoc(0, l1, f[1]);
    WriteAllSnoc(0, l2, f[2]);
    WriteAllSnoc(0, l3, f[3]);
    WriteAllSnoc(0, l4, f[4]);
    WriteAllSnoc(0, l5, f[5]);
    assert l5 + [f[5]] == f;
  }

  lemma Step(destination: uint32, value: uint32, width: nat, used: nat, p: nat)
    requires width < 32 && p == Pow2(width)
    requires destination < Pow2(used) && used + width <= 32
    ensures Written(destination, Field(value, width)) == destination * p + value % p < Pow2(used + width)
  {
    WrittenValue(destination, Field(value, width), used);
  }

  /** The six writes lay the header out as documented. */
  lemma PackIsLayout(h: Header)
    ensures Pack(h) == Layout(h)
  {
    HeaderPow2();
    PackInSteps(h);
    Step(0, h.client, 4, 0, 16);
    var w1 := Written(0, Field(h.client, 4));
    Step(w1, h.id, 4, 4, 16);
    var w2 := Written(w1, Field(h.id, 4));
    Step(w2, h.res1, 1, 8, 2);
    var w3 := Written(w2, Field(h.res1, 1));
    Step(w3, h.length, 11, 9, 2048);
    var w4 := Written(w3, Field(h.length, 11));
    Step(w4, h.res2, 1, 20, 2);
    var w5 := Written(w4, Field(h.res2, 1));
    Step(w5, h.code, 11, 21, 2048);
  }

  lemma ReadStep(source: uint32, widths: seq<nat>, p: nat)
    requires widths != [] && widths[|widths| - 1] < 32 && p == Pow2(widths[|widths| - 1])
    ensures 0 <= source / p <= source
    ensures ReadBack(source, widths).0 == ReadBack(source / p, widths[..|widths| - 1]).0 + [source % p]
    ensures ReadBack(source, widths).1 == ReadBack(source / p, widths[..|widths| - 1]).1
  {
    DivShrinks(source, p);
    ReadOffValue(source, widths[|widths| - 1]);
    ReadBackSnoc(source, widths);
  }

  lemma Quotients(w: uint32)
    ensures w / 0x800 / 2 == w / 0x1000
    ensures w / 0x1000 / 0x800 == w / 0x80_0000
    ensures w / 0x80_0000 / 2 == w / 0x100_0000
    ensures w / 0x100_0000 / 16 == w / 0x1000_0000
    ensures 0 <= w / 0x1000_0000 < 16
  {
  }

  /** The fields of a word, as six successive reads find them. */
  lemma FieldsInSteps(w: uint32, r1: nat, r2: nat, r3: nat, r4: nat, r5: nat)
    requires r1 == w / 2048 && r2 == r1 / 2 && r3 == r2 / 2048 && r4 == r3 / 2 && r5 == r4 / 16
    ensures r5 % 16 == r5 < 16 && r5 / 16 == 0
    ensures FieldsAt(w) == Header(r5 % 16, r4 % 16, r3 % 2, r2 % 2048, r1 % 2, w % 2048)
  {
    Quotients(w);
  }

  function FirstWidths(k: nat): seq<nat>
    requires k <= 6
  {
    HEADER_WIDTHS[..k]
  }

  lemma ReadsInSteps(w: uint32, r1: uint32, r2: uint32, r3: uint32, r4: uint32, r5: uint32, h: Header)
    requires r1 == w / 2048 && r2 == r1 / 2 && r3 == r2 / 2048 && r4 == r3 / 2 && r5 == r4 / 16
    requires h == Header(r5 % 16, r4 % 16, r3 % 2, r2 % 2048, r1 % 2, w % 2048)
    ensures ReadBack(w, HEADER_WIDTHS).0 == Values(h)
    ensures ReadBack(w, HEADER_WIDTHS).1 == r5 / 16
  {
    HeaderPow2();
    forall k: nat | k < 6 ensures FirstWidths(k + 1)[..k] == FirstWidths(k) {}
    assert FirstWidths(6) == HEADER_WIDTHS;
    ReadStep(w, FirstWidths(6), 2048);
    ReadStep(r1, FirstWidths(5), 2);
    ReadStep(r2, FirstWidths(4), 2048);
    ReadStep(r3, FirstWidths(3), 2);
    ReadStep(r4, FirstWidths(2), 16);
    ReadStep(r5, FirstWidths(1), 16);
  }

  /** The six reads give the fields of the word, untruncated, and leave nothing. */
  lemma HeaderReads(w: uint32, h: Header)
    requires h == FieldsAt(w)
    ensures ReadBack(w, HEADER_WIDTHS) == (Values(h), 0)
  {
    var r1 := w / 2048;
    var r2 := r1 / 2;
    var r3 := r2 / 2048;
    var r4 := r3 / 2;
    var r5 := r4 / 16;
    FieldsInSteps(w, r1, r2, r3, r4, r5);
    ReadsInSteps(w, r1, r2, r3, r4, r5, h);
  }

  /** The six reads take the fields from where the layout has them. */
  lemma UnpackIsFieldsAt(w: uint32)
    ensures Unpack(w) == FieldsAt(w)
  {
    HeaderReads(w, FieldsAt(w));
    ReadValuesFit(w, FieldsAt(w));
  }

  lemma ReadValuesFit(w: uint32, h: Header)
    requires ReadBack(w, HEADER_WIDTHS).0 == Values(h)
    ensures Unpack(w) == h
  {
    hide ReadBack;
  }

  lemma TotalSnoc(widths: seq<nat>, w: nat)
    ensures Total(widths + [w]) == Total(widths) + w
  {
    assert (widths + [w])[..|widths|] == widths;
  }

  lemma TotalOfHeader()
    ensures Total(HEADER_WIDTHS) == 32
  {
    TotalSnoc([], 4);
    TotalSnoc([] + [4], 4);
    TotalSnoc([] + [4] + [4], 1);
    TotalSnoc([] + [4] + [4] + [1], 11);
    TotalSnoc([] + [4] + [4] + [1] + [11], 1);
    TotalSnoc([] + [4] + [4] + [1] + [11] + [1], 11);
    assert [] + [4] + [4] + [1] + [11] + [1] + [11] == HEADER_WIDTHS;
  }

  /** parse(encode(h)) is h with every field reduced to its width. */
  lemma UnpackPack(h: Header)
    ensures Unpack(Pack(h)) == Narrow(h)
    ensures FieldsAt(Layout(h)) == Narrow(h)
  {
    var f := HeaderFields(h);
    TotalOfHeader();
    assert Widths(f) == HEADER_WIDTHS;
    StackLaw(0, f, 0);
    ReducedHeader(h);
    ReadValuesFit(Pack(h), Narrow(h));
    PackIsLayout(h);
    UnpackIsFieldsAt(Layout(h));
  }

  lemma ReducedHeader(h: Header)
    ensures Reduced(HeaderFields(h)) == Values(Narrow(h))
  {
    HeaderPow2();
  }

  /** encode(parse(w)) is w, for every 32-bit word. */
  lemma PackUnpack(w: uint32)
    ensures Pack(Unpack(w)) == w
    ensures Layout(FieldsAt(w)) == w
  {
    var h := FieldsAt(w);
    UnpackIsFieldsAt(w);
    HeaderReads(w, h);
    NarrowHeaderWidths();
    UnstackLaw(w, HEADER_WIDTHS, Values(h), 0);
    assert HeaderFields(h) == Zipped(Values(h), HEADER_WIDTHS);
    PackIsLayout(h);
  }

  lemma NarrowHeaderWidths()
    ensures NarrowWidths(HEADER_WIDTHS)
  {
  }

  lemma ReadsAreFields(w: uint32, r1: uint32, r2: uint32, r3: uint32, r4: uint32, r5: uint32,
                       h: Header, v: seq<uint32>)
    requires r1 == w / Pow2(11) && r2 == r1 / Pow2(1) && r3 == r2 / Pow2(11) && r4 == r3 / Pow2(1) && r5 == r4 / Pow2(4)
    requires |v| == 6
    requires v[0] == w % Pow2(11) && v[1] == r1 % Pow2(1) && v[2] == r2 % Pow2(11)
    requires v[3] == r3 % Pow2(1) && v[4] == r4 % Pow2(4) && v[5] == r5 % Pow2(4)
    requires h == Header(v[5] % 0x100, v[4] % 0x100, v[3] % 0x100, v[2] % 0x1_0000, v[1] % 0x100, v[0] % 0x1_0000)
    ensures h == FieldsAt(w)
  {
    HeaderPow2();
    FieldsInSteps(w, r1, r2, r3, r4, r5);
    SmallValues(v);
  }

  lemma SmallValues(v: seq<uint32>)
    requires |v| == 6
    requires v[0] < 2048 && v[1] < 2 && v[2] < 2048 && v[3] < 2 && v[4] < 16 && v[5] < 16
    ensures v[0] % 0x1_0000 == v[0] && v[1] % 0x100 == v[1] && v[2] % 0x1_0000 == v[2]
    ensures v[3] % 0x100 == v[3] && v[4] % 0x100 == v[4] && v[5] % 0x100 == v[5]
  {
  }

  /** The header object whose fields parse fills in and encode reads. */
  class CommandHeader {
    var client: uint8
    var id: uint8
    var res1: uint8
    var length: uint16
    var res2: uint8
    var code: uint16

    constructor ()
      ensures Value() == ZERO_HEADER
    {
      client, id, res1, length, res2, code := 0, 0, 0, 0, 0, 0;
    }

    function Value(): Header
      reads this
    {
      Header(client, id, res1, length, res2, code)
    }

    /** Returns the low bits and the source shifted past them (the source is passed by reference). */
    method ReadBits(source: uint32, numberOfBits: nat) returns (result: uint32, rest: uint32)
      requires numberOfBits < 32
      ensures result == source % Pow2(numberOfBits)
      ensures rest == source / Pow2(numberOfBits)
    {
      ReadOffValue(source, numberOfBits);
      var mask := Mask(numberOfBits);
      result := AsUint32(And(source, mask));
      rest := ShiftRight(source, numberOfBits);
    }

    /** Returns the destination with the low bits of the source appended, where there is room for them. */
    method WriteBits(destination: uint32, source: uint32, numberOfBits: nat) returns (extended: uint32)
      requires numberOfBits < 32
      ensures extended == Written(destination, Field(source, numberOfBits))
      ensures forall used: nat :: destination < Pow2(used) && used + numberOfBits <= 32 ==>
                extended == destination * Pow2(numberOfBits) + source % Pow2(numberOfBits)
    {
      forall used: nat | destination < Pow2(used) && used + numberOfBits <= 32
        ensures Written(destination, Field(source, numberOfBits))
             == destination * Pow2(numberOfBits) + source % Pow2(numberOfBits)
      {
        WrittenValue(destination, Field(source, numberOfBits), used);
      }
      extended := ShiftLeft(destination, numberOfBits);
      var mask := Mask(numberOfBits);
      extended := AsUint32(Or(extended, And(source, mask)));
    }

    method FromUint32(input: uint32)
      modifies this
      ensures Value() == FieldsAt(input)
    {
      hide FieldsAt, Pow2;
      var c, r1 := ReadBits(input, 11);
      code := c % 0x1_0000;
      var s2, r2 := ReadBits(r1, 1);
      res2 := s2 % 0x100;
      var l, r3 := ReadBits(r2, 11);
      length := l % 0x1_0000;
      var s1, r4 := ReadBits(r3, 1);
      res1 := s1 % 0x100;
      var i, r5 := ReadBits(r4, 4);
      id := i % 0x100;
      var k, _ := ReadBits(r5, 4);
      client := k % 0x100;
      ghost var h := Header(k % 0x100, i % 0x100, s1 % 0x100, l % 0x1_0000, s2 % 0x100, c % 0x1_0000);
      ReadsAreFields(input, r1, r2, r3, r4, r5, h, [c, s2, l, s1, i, k]);
    }

    method ToUint32() returns (output: uint32)
      ensures output == Layout(Value())
    {
      output := 0;
      output := WriteBits(output, client, 4);
      output := WriteBits(output, id, 4);
      output := WriteBits(output, res1, 1);
      output := WriteBits(output, length, 11);
      output := WriteBits(output, res2, 1);
      output := WriteBits(output, code, 11);
      PackInSteps(Value());
      PackIsLayout(Value());
    }

    method Parse(buffer: seq<uint8>) returns (r: Result<()>)
      modifies this
      ensures |buffer| >= HEADER_SIZE ==> r == Returned(()) && Value() == FieldsAt(Word(buffer, 0))
      ensures |buffer| < HEADER_SIZE ==> r == Thrown(InvalidArgument) && Value() == old(Value())
    {
      var header := DecodeFromLittleEndianBuffer(buffer, 0);
      if header.Thrown? {
        return Thrown(header.exception);
      }
      FromUint32(header.value);
      return Returned(());
    }

    method Encode(buffer: ByteVector) returns (r: Result<()>)
      modifies buffer
      ensures |old(buffer.bytes)| >= HEADER_SIZE ==>
                r == Returned(()) && buffer.bytes == Bytes(Layout(Value())) + old(buffer.bytes)[HEADER_SIZE..]
      ensures |old(buffer.bytes)| < HEADER_SIZE ==> r == Thrown(InvalidArgument) && buffer.bytes == old(buffer.bytes)
    {
      var header := ToUint32();
      r := EncodeToLittleEndianBuffer(header, buffer, 0);
      assert old(buffer.bytes)[..0] == [];
    }
  }
}
