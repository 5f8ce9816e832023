/** Bitmaps over byte strings (structures/bits_operation.cc): set, get and count. */
module Bits {
  /** (1 << 31) in 32-bit int arithmetic, widened to 64 unsigned bits. */
  const BITMAP_MAX_OFFSET: nat := 0xffff_ffff_8000_0000

  /** The bit of a byte that an offset selects, most significant first. */
  function Mask(offset: nat): bv8 {
    match offset % 8
    case 0 => 0x80
    case 1 => 0x40
    case 2 => 0x20
    case 3 => 0x10
    case 4 => 0x08
    case 5 => 0x04
    case 6 => 0x02
    case _ => 0x01
  }

  predicate HasMask(v: bv8, mask: bv8) {
    v & mask > 0
  }

  function WithMask(v: bv8, mask: bv8, value: bool): bv8 {
    (v & !mask) | (if value then mask else 0)
  }

  predicate Has(v: bv8, offset: nat) {
    HasMask(v, Mask(offset))
  }

  function WithBit(v: bv8, offset: nat, value: bool): bv8 {
    WithMask(v, Mask(offset), value)
  }

  function Get(o: seq<bv8>, offset: nat): bool {
    var i := offset / 8;
    if i > BITMAP_MAX_OFFSET || i >= |o| then false else Has(o[i], offset)
  }

  function Set(o: seq<bv8>, offset: nat, value: bool): (r: seq<bv8>)
    requires offset / 8 < |o|
    ensures |r| == |o|
  {
    o[offset / 8 := WithBit(o[offset / 8], offset, value)]
  }

  lemma MasksAreDistinct(i: nat, j: nat)
    ensures Mask(i) != 0
    ensures if i % 8 == j % 8 then Mask(i) == Mask(j) else Mask(i) & Mask(j) == 0
  {
  }

  lemma MaskReadBack(v: bv8, mask: bv8, value: bool)
    requires mask != 0
    ensures HasMask(WithMask(v, mask, value), mask) == value
  {
  }

  lemma MaskLeavesOthers(v: bv8, mask: bv8, other: bv8, value: bool)
    requires mask & other == 0
    ensures HasMask(WithMask(v, mask, value), other) == HasMask(v, other)
  {
  }

  lemma HasWithBit(v: bv8, offset: nat, value: bool, other: nat)
    ensures Has(WithBit(v, offset, value), other) == if other % 8 == offset % 8 then value else Has(v, other)
  {
    hide Mask, HasMask, WithMask;
    MasksAreDistinct(offset, other);
    MaskReadBack(v, Mask(offset), value);
    if other % 8 != offset % 8 {
      MaskLeavesOthers(v, Mask(offset), Mask(other), value);
    }
  }

  /** Read over write: the written bit is read back, and every other bit is as before. */
  lemma GetSet(o: seq<bv8>, offset: nat, value: bool, other: nat)
    requires offset / 8 < |o| && offset / 8 <= BITMAP_MAX_OFFSET
    ensures Get(Set(o, offset, value), other) == if other == offset then value else Get(o, other)
  {
    hide Has, WithBit;
    HasWithBit(o[offset / 8], offset, value, other);
    assert other == 8 * (other / 8) + other % 8;
    assert offset == 8 * (offset / 8) + offset % 8;
  }

  /** Bit 0 of a bitmap is the most significant bit of its first byte, and so on down. */
  lemma GetIsShift(o: seq<bv8>, offset: nat)
    requires offset / 8 < |o| <= BITMAP_MAX_OFFSET
    ensures Get(o, offset) <==> (o[offset / 8] >> (7 - offset % 8)) & 1 == 1
  {
    var v, k := o[offset / 8], offset % 8;
    MaskIsShift(v, k);
    assert Mask(k) == Mask(offset);
  }

  lemma MaskIsShift(v: bv8, k: nat)
    requires k < 8
    ensures HasMask(v, Mask(k)) <==> (v >> (7 - k)) & 1 == 1
  {
    if k < 4 {
      assert (v & 0x80 > 0 <==> (v >> 7) & 1 == 1) && (v & 0x40 > 0 <==> (v >> 6) & 1 == 1);
      assert (v & 0x20 > 0 <==> (v >> 5) & 1 == 1) && (v & 0x10 > 0 <==> (v >> 4) & 1 == 1);
    } else {
      assert (v & 0x08 > 0 <==> (v >> 3) & 1 == 1) && (v & 0x04 > 0 <==> (v >> 2) & 1 == 1);
      assert (v & 0x02 > 0 <==> (v >> 1) & 1 == 1) && (v & 0x01 > 0 <==> (v >> 0) & 1 == 1);
    }
  }

  // ----------------------------------------------------------------- counting

  function One(b: bool): nat { if b then 1 else 0 }

  /** The number of bits that Get reports in [from, limit). */
  function Ones(o: seq<bv8>, from: nat, limit: nat): nat
    decreases limit
  {
    if limit <= from then 0 else Ones(o, from, limit - 1) + One(Get(o, limit - 1))
  }

  /** The number of ones among the first k bits of a byte. */
  function LeadingBits(v: bv8, k: nat): nat {
    if k == 0 then 0 else LeadingBits(v, k - 1) + One(Has(v, k - 1))
  }

  function BitsInByte(v: bv8): nat {
    LeadingBits(v, 8)
  }

  /** The table bits_in_byte: eight rows of 32 entries, of four kinds. */
  function BitsInByteTable(): (t: seq<nat>)
    ensures |t| == 256
  {
    FirstRow() + SecondRow() + SecondRow() + FourthRow() + SecondRow() + FourthRow() + FourthRow() + EighthRow()
  }

  function FirstRow(): (r: seq<nat>)
    ensures |r| == 32
  {
    [0, 1, 1, 2, 1, 2, 2, 3, 1, 2, 2, 3, 2, 3, 3, 4, 1, 2, 2, 3, 2, 3, 3, 4, 2, 3, 3, 4, 3, 4, 4, 5]
  }

  function SecondRow(): (r: seq<nat>)
    ensures |r| == 32
  {
    [1, 2, 2, 3, 2, 3, 3, 4, 2, 3, 3, 4, 3, 4, 4, 5, 2, 3, 3, 4, 3, 4, 4, 5, 3, 4, 4, 5, 4, 5, 5, 6]
  }

  function FourthRow(): (r: seq<nat>)
    ensures |r| == 32
  {
    [2, 3, 3, 4, 3, 4, 4, 5, 3, 4, 4, 5, 4, 5, 5, 6, 3, 4, 4, 5, 4, 5, 5, 6, 4, 5, 5, 6, 5, 6, 6, 7]
  }

  function EighthRow(): (r: seq<nat>)
    ensures |r| == 32
  {
    [3, 4, 4, 5, 4, 5, 5, 6, 4, 5, 5, 6, 5, 6, 6, 7, 4, 5, 5, 6, 5, 6, 6, 7, 5, 6, 6, 7, 6, 7, 7, 8]
  }

  /** A row of the table, for bytes whose upper three bits hold c ones. */
  function Row(c: nat): (r: seq<nat>)
    ensures |r| == 32
  {
    [c, c + 1, c + 1, c + 2, c + 1, c + 2, c + 2, c + 3, c + 1, c + 2, c + 2, c + 3, c + 2, c + 3, c + 3, c + 4,
     c + 1, c + 2, c + 2, c + 3, c + 2, c + 3, c + 3, c + 4, c + 2, c + 3, c + 3, c + 4, c + 3, c + 4, c + 4, c + 5]
  }

  /** How many of the lower five bits are ones. */
  function Low(v: bv8): nat {
    One(HasMask(v, 16)) + One(HasMask(v, 8)) + One(HasMask(v, 4)) + One(HasMask(v, 2)) + One(HasMask(v, 1))
  }

  function High(v: bv8): nat {
    One(HasMask(v, 0x80)) + One(HasMask(v, 0x40)) + One(HasMask(v, 0x20))
  }

  lemma RowAt(c: nat, v: bv8)
    requires v < 32
    ensures Row(c)[v as nat] == c + Low(v)
  {
  }

  /** How many of the three bits of a number below 8 are ones. */
  function Ones3(h: nat): nat {
    h % 2 + h / 2 % 2 + h / 4 % 2
  }

  lemma RowsAre()
    ensures FirstRow() == Row(0) && SecondRow() == Row(1) && FourthRow() == Row(2) && EighthRow() == Row(3)
  {
  }

  /** Where an entry of eight rows is. */
  lemma EntryOf(a: seq<nat>, b: seq<nat>, c: seq<nat>, d: seq<nat>, h: nat, l: nat)
    requires |a| == |b| == |c| == |d| == 32 && h < 8 && l < 32
    ensures (a + b + b + c + b + c + c + d)[32 * h + l] ==
      if h == 0 then a[l] else if h == 7 then d[l] else if h == 1 || h == 2 || h == 4 then b[l] else c[l]
  {
    var four := a + b + b + c;
    assert a + b + b + c + b + c + c + d == four + (b + c + c + d);
    assert h < 4 ==> four[32 * h + l] == if h == 0 then a[l] else if h == 3 then c[l] else b[l];
    assert h >= 4 ==> (b + c + c + d)[32 * (h - 4) + l] == if h == 4 then b[l] else if h == 7 then d[l] else c[l];
  }

  lemma HighIsOnes3(v: bv8)
    ensures (v >> 5) as nat < 8 && High(v) == Ones3((v >> 5) as nat)
  {
    var h := v >> 5;
    assert (v & 0x80 > 0 <==> h & 4 > 0) && (v & 0x40 > 0 <==> h & 2 > 0) && (v & 0x20 > 0 <==> h & 1 > 0);
    assert h < 8;
    assert h == 0 || h == 1 || h == 2 || h == 3 || h == 4 || h == 5 || h == 6 || h == 7;
  }

  lemma Halves(v: bv8)
    ensures (v & 31) < 32 && v as nat == 32 * ((v >> 5) as nat) + (v & 31) as nat
  {
  }

  lemma TableRow(h: nat, l: nat)
    requires h < 8 && l < 32
    ensures BitsInByteTable()[32 * h + l] == Row(Ones3(h))[l]
  {
    hide Row, FirstRow, SecondRow, FourthRow, EighthRow;
    RowsAre();
    EntryOf(FirstRow(), SecondRow(), FourthRow(), EighthRow(), h, l);
  }

  lemma TableAt(v: bv8)
    ensures (v & 31) < 32 && BitsInByteTable()[v as nat] == Row(High(v))[(v & 31) as nat]
  {
    hide High, Ones3, Row, BitsInByteTable;
    Halves(v);
    HighIsOnes3(v);
    TableRow((v >> 5) as nat, (v & 31) as nat);
  }

  lemma LowOfRemainder(v: bv8)
    ensures Low(v & 31) == Low(v)
  {
    assert (v & 31) & 16 == v & 16 && (v & 31) & 8 == v & 8 && (v & 31) & 4 == v & 4;
    assert (v & 31) & 2 == v & 2 && (v & 31) & 1 == v & 1;
  }

  lemma LeadingByMask(v: bv8)
    ensures LeadingBits(v, 8) == High(v) + Low(v)
  {
    hide HasMask;
    assert LeadingBits(v, 1) == One(HasMask(v, 0x80));
    assert LeadingBits(v, 3) == High(v);
    assert LeadingBits(v, 5) == High(v) + One(HasMask(v, 16)) + One(HasMask(v, 8));
    assert LeadingBits(v, 7) == LeadingBits(v, 5) + One(HasMask(v, 4)) + One(HasMask(v, 2));
  }

  /** The table holds how many ones each byte has. */
  lemma TableCountsOnes(v: bv8)
    ensures BitsInByteTable()[v as nat] == BitsInByte(v)
  {
    hide Row, Low, High, LeadingBits;
    TableAt(v);
    RowAt(High(v), v & 31);
    LowOfRemainder(v);
    LeadingByMask(v);
  }

  lemma {:induction false} OnesSplit(o: seq<bv8>, from: nat, mid: nat, limit: nat)
    requires from <= mid <= limit
    ensures Ones(o, from, limit) == Ones(o, from, mid) + Ones(o, mid, limit)
    decreases limit
  {
    if mid < limit {
      OnesSplit(o, from, mid, limit - 1);
    }
  }

  lemma GetAt(o: seq<bv8>, p: nat, k: nat)
    requires p < |o| && p <= BITMAP_MAX_OFFSET && k < 8
    ensures Get(o, 8 * p + k) == Has(o[p], k)
  {
    assert (8 * p + k) / 8 == p && (8 * p + k) % 8 == k;
  }

  lemma ByteOnes(o: seq<bv8>, p: nat)
    requires p < |o| && p <= BITMAP_MAX_OFFSET
    ensures Ones(o, 8 * p, 8 * p + 8) == BitsInByte(o[p])
  {
    hide Get, Ones;
    var b := 8 * p;
    EmptyOnes(o, b);
    for k := 0 to 8
      invariant Ones(o, b, b + k) == LeadingBits(o[p], k)
    {
      OnesNext(o, b, b + k);
      GetAt(o, p, k);
    }
  }

  lemma OnesNext(o: seq<bv8>, from: nat, limit: nat)
    requires from <= limit
    ensures Ones(o, from, limit + 1) == Ones(o, from, limit) + One(Get(o, limit))
  {
  }

  lemma {:induction false} OnesSame(o: seq<bv8>, r: seq<bv8>, from: nat, limit: nat)
    requires from <= limit && forall i: nat | from <= i < limit :: Get(o, i) == Get(r, i)
    ensures Ones(o, from, limit) == Ones(r, from, limit)
    decreases limit
  {
    if from < limit {
      OnesSame(o, r, from, limit - 1);
    }
  }

  /** Setting a bit changes the count by the new bit minus the old one. */
  lemma SetChangesCount(o: seq<bv8>, offset: nat, value: bool)
    requires offset / 8 < |o| <= BITMAP_MAX_OFFSET
    ensures Ones(Set(o, offset, value), 0, 8 * |o|) == Ones(o, 0, 8 * |o|) + One(value) - One(Get(o, offset))
  {
    hide Get, Set;
    var r, n := Set(o, offset, value), 8 * |o|;
    forall i: nat ensures Get(r, i) == if i == offset then value else Get(o, i) {
      GetSet(o, offset, value, i);
    }
    OnesSplit(o, 0, offset + 1, n);
    OnesSplit(r, 0, offset + 1, n);
    OnesSame(o, r, 0, offset);
    OnesSame(o, r, offset + 1, n);
  }

  /** The byte range that count works on. */
  function Normalise(size: nat, start: int, end: int): (int, int) {
    var s := if start < 0 then start + size else start;
    var e := if end < 0 then end + size else end;
    var s1 := if s < 0 then 0 else s;
    var e1 := if e < 0 then 0 else e;
    (s1, if e1 >= size then size - 1 else e1)
  }

  /** Byte i is at or after the index `start`, which counts from the end when negative. */
  predicate NotBefore(size: nat, i: nat, start: int) {
    if start >= 0 then start <= i else size - i <= -start
  }

  predicate NotAfter(size: nat, i: nat, end: int) {
    if end >= 0 then i <= end else size - i >= -end
  }

  /**
   The bytes counted are those from `start` to `end`, with one exception: an `end` before the
   first byte is taken for the first byte.
   */
  lemma RangeExact(size: nat, start: int, end: int, i: nat)
    requires i < size
    ensures var (s, e) := Normalise(size, start, end);
      s <= i <= e <==> NotBefore(size, i, start) && (NotAfter(size, i, end) || (i == 0 && end + size < 0))
    ensures var (s, e) := Normalise(size, start, end); 0 <= s && e < size
  {
  }

  /**
   The two loops differ only in when the first one stops.  A range that ends just before its start
   is empty; the source's counter wraps on ranges that end earlier still.
   */
  method Count(o: seq<bv8>, start: int, end: int) returns (bits: nat)
    requires |o| <= BITMAP_MAX_OFFSET
    requires Normalise(|o|, start, end).0 <= Normalise(|o|, start, end).1 + 1
    ensures var (s, e) := Normalise(|o|, start, end); bits == Ones(o, 8 * s, 8 * (e + 1))
  {
    hide BitsInByte, Ones;
    var (s, e) := Normalise(|o|, start, end);
    bits := 0;
    var count := e - s + 1;
    var p := s;
    EmptyOnes(o, 8 * s);
    while count > 0 && o[p] & 3 != 0
      invariant s <= p && p + count == e + 1
      invariant count >= 0 && bits == Ones(o, 8 * s, 8 * p)
      decreases count
    {
      NextByte(o, s, p);
      TableCountsOnes(o[p]);
      bits := bits + BitsInByteTable()[o[p] as nat];
      p := p + 1;
      count := count - 1;
    }
    while count > 0
      invariant s <= p && p + count == e + 1
      invariant count >= 0 && bits == Ones(o, 8 * s, 8 * p)
      decreases count
    {
      NextByte(o, s, p);
      TableCountsOnes(o[p]);
      bits := bits + BitsInByteTable()[o[p] as nat];
      p := p + 1;
      count := count - 1;
    }
  }

  lemma EmptyOnes(o: seq<bv8>, from: nat)
    ensures Ones(o, from, from) == 0
  {
  }

  lemma NextByte(o: seq<bv8>, s: nat, p: nat)
    requires s <= p < |o| <= BITMAP_MAX_OFFSET
    ensures Ones(o, 8 * s, 8 * (p + 1)) == Ones(o, 8 * s, 8 * p) + BitsInByte(o[p])
  {
    hide Ones, BitsInByte;
    ByteOnes(o, p);
    OnesSplit(o, 8 * s, 8 * p, 8 * (p + 1));
  }

  method PutMask(v: bv8, mask: bv8, value: bool) returns (r: bv8, was: bool)
    ensures r == WithMask(v, mask, value) && was == HasMask(v, mask)
  {
    was := v & mask > 0;
    r := v & !mask;
    r := r | (if value then mask else 0);
  }

  method SetBit(o: array<bv8>, offset: nat, value: bool) returns (was: bool)
    requires offset / 8 < o.Length <= BITMAP_MAX_OFFSET
    modifies o
    ensures o[..] == Set(old(o[..]), offset, value)
    ensures was == Get(old(o[..]), offset)
  {
    hide Mask, WithMask, HasMask;
    var index := offset / 8;
    var byte;
    byte, was := PutMask(o[index], Mask(offset), value);
    o[index] := byte;
    assert o[..] == Set(old(o[..]), offset, value);
  }
}
