/**
 The log record reader (store/log_reader.cc with initial offset 0, store/log_format.hh)
 and the layout it reads: 32 KiB blocks of physical records, each record of the log being
 one FULL fragment or FIRST, MIDDLE*, LAST.

 Log cut safety: a log cut off at any byte, as a crash leaves it, reads back as exactly
 the records that lie wholly before the cut, followed by end of file.
 */
module Logs {
  import opened Coding

  const BLOCK_SIZE: int := 32 * 1024
  const HEADER_SIZE: int := 7

  // record_type, and the reader's two extra results
  const ZERO: int := 0
  const FULL: int := 1
  const FIRST: int := 2
  const MIDDLE: int := 3
  const LAST: int := 4
  const EOF: int := 5
  const BAD_RECORD: int := 6

  /** The checksum setting; `sum` is the masked CRC as the four bytes a header stores. */
  datatype Check = Check(enabled: bool, sum: Bytes -> Bytes)

  /** Unread bytes of the file, the current block's unread bytes, and whether the last read was short. */
  datatype Reader = Reader(rest: Bytes, buffer: Bytes, eof: bool)

  /** What read_physical_record returns, with the reader after it. */
  datatype Physical = Physical(reader: Reader, data: Bytes, kind: int)

  function Min(a: int, b: int): int { if a < b then a else b }

  function Open(file: Bytes): Reader {
    Reader(file, [], false)
  }

  function Size(r: Reader): nat {
    |r.rest| + |r.buffer|
  }

  function NextBlock(r: Reader): Reader {
    var n := Min(|r.rest|, BLOCK_SIZE);
    Reader(r.rest[n..], r.rest[..n], n < BLOCK_SIZE)
  }

  function Length(header: Bytes): nat
    requires |header| >= HEADER_SIZE
  {
    var low: int, high: int := header[4], header[5];
    low + 256 * high
  }

  /** The part of read_physical_record after a header is available. */
  function ParseRecord(c: Check, r: Reader): (p: Physical)
    requires |r.buffer| >= HEADER_SIZE
    ensures p.reader.eof == r.eof && p.reader.rest == r.rest
    ensures |p.reader.buffer| + |p.data| < |r.buffer|
  {
    var n := Length(r.buffer);
    var kind := r.buffer[6];
    var dropped := r.(buffer := []);
    if HEADER_SIZE + n > |r.buffer| then Physical(dropped, [], if r.eof then EOF else BAD_RECORD)
    else if kind == ZERO && n == 0 then Physical(dropped, [], BAD_RECORD)
    else if c.enabled && r.buffer[..4] != c.sum(r.buffer[6..7+n]) then Physical(dropped, [], BAD_RECORD)
    else Physical(r.(buffer := r.buffer[7+n..]), r.buffer[7..7+n], kind)
  }

  function ReadPhysical(c: Check, r: Reader): (p: Physical)
    ensures p.kind != EOF ==> Size(p.reader) + |p.data| < Size(r)
    ensures Size(p.reader) + |p.data| <= Size(r)
    decreases if r.eof then 0 else 1 + |r.rest|
  {
    if |r.buffer| >= HEADER_SIZE then ParseRecord(c, r)
    else if r.eof then Physical(r.(buffer := []), [], EOF)
    else ReadPhysical(c, NextBlock(r))
  }

  datatype Logical = Logical(reader: Reader, record: Bytes)

  /** The loop of read_record, with what it has collected and whether it is inside a fragmented record. */
  function ReadFragments(c: Check, r: Reader, acc: Bytes, inside: bool): (l: Logical)
    ensures Size(l.reader) + |l.record| <= Size(r) + |acc|
    ensures acc == [] && l.record != [] ==> Size(l.reader) < Size(r)
    decreases Size(r)
  {
    var p := ReadPhysical(c, r);
    if p.kind == FULL then Logical(p.reader, acc + p.data)
    else if p.kind == FIRST then ReadFragments(c, p.reader, acc + p.data, true)
    else if p.kind == MIDDLE then ReadFragments(c, p.reader, if inside then acc + p.data else acc, inside)
    else if p.kind == LAST && inside then Logical(p.reader, acc + p.data)
    else if p.kind == LAST || p.kind == EOF then Logical(p.reader, if inside then [] else acc)
    else if p.kind == BAD_RECORD then ReadFragments(c, p.reader, if inside then [] else acc, false)
    else ReadFragments(c, p.reader, [], false)
  }

  function ReadRecord(c: Check, r: Reader): Logical {
    ReadFragments(c, r, [], false)
  }

  /** All records up to the first empty result, which is how end of file shows. */
  function ReadAll(c: Check, r: Reader): seq<Bytes>
    decreases Size(r)
  {
    var l := ReadRecord(c, r);
    if l.record == [] then [] else [l.record] + ReadAll(c, l.reader)
  }

  // ------------------------------------------------------------------- layout

  /** One physical record as it lies in a block. */
  datatype Fragment = Fragment(sum: Bytes, kind: byte, data: Bytes)

  ghost predicate FragmentOk(c: Check, f: Fragment) {
    && |f.sum| == 4 && |f.data| < 0x1_0000 && FULL <= f.kind <= LAST
    && (c.enabled ==> f.sum == c.sum([f.kind] + f.data))
  }

  function Zeros(n: nat): (z: Bytes)
    ensures |z| == n
  {
    seq(n, _ => 0)
  }

  function FragmentBytes(f: Fragment): (b: Bytes)
    requires |f.data| < 0x1_0000
    ensures |f.sum| == 4 ==> |b| == HEADER_SIZE + |f.data|
  {
    f.sum + [|f.data| % 256, |f.data| / 256, f.kind] + f.data
  }

  /** At most six bytes are left unused at the end of a block. */
  function Pad(off: nat): nat
    requires off <= BLOCK_SIZE
  {
    if BLOCK_SIZE - off < HEADER_SIZE then BLOCK_SIZE - off else 0
  }

  function Start(off: nat): nat
    requires off <= BLOCK_SIZE
  {
    if BLOCK_SIZE - off < HEADER_SIZE then 0 else off
  }

  /** The offset in the block after writing f from offset off. */
  function After(off: nat, f: Fragment): nat
    requires off <= BLOCK_SIZE
  {
    Start(off) + HEADER_SIZE + |f.data|
  }

  ghost predicate Fits(c: Check, fs: seq<Fragment>, off: nat) {
    && off <= BLOCK_SIZE
    && (fs != [] ==> FragmentOk(c, fs[0]) && After(off, fs[0]) <= BLOCK_SIZE && Fits(c, fs[1..], After(off, fs[0])))
  }

  ghost function Layout(c: Check, fs: seq<Fragment>, off: nat): Bytes
    requires Fits(c, fs, off)
  {
    if fs == [] then []
    else Zeros(Pad(off)) + FragmentBytes(fs[0]) + Layout(c, fs[1..], After(off, fs[0]))
  }

  ghost function End(c: Check, fs: seq<Fragment>, off: nat): (e: nat)
    requires Fits(c, fs, off)
    ensures e <= BLOCK_SIZE
  {
    if fs == [] then off else End(c, fs[1..], After(off, fs[0]))
  }

  // ------------------------------------------------ reading one physical record

  /** The reader stands at block offset off of a file whose unread bytes are `todo`. */
  ghost predicate At(r: Reader, todo: Bytes, off: nat) {
    && off <= BLOCK_SIZE
    && var n := Min(|todo|, BLOCK_SIZE - off);
    && r.buffer == todo[..n] && r.rest == todo[n..]
    && (r.eof <==> |todo| < BLOCK_SIZE - off)
  }

  ghost predicate AtEnd(r: Reader) {
    r.buffer == [] && r.rest == [] && r.eof
  }

  lemma OpenAt(file: Bytes)
    ensures At(Open(file), file, BLOCK_SIZE)
  {
  }

  lemma SkipPad(c: Check, r: Reader, todo: Bytes, off: nat)
    requires At(r, todo, off) && BLOCK_SIZE - off < HEADER_SIZE && |todo| >= BLOCK_SIZE - off
    ensures ReadPhysical(c, r) == ReadPhysical(c, NextBlock(r))
    ensures At(NextBlock(r), todo[BLOCK_SIZE - off..], 0)
  {
  }

  lemma HeaderOf(f: Fragment, tail: Bytes)
    requires |f.sum| == 4 && |f.data| < 0x1_0000
    ensures var b := FragmentBytes(f) + tail;
      && |b| == HEADER_SIZE + |f.data| + |tail|
      && b[..4] == f.sum && Length(b) == |f.data| && b[6] == f.kind
      && b[7..7+|f.data|] == f.data && b[7+|f.data|..] == tail
      && b[6..7+|f.data|] == [f.kind] + f.data
  {
  }

  /** A fragment wholly before the cut is read as it was written. */
  lemma ReadHere(c: Check, r: Reader, f: Fragment, tail: Bytes, off: nat)
    requires FragmentOk(c, f) && off + HEADER_SIZE + |f.data| <= BLOCK_SIZE
    requires At(r, FragmentBytes(f) + tail, off)
    ensures var p := ReadPhysical(c, r);
      p.data == f.data && p.kind == f.kind && At(p.reader, tail, off + HEADER_SIZE + |f.data|)
  {
    var todo, len := FragmentBytes(f) + tail, HEADER_SIZE + |f.data|;
    HeaderOf(f, tail);
    var n := Min(|todo|, BLOCK_SIZE - off);
    var rest := todo[len..n];
    assert r.buffer == FragmentBytes(f) + rest;
    HeaderOf(f, rest);
    assert rest == tail[..n - len] && todo[n..] == tail[n - len..];
  }

  /** A fragment the cut goes through is reported as end of file. */
  lemma ReadCutHere(c: Check, r: Reader, f: Fragment, todo: Bytes, off: nat)
    requires FragmentOk(c, f) && off + HEADER_SIZE + |f.data| <= BLOCK_SIZE
    requires |todo| < HEADER_SIZE + |f.data| && todo == FragmentBytes(f)[..|todo|]
    requires At(r, todo, off)
    ensures var p := ReadPhysical(c, r); p.kind == EOF && p.data == [] && AtEnd(p.reader)
  {
    assert r.buffer == todo && r.rest == [];
    if |todo| >= HEADER_SIZE {
      HeaderOf(f, []);
      assert FragmentBytes(f) + [] == FragmentBytes(f);
      assert todo[4] == FragmentBytes(f)[4] && todo[5] == FragmentBytes(f)[5];
    }
  }

  lemma ReadNothing(c: Check, r: Reader, off: nat)
    requires At(r, [], off)
    ensures var p := ReadPhysical(c, r); p.kind == EOF && p.data == [] && AtEnd(p.reader)
  {
    if !r.eof {
      assert At(NextBlock(r), [], 0);
    }
  }

  lemma NothingIsEof(c: Check, r: Reader)
    requires ReadPhysical(c, r).kind == EOF
    ensures ReadRecord(c, r).record == []
  {
  }

  lemma ReadWhole(c: Check, r: Reader, f: Fragment, tail: Bytes, off: nat)
    requires off <= BLOCK_SIZE && FragmentOk(c, f) && After(off, f) <= BLOCK_SIZE
    requires At(r, Zeros(Pad(off)) + FragmentBytes(f) + tail, off)
    ensures var p := ReadPhysical(c, r);
      p.data == f.data && p.kind == f.kind && At(p.reader, tail, After(off, f))
  {
    hide ReadPhysical, FragmentBytes, At, NextBlock;
    var todo := Zeros(Pad(off)) + FragmentBytes(f) + tail;
    if BLOCK_SIZE - off < HEADER_SIZE {
      SkipPad(c, r, todo, off);
      assert todo[BLOCK_SIZE - off..] == FragmentBytes(f) + tail;
      ReadHere(c, NextBlock(r), f, tail, 0);
    } else {
      assert todo == FragmentBytes(f) + tail;
      ReadHere(c, r, f, tail, off);
    }
  }

  lemma ReadCut(c: Check, r: Reader, f: Fragment, todo: Bytes, off: nat)
    requires off <= BLOCK_SIZE && FragmentOk(c, f) && After(off, f) <= BLOCK_SIZE
    requires |todo| < Pad(off) + HEADER_SIZE + |f.data|
    requires todo == (Zeros(Pad(off)) + FragmentBytes(f))[..|todo|]
    requires At(r, todo, off)
    ensures var p := ReadPhysical(c, r); p.kind == EOF && p.data == [] && AtEnd(p.reader)
  {
    if BLOCK_SIZE - off >= HEADER_SIZE {
      assert Zeros(Pad(off)) + FragmentBytes(f) == FragmentBytes(f);
      ReadCutHere(c, r, f, todo, off);
    } else if |todo| >= BLOCK_SIZE - off {
      SkipPad(c, r, todo, off);
      var rest := todo[BLOCK_SIZE - off..];
      assert rest == FragmentBytes(f)[..|rest|];
      ReadCutHere(c, NextBlock(r), f, rest, 0);
    }
  }

  // ----------------------------------------------------------- reading a record

  /** A record's fragments: FULL alone, or FIRST, MIDDLE*, LAST. */
  ghost predicate IsRecord(fs: seq<Fragment>) {
    && fs != []
    && (|fs| == 1 ==> fs[0].kind == FULL)
    && (|fs| > 1 ==> fs[0].kind == FIRST && IsTail(fs[1..]))
    && Content(fs) != []
  }

  ghost predicate IsTail(fs: seq<Fragment>) {
    && fs != []
    && fs[0].kind == (if |fs| == 1 then LAST else MIDDLE)
    && (|fs| > 1 ==> IsTail(fs[1..]))
  }

  function Content(fs: seq<Fragment>): Bytes {
    if fs == [] then [] else fs[0].data + Content(fs[1..])
  }

  lemma {:induction false} LayoutAppend(c: Check, fs: seq<Fragment>, gs: seq<Fragment>, off: nat)
    requires Fits(c, fs + gs, off)
    ensures Fits(c, fs, off) && Fits(c, gs, End(c, fs, off))
    ensures Layout(c, fs + gs, off) == Layout(c, fs, off) + Layout(c, gs, End(c, fs, off))
    ensures End(c, fs + gs, off) == End(c, gs, End(c, fs, off))
  {
    hide FragmentBytes, Zeros, FragmentOk;
    if fs == [] {
      assert fs + gs == gs;
    } else {
      var off' := After(off, fs[0]);
      assert (fs + gs)[1..] == fs[1..] + gs && (fs + gs)[0] == fs[0];
      LayoutAppend(c, fs[1..], gs, off');
      var head := Zeros(Pad(off)) + FragmentBytes(fs[0]);
      assert Layout(c, fs, off) == head + Layout(c, fs[1..], off');
      assert Layout(c, fs + gs, off) == head + Layout(c, fs[1..] + gs, off');
    }
  }

  ghost function HeadBytes(f: Fragment, off: nat): Bytes
    requires off <= BLOCK_SIZE && |f.data| < 0x1_0000
  {
    Zeros(Pad(off)) + FragmentBytes(f)
  }

  lemma LayoutHead(c: Check, fs: seq<Fragment>, off: nat)
    requires fs != [] && Fits(c, fs, off)
    ensures FragmentOk(c, fs[0]) && After(off, fs[0]) <= BLOCK_SIZE && Fits(c, fs[1..], After(off, fs[0]))
    ensures |HeadBytes(fs[0], off)| == Pad(off) + HEADER_SIZE + |fs[0].data|
    ensures Layout(c, fs, off) == HeadBytes(fs[0], off) + Layout(c, fs[1..], After(off, fs[0]))
    ensures End(c, fs, off) == End(c, fs[1..], After(off, fs[0]))
  {
  }

  /** One step of reading a laid-out sequence of fragments from a cut file. */
  lemma ReadHead(c: Check, r: Reader, fs: seq<Fragment>, off: nat, cut: nat)
    requires fs != [] && Fits(c, fs, off) && cut <= |Layout(c, fs, off)|
    requires At(r, Layout(c, fs, off)[..cut], off)
    ensures FragmentOk(c, fs[0]) && After(off, fs[0]) <= BLOCK_SIZE && Fits(c, fs[1..], After(off, fs[0]))
    ensures var p, n := ReadPhysical(c, r), |HeadBytes(fs[0], off)|;
      if n <= cut then
        && p.data == fs[0].data && p.kind == fs[0].kind
        && cut - n <= |Layout(c, fs[1..], After(off, fs[0]))|
        && At(p.reader, Layout(c, fs[1..], After(off, fs[0]))[..cut - n], After(off, fs[0]))
      else p.kind == EOF && AtEnd(p.reader)
  {
    hide ReadPhysical, At, Fits, Layout;
    LayoutHead(c, fs, off);
    var head, tail := HeadBytes(fs[0], off), Layout(c, fs[1..], After(off, fs[0]));
    if |head| <= cut {
      assert (head + tail)[..cut] == head + tail[..cut - |head|];
      ReadWhole(c, r, fs[0], tail[..cut - |head|], off);
    } else {
      assert (head + tail)[..cut] == head[..cut];
      ReadCut(c, r, fs[0], head[..cut], off);
    }
  }

  /** Reading the record fs, followed by gs, from a file cut after `cut` bytes. */
  ghost predicate ReadsOrVanishes(c: Check, l: Logical, whole: Bytes, fs: seq<Fragment>, gs: seq<Fragment>, off: nat, cut: nat)
    requires Fits(c, fs, off) && Fits(c, gs, End(c, fs, off))
  {
    var n, todo := |Layout(c, fs, off)|, Layout(c, gs, End(c, fs, off));
    if n <= cut then
      l.record == whole && cut - n <= |todo| && At(l.reader, todo[..cut - n], End(c, fs, off))
    else
      l.record == [] && AtEnd(l.reader)
  }

  lemma ShiftOutcome(c: Check, l: Logical, whole: Bytes, fs: seq<Fragment>, gs: seq<Fragment>, off: nat, cut: nat)
    requires fs != [] && Fits(c, fs, off) && Fits(c, gs, End(c, fs, off))
    ensures FragmentOk(c, fs[0]) && After(off, fs[0]) <= BLOCK_SIZE && Fits(c, fs[1..], After(off, fs[0]))
    ensures var off', n := After(off, fs[0]), |HeadBytes(fs[0], off)|;
      && End(c, fs[1..], off') == End(c, fs, off)
      && |Layout(c, fs, off)| == n + |Layout(c, fs[1..], off')|
      && (n <= cut && ReadsOrVanishes(c, l, whole, fs[1..], gs, off', cut - n) ==> ReadsOrVanishes(c, l, whole, fs, gs, off, cut))
  {
    hide At, Fits, Layout, HeadBytes, End;
    LayoutHead(c, fs, off);
  }

  /** Inside a fragmented record: the remaining fragments are collected, or the cut makes it vanish. */
  lemma {:induction false} ReadTail(c: Check, r: Reader, fs: seq<Fragment>, gs: seq<Fragment>, off: nat, cut: nat, acc: Bytes)
    requires IsTail(fs) && Fits(c, fs + gs, off) && Fits(c, fs, off) && Fits(c, gs, End(c, fs, off))
    requires cut <= |Layout(c, fs + gs, off)| && At(r, Layout(c, fs + gs, off)[..cut], off)
    ensures ReadsOrVanishes(c, ReadFragments(c, r, acc, true), acc + Content(fs), fs, gs, off, cut)
    decreases |fs|
  {
    hide ReadPhysical, At, Fits, Layout, HeadBytes, End;
    LayoutHead(c, fs, off);
    var all, off', n := fs + gs, After(off, fs[0]), |HeadBytes(fs[0], off)|;
    assert all[1..] == fs[1..] + gs && all[0] == fs[0];
    ReadHead(c, r, all, off, cut);
    var l := ReadFragments(c, r, acc, true);
    ShiftOutcome(c, l, acc + Content(fs), fs, gs, off, cut);
    if n <= cut {
      if |fs| == 1 {
        EmptyLayout(c, off');
        assert all[1..] == gs && fs[1..] == [];
        assert Content(fs) == fs[0].data + Content([]);
      } else {
        ReadTail(c, ReadPhysical(c, r).reader, fs[1..], gs, off', cut - n, acc + fs[0].data);
        assert acc + fs[0].data + Content(fs[1..]) == acc + Content(fs);
      }
    }
  }

  lemma FitsOffset(c: Check, fs: seq<Fragment>, off: nat)
    requires Fits(c, fs, off)
    ensures off <= BLOCK_SIZE
  {
  }

  lemma EmptyLayout(c: Check, off: nat)
    requires off <= BLOCK_SIZE
    ensures Fits(c, [], off) && Layout(c, [], off) == [] && End(c, [], off) == off
  {
  }

  lemma ReadOne(c: Check, r: Reader, fs: seq<Fragment>, gs: seq<Fragment>, off: nat, cut: nat)
    requires IsRecord(fs) && Fits(c, fs + gs, off) && Fits(c, fs, off) && Fits(c, gs, End(c, fs, off))
    requires cut <= |Layout(c, fs + gs, off)| && At(r, Layout(c, fs + gs, off)[..cut], off)
    ensures ReadsOrVanishes(c, ReadRecord(c, r), Content(fs), fs, gs, off, cut)
  {
    hide ReadPhysical, At, Fits, Layout, HeadBytes, End, IsTail;
    LayoutHead(c, fs, off);
    var all, off', n := fs + gs, After(off, fs[0]), |HeadBytes(fs[0], off)|;
    assert all[1..] == fs[1..] + gs && all[0] == fs[0];
    ReadHead(c, r, all, off, cut);
    var l := ReadRecord(c, r);
    ShiftOutcome(c, l, Content(fs), fs, gs, off, cut);
    if n <= cut {
      if |fs| == 1 {
        EmptyLayout(c, off');
        assert all[1..] == gs && fs[1..] == [];
        assert Content(fs) == fs[0].data + Content([]);
      } else {
        assert [] + fs[0].data == fs[0].data;
        ReadTail(c, ReadPhysical(c, r).reader, fs[1..], gs, off', cut - n, fs[0].data);
      }
    }
  }

  // ------------------------------------------------------------- reading a log

  ghost function Flat(recs: seq<seq<Fragment>>): seq<Fragment> {
    if recs == [] then [] else recs[0] + Flat(recs[1..])
  }

  function Contents(recs: seq<seq<Fragment>>): seq<Bytes> {
    if recs == [] then [] else [Content(recs[0])] + Contents(recs[1..])
  }

  ghost predicate IsLog(c: Check, recs: seq<seq<Fragment>>, off: nat) {
    Fits(c, Flat(recs), off) && forall i | 0 <= i < |recs| :: IsRecord(recs[i])
  }

  /** How many leading records lie wholly within the first `cut` bytes. */
  ghost function WholeBefore(c: Check, recs: seq<seq<Fragment>>, off: nat, cut: nat): (k: nat)
    requires IsLog(c, recs, off)
    ensures k <= |recs|
    decreases |recs|
  {
    if recs == [] then 0
    else
      LayoutAppend(c, recs[0], Flat(recs[1..]), off);
      var n := |Layout(c, recs[0], off)|;
      if n <= cut then 1 + WholeBefore(c, recs[1..], End(c, recs[0], off), cut - n) else 0
  }

  lemma {:induction false} ReadAllFrom(c: Check, r: Reader, recs: seq<seq<Fragment>>, off: nat, cut: nat)
    requires IsLog(c, recs, off) && cut <= |Layout(c, Flat(recs), off)|
    requires At(r, Layout(c, Flat(recs), off)[..cut], off)
    ensures ReadAll(c, r) == Contents(recs[..WholeBefore(c, recs, off, cut)])
    decreases |recs|
  {
    hide ReadRecord, At, IsTail, Fits, Layout, End;
    FitsOffset(c, Flat(recs), off);
    if recs == [] {
      EmptyLayout(c, off);
      assert Layout(c, Flat(recs), off)[..cut] == [];
      ReadNothing(c, r, off);
      NothingIsEof(c, r);
    } else {
      var fs, gs := recs[0], Flat(recs[1..]);
      LayoutAppend(c, fs, gs, off);
      ReadOne(c, r, fs, gs, off, cut);
      var n := |Layout(c, fs, off)|;
      if n <= cut {
        ReadAllFrom(c, ReadRecord(c, r).reader, recs[1..], End(c, fs, off), cut - n);
        var k := WholeBefore(c, recs[1..], End(c, fs, off), cut - n);
        assert recs[..1+k][1..] == recs[1..][..k];
      } else {
        assert recs[..0] == [];
      }
    }
  }

  /** The bytes of a log, from the start of a file. */
  ghost function LogBytes(c: Check, recs: seq<seq<Fragment>>): Bytes
    requires IsLog(c, recs, 0)
  {
    Layout(c, Flat(recs), 0)
  }

  /** A file starts as if a block had just ended. */
  lemma FileStart(c: Check, fs: seq<Fragment>)
    requires Fits(c, fs, 0)
    ensures Fits(c, fs, BLOCK_SIZE) && Layout(c, fs, BLOCK_SIZE) == Layout(c, fs, 0)
  {
  }

  lemma {:induction false} FlatPrefix(recs: seq<seq<Fragment>>, k: nat)
    requires k <= |recs|
    ensures Flat(recs) == Flat(recs[..k]) + Flat(recs[k..])
  {
    if k == 0 {
      assert recs[k..] == recs && recs[..k] == [];
    } else {
      FlatPrefix(recs[1..], k - 1);
      assert recs[..k][1..] == recs[1..][..k-1] && recs[..k][0] == recs[0] && recs[1..][k-1..] == recs[k..];
    }
  }

  lemma PrefixIsLog(c: Check, recs: seq<seq<Fragment>>, off: nat, k: nat)
    requires IsLog(c, recs, off) && k <= |recs|
    ensures IsLog(c, recs[..k], off)
  {
    FlatPrefix(recs, k);
    LayoutAppend(c, Flat(recs[..k]), Flat(recs[k..]), off);
  }

  /** WholeBefore counts exactly the records whose last byte lies before the cut. */
  lemma {:induction false} WholeBeforeExact(c: Check, recs: seq<seq<Fragment>>, off: nat, cut: nat, k: nat)
    requires IsLog(c, recs, off) && k <= |recs|
    requires IsLog(c, recs[..k], off) && |Layout(c, Flat(recs[..k]), off)| <= cut
    requires k < |recs| ==> IsLog(c, recs[..k+1], off) && cut < |Layout(c, Flat(recs[..k+1]), off)|
    ensures WholeBefore(c, recs, off, cut) == k
    decreases k
  {
    hide Fits, Layout, End, IsRecord;
    if recs != [] {
      var fs, off', n := recs[0], End0(c, recs, off), Layout0(c, recs, off);
      if k == 0 {
        assert recs[..1] == [fs] && Flat([fs]) == fs + Flat([]) == fs;
      } else {
        HeadOfPrefix(c, recs, off, k);
        if k < |recs| {
          HeadOfPrefix(c, recs, off, k + 1);
        }
        WholeBeforeExact(c, recs[1..], off', cut - n, k - 1);
      }
    }
  }

  ghost function End0(c: Check, recs: seq<seq<Fragment>>, off: nat): nat
    requires recs != [] && IsLog(c, recs, off)
  {
    LayoutAppend(c, recs[0], Flat(recs[1..]), off);
    End(c, recs[0], off)
  }

  ghost function Layout0(c: Check, recs: seq<seq<Fragment>>, off: nat): nat
    requires recs != [] && IsLog(c, recs, off)
  {
    LayoutAppend(c, recs[0], Flat(recs[1..]), off);
    |Layout(c, recs[0], off)|
  }

  lemma HeadOfPrefix(c: Check, recs: seq<seq<Fragment>>, off: nat, k: nat)
    requires recs != [] && IsLog(c, recs, off) && 0 < k <= |recs| && IsLog(c, recs[..k], off)
    ensures IsLog(c, recs[1..], End0(c, recs, off)) && IsLog(c, recs[1..][..k-1], End0(c, recs, off))
    ensures |Layout(c, Flat(recs[..k]), off)| == Layout0(c, recs, off) + |Layout(c, Flat(recs[1..][..k-1]), End0(c, recs, off))|
  {
    hide Fits, Layout, End, IsRecord;
    LayoutAppend(c, recs[0], Flat(recs[1..]), off);
    assert recs[..k][0] == recs[0] && recs[..k][1..] == recs[1..][..k-1];
    LayoutAppend(c, recs[0], Flat(recs[1..][..k-1]), off);
  }

  /**
   Log cut safety: the bytes of any log, cut after any number of bytes, read back as exactly
   the k records that end at or before the cut, in order, and then as end of file.
   */
  lemma LogCutSafety(c: Check, recs: seq<seq<Fragment>>, cut: nat, k: nat)
    requires IsLog(c, recs, 0) && cut <= |LogBytes(c, recs)| && k <= |recs|
    requires IsLog(c, recs[..k], 0) && |LogBytes(c, recs[..k])| <= cut
    requires k < |recs| ==> IsLog(c, recs[..k+1], 0) && cut < |LogBytes(c, recs[..k+1])|
    ensures ReadAll(c, Open(LogBytes(c, recs)[..cut])) == Contents(recs[..k])
  {
    FromStart(c, recs);
    FromStart(c, recs[..k]);
    if k < |recs| {
      FromStart(c, recs[..k+1]);
    }
    OpenAt(LogBytes(c, recs)[..cut]);
    ReadAllFrom(c, Open(LogBytes(c, recs)[..cut]), recs, BLOCK_SIZE, cut);
    WholeBeforeExact(c, recs, BLOCK_SIZE, cut, k);
  }

  lemma FromStart(c: Check, recs: seq<seq<Fragment>>)
    requires IsLog(c, recs, 0)
    ensures IsLog(c, recs, BLOCK_SIZE) && Layout(c, Flat(recs), BLOCK_SIZE) == LogBytes(c, recs)
  {
    FileStart(c, Flat(recs));
  }

  /** Every cut has such a k, so the theorem speaks about every cut. */
  lemma {:induction false} CutHasCount(c: Check, recs: seq<seq<Fragment>>, off: nat, cut: nat) returns (k: nat)
    requires IsLog(c, recs, off)
    ensures k <= |recs| && IsLog(c, recs[..k], off) && |Layout(c, Flat(recs[..k]), off)| <= cut
    ensures k < |recs| ==> IsLog(c, recs[..k+1], off) && cut < |Layout(c, Flat(recs[..k+1]), off)|
  {
    hide Fits, Layout, IsRecord;
    k := |recs|;
    PrefixIsLog(c, recs, off, k);
    while |Layout(c, Flat(recs[..k]), off)| > cut
      invariant k <= |recs| && IsLog(c, recs[..k], off)
      invariant k < |recs| ==> IsLog(c, recs[..k+1], off) && cut < |Layout(c, Flat(recs[..k+1]), off)|
      decreases k
    {
      if k == 0 {
        EmptyLog(c, recs, off);
      }
      PrefixIsLog(c, recs, off, k - 1);
      k := k - 1;
    }
  }

  lemma EmptyLog(c: Check, recs: seq<seq<Fragment>>, off: nat)
    requires IsLog(c, recs[..0], off)
    ensures |Layout(c, Flat(recs[..0]), off)| == 0
  {
    assert recs[..0] == [];
  }

  // ------------------------------------------------------------------- writing

  /** How LevelDB's writer splits a record: as much as fits, then on in the next block. */
  ghost function Split(c: Check, data: Bytes, off: nat, begin: bool): (fs: seq<Fragment>)
    requires off <= BLOCK_SIZE
    decreases |data|, Start(off)
  {
    var room := BLOCK_SIZE - Start(off) - HEADER_SIZE;
    if |data| <= room then
      var kind := if begin then FULL else LAST;
      [Fragment(c.sum([kind] + data), kind, data)]
    else
      var kind := if begin then FIRST else MIDDLE;
      [Fragment(c.sum([kind] + data[..room]), kind, data[..room])] + Split(c, data[room..], BLOCK_SIZE, false)
  }

  /** Every non-empty record has a well-formed fragmentation from every block offset. */
  lemma {:induction false} SplitIsRecord(c: Check, data: Bytes, off: nat, begin: bool)
    requires off <= BLOCK_SIZE && forall b: Bytes :: |c.sum(b)| == 4
    ensures var fs := Split(c, data, off, begin);
      Fits(c, fs, off) && Content(fs) == data
      && (begin && data != [] ==> IsRecord(fs)) && (!begin ==> IsTail(fs))
    decreases |data|, Start(off)
  {
    var room := BLOCK_SIZE - Start(off) - HEADER_SIZE;
    var fs := Split(c, data, off, begin);
    if |data| <= room {
      SplitWhole(c, data, off, begin);
    } else {
      var rest := Split(c, data[room..], BLOCK_SIZE, false);
      SplitIsRecord(c, data[room..], BLOCK_SIZE, false);
      assert fs == [fs[0]] + rest;
      hide Split;
      PrependFragment(c, fs[0], rest, off);
      assert data == data[..room] + data[room..];
    }
  }

  lemma SplitWhole(c: Check, data: Bytes, off: nat, begin: bool)
    requires off <= BLOCK_SIZE && (forall b: Bytes :: |c.sum(b)| == 4) && |data| <= BLOCK_SIZE - Start(off) - HEADER_SIZE
    ensures var fs := Split(c, data, off, begin);
      Fits(c, fs, off) && Content(fs) == data
      && (begin && data != [] ==> IsRecord(fs)) && (!begin ==> IsTail(fs))
  {
    var fs := Split(c, data, off, begin);
    assert fs[1..] == [];
  }

  /** A fragment that fills its block, in front of the rest of a record. */
  lemma PrependFragment(c: Check, f: Fragment, rest: seq<Fragment>, off: nat)
    requires off <= BLOCK_SIZE && FragmentOk(c, f) && After(off, f) == BLOCK_SIZE
    requires Fits(c, rest, BLOCK_SIZE) && IsTail(rest)
    ensures Fits(c, [f] + rest, off) && Content([f] + rest) == f.data + Content(rest)
    ensures f.kind == FIRST && f.data + Content(rest) != [] ==> IsRecord([f] + rest)
    ensures f.kind == MIDDLE ==> IsTail([f] + rest)
  {
    hide FragmentOk;
    assert ([f] + rest)[1..] == rest;
  }

  lemma {:induction false} FitsJoin(c: Check, fs: seq<Fragment>, gs: seq<Fragment>, off: nat)
    requires Fits(c, fs, off) && Fits(c, gs, End(c, fs, off))
    ensures Fits(c, fs + gs, off)
  {
    if fs == [] {
      assert fs + gs == gs;
    } else {
      FitsJoin(c, fs[1..], gs, After(off, fs[0]));
      assert (fs + gs)[1..] == fs[1..] + gs;
    }
  }

  /** A log holding the given records, as a writer appending one after the other leaves it. */
  ghost function Write(c: Check, datas: seq<Bytes>, off: nat): seq<seq<Fragment>>
    requires off <= BLOCK_SIZE && forall b: Bytes :: |c.sum(b)| == 4
  {
    if datas == [] then []
    else
      SplitIsRecord(c, datas[0], off, true);
      var fs := Split(c, datas[0], off, true);
      [fs] + Write(c, datas[1..], End(c, fs, off))
  }

  lemma {:induction false} WriteIsLog(c: Check, datas: seq<Bytes>, off: nat)
    requires off <= BLOCK_SIZE && (forall b: Bytes :: |c.sum(b)| == 4) && [] !in datas
    ensures IsLog(c, Write(c, datas, off), off) && Contents(Write(c, datas, off)) == datas
  {
    hide Split, Fits, IsTail;
    if datas == [] {
      EmptyLayout(c, off);
    } else {
      SplitIsRecord(c, datas[0], off, true);
      var fs := Split(c, datas[0], off, true);
      WriteIsLog(c, datas[1..], End(c, fs, off));
      var recs := Write(c, datas[1..], End(c, fs, off));
      FitsJoin(c, fs, Flat(recs), off);
      assert ([fs] + recs)[1..] == recs;
    }
  }

  lemma {:induction false} ContentsPrefix(recs: seq<seq<Fragment>>, k: nat)
    requires k <= |recs|
    ensures |Contents(recs)| == |recs| && Contents(recs[..k]) == Contents(recs)[..k]
  {
    if recs != [] {
      if k > 0 {
        ContentsPrefix(recs[1..], k - 1);
        assert recs[..k][1..] == recs[1..][..k-1];
      } else {
        ContentsPrefix(recs[1..], 0);
      }
    }
  }

  /** Whatever non-empty records were written, a crash at any byte loses a suffix of them and nothing else. */
  lemma CrashLosesSuffix(c: Check, datas: seq<Bytes>, cut: nat)
    requires (forall b: Bytes :: |c.sum(b)| == 4) && [] !in datas
    ensures IsLog(c, Write(c, datas, 0), 0)
    ensures var log := LogBytes(c, Write(c, datas, 0));
      && (cut <= |log| ==> ReadAll(c, Open(log[..cut])) <= datas)
      && (cut == |log| ==> ReadAll(c, Open(log[..cut])) == datas)
  {
    hide Layout, Fits, IsRecord, Write, ReadAll;
    var recs := Write(c, datas, 0);
    WriteIsLog(c, datas, 0);
    if cut <= |LogBytes(c, recs)| {
      var k := CutHasCount(c, recs, 0, cut);
      LogCutSafety(c, recs, cut, k);
      ContentsPrefix(recs, k);
      if cut == |LogBytes(c, recs)| {
        assert recs[..|recs|] == recs;
        LogCutSafety(c, recs, cut, |recs|);
      }
    }
  }

  // ----------------------------------------------------------------- the object

  class LogReader {
    const check: Check
    var rest: Bytes
    var buffer: Bytes
    var eof: bool

    function State(): Reader
      reads this
    {
      Reader(rest, buffer, eof)
    }

    constructor (check: Check, file: Bytes)
      ensures State() == Open(file) && this.check == check
    {
      this.check := check;
      rest, buffer, eof := file, [], false;
    }

    /** read_physical_record */
    method ReadPhysicalRecord() returns (data: Bytes, kind: int)
      modifies this
      ensures ReadPhysical(check, old(State())) == Physical(State(), data, kind)
    {
      while |buffer| < HEADER_SIZE
        invariant ReadPhysical(check, State()) == ReadPhysical(check, old(State()))
        decreases if eof then 0 else 1 + |rest|
      {
        if eof {
          buffer := [];
          return [], EOF;
        }
        var n := if |rest| < BLOCK_SIZE then |rest| else BLOCK_SIZE;
        buffer, rest := rest[..n], rest[n..];
        eof := n < BLOCK_SIZE;
      }
      var n := Length(buffer);
      kind := buffer[6];
      if HEADER_SIZE + n > |buffer| {
        buffer := [];
        return [], if eof then EOF else BAD_RECORD;
      }
      if kind == ZERO && n == 0 {
        buffer := [];
        return [], BAD_RECORD;
      }
      if check.enabled && buffer[..4] != check.sum(buffer[6..7+n]) {
        buffer := [];
        return [], BAD_RECORD;
      }
      data := buffer[7..7+n];
      buffer := buffer[7+n..];
    }

    /** read_record */
    method ReadNextRecord() returns (record: Bytes)
      modifies this
      ensures ReadRecord(check, old(State())) == Logical(State(), record)
    {
      record := [];
      var inside, done := false, false;
      while !done
        invariant !done ==> ReadFragments(check, State(), record, inside) == ReadRecord(check, old(State()))
        invariant done ==> ReadRecord(check, old(State())) == Logical(State(), record)
        decreases !done, Size(State())
      {
        hide ReadPhysical;
        var data, kind := ReadPhysicalRecord();
        if kind == FULL {
          record := record + data;
          done := true;
        } else if kind == FIRST {
          record := record + data;
          inside := true;
        } else if kind == MIDDLE {
          if inside {
            record := record + data;
          }
        } else if kind == LAST && inside {
          record := record + data;
          done := true;
        } else if kind == LAST || kind == EOF {
          if inside {
            record := [];
          }
          done := true;
        } else if kind == BAD_RECORD {
          if inside {
            inside := false;
            record := [];
          }
        } else {
          inside := false;
          record := [];
        }
      }
    }
  }
}
