/**
 What checksums are for.  On any file whatsoever, everything the reader returns is made of
 fragments that stand in the file with a matching checksum; and in a log with one altered
 fragment, the record that fragment belongs to is never returned.
 */
module LogIntegrity {
  import opened Coding
  import opened Logs

  // ------------------------------------------------------------- any file

  /** A fragment and where it begins in a file. */
  datatype Piece = Piece(at: nat, f: Fragment)

  ghost predicate Stands(file: Bytes, p: Piece) {
    && |p.f.sum| == 4 && |p.f.data| < 0x1_0000
    && PieceEnd(p) <= |file| && file[p.at..PieceEnd(p)] == FragmentBytes(p.f)
  }

  function PieceEnd(p: Piece): nat {
    p.at + HEADER_SIZE + |p.f.data|
  }

  ghost predicate Matches(c: Check, f: Fragment) {
    f.sum == c.sum([f.kind] + f.data)
  }

  /** Pieces of the file between lo and hi, one after the other, each with its checksum right. */
  ghost predicate Sourced(c: Check, file: Bytes, ps: seq<Piece>, lo: nat, hi: nat) {
    && (forall i | 0 <= i < |ps| :: Stands(file, ps[i]) && Matches(c, ps[i].f) && lo <= ps[i].at && PieceEnd(ps[i]) <= hi)
    && (forall i, j | 0 <= i < j < |ps| :: PieceEnd(ps[i]) <= ps[j].at)
  }

  function Gather(ps: seq<Piece>): Bytes {
    if ps == [] then [] else Gather(ps[..|ps|-1]) + ps[|ps|-1].f.data
  }

  /** The reader's unread bytes are the end of the file. */
  ghost predicate Reads(file: Bytes, r: Reader) {
    Size(r) <= |file| && r.buffer + r.rest == file[|file| - Size(r)..]
  }

  /** How far into the file the reader is. */
  function Pos(file: Bytes, r: Reader): int {
    |file| - Size(r)
  }

  lemma BytesOfHeader(b: Bytes)
    requires |b| >= HEADER_SIZE && HEADER_SIZE + Length(b) <= |b|
    ensures var n := Length(b); n < 0x1_0000 && b[..7+n] == FragmentBytes(Fragment(b[..4], b[6], b[7..7+n]))
  {
    var low: int, high: int, n := b[4], b[5], Length(b);
    assert n % 256 == low && n / 256 == high;
    assert b[..7+n] == b[..4] + [b[4], b[5], b[6]] + b[7..7+n];
  }

  lemma ReadsDrop(file: Bytes, r: Reader, n: nat)
    requires Reads(file, r) && n <= |r.buffer|
    ensures Reads(file, r.(buffer := r.buffer[n..]))
  {
    var all := r.buffer + r.rest;
    assert all[n..] == r.buffer[n..] + r.rest;
  }

  lemma ReadsNextBlock(file: Bytes, r: Reader)
    requires Reads(file, r)
    ensures Reads(file, NextBlock(r)) && Pos(file, r) <= Pos(file, NextBlock(r))
  {
    var all := r.buffer + r.rest;
    assert all[|r.buffer|..] == r.rest;
    var n := NextBlock(r);
    assert n.buffer + n.rest == r.rest;
  }

  lemma FileStarts(file: Bytes, r: Reader, n: nat)
    requires Reads(file, r) && n <= |r.buffer|
    ensures var at := Pos(file, r); file[at..at+n] == r.buffer[..n]
  {
    var at, all := Pos(file, r), r.buffer + r.rest;
    assert file[at..at+n] == all[..n] == r.buffer[..n];
  }

  lemma PieceHere(file: Bytes, r: Reader)
    requires Reads(file, r) && |r.buffer| >= HEADER_SIZE && HEADER_SIZE + Length(r.buffer) <= |r.buffer|
    ensures var at, b, n := Pos(file, r), r.buffer, Length(r.buffer);
      0 <= at && at + 4 <= |file| && file[at..at+4] == b[..4] && Stands(file, Piece(at, Fragment(b[..4], b[6], b[7..7+n])))
  {
    hide FragmentBytes;
    BytesOfHeader(r.buffer);
    FileStarts(file, r, 7 + Length(r.buffer));
    FileStarts(file, r, 4);
  }

  lemma ParsedIsSourced(c: Check, file: Bytes, r: Reader)
    requires Reads(file, r) && |r.buffer| >= HEADER_SIZE && c.enabled
    ensures var p := ParseRecord(c, r);
      && Reads(file, p.reader)
      && (p.kind != EOF && p.kind != BAD_RECORD ==>
            && 0 <= p.kind < 256 && Pos(file, r) <= Pos(file, p.reader) - HEADER_SIZE - |p.data|
            && var at := Pos(file, p.reader) - HEADER_SIZE - |p.data|;
               var x := Piece(at, Fragment(file[at..at+4], p.kind, p.data));
               Stands(file, x) && Matches(c, x.f))
  {
    hide Reads, Stands, Length;
    var n, b := Length(r.buffer), r.buffer;
    assert b[|b|..] == [];
    ReadsDrop(file, r, |b|);
    if HEADER_SIZE + n <= |b| {
      ReadsDrop(file, r, 7 + n);
      PieceHere(file, r);
      assert b[6..7+n] == [b[6]] + b[7..7+n];
    }
  }

  /**
   A physical record that is not refused is a fragment of the file, at or after the reader's
   position, whose stored checksum is that of its contents.
   */
  lemma {:induction false} PhysicalIsSourced(c: Check, file: Bytes, r: Reader)
    requires Reads(file, r) && c.enabled
    ensures var p := ReadPhysical(c, r);
      && Reads(file, p.reader)
      && (p.kind != EOF && p.kind != BAD_RECORD ==>
            && 0 <= p.kind < 256 && Pos(file, r) <= Pos(file, p.reader) - HEADER_SIZE - |p.data|
            && var at := Pos(file, p.reader) - HEADER_SIZE - |p.data|;
               var x := Piece(at, Fragment(file[at..at+4], p.kind, p.data));
               Stands(file, x) && Matches(c, x.f))
    decreases if r.eof then 0 else 1 + |r.rest|
  {
    hide ParseRecord, Stands, Matches;
    if |r.buffer| >= HEADER_SIZE {
      ParsedIsSourced(c, file, r);
    } else if r.eof {
      ReadsDrop(file, r, |r.buffer|);
      assert r.buffer[|r.buffer|..] == [];
    } else {
      ReadsNextBlock(file, r);
      PhysicalIsSourced(c, file, NextBlock(r));
    }
  }

  lemma SourcedMore(c: Check, file: Bytes, ps: seq<Piece>, lo: nat, mid: nat, x: Piece, hi: nat)
    requires Sourced(c, file, ps, lo, mid) && Stands(file, x) && Matches(c, x.f)
    requires lo <= mid <= x.at && PieceEnd(x) <= hi
    ensures Sourced(c, file, ps + [x], lo, hi) && Gather(ps + [x]) == Gather(ps) + x.f.data
  {
    assert (ps + [x])[..|ps|] == ps;
  }

  /** A sourced list stays so when the end is moved up, and the empty list always is. */
  lemma SourcedWider(c: Check, file: Bytes, ps: seq<Piece>, lo: nat, mid: nat, hi: nat)
    requires lo <= mid
    ensures Sourced(c, file, ps, lo, mid) && mid <= hi ==> Sourced(c, file, ps, lo, hi)
    ensures forall h | lo <= h :: Sourced(c, file, [], lo, h)
  {
  }

  lemma PosBounds(file: Bytes, r: Reader)
    requires Reads(file, r)
    ensures 0 <= Pos(file, r) <= |file|
  {
  }

  lemma FragmentTurn(c: Check, r: Reader, acc: Bytes, inside: bool)
    ensures var p, l := ReadPhysical(c, r), ReadFragments(c, r, acc, inside);
      var kept := if inside then [] else acc;
      if p.kind == FULL || (p.kind == LAST && inside) then l == Logical(p.reader, acc + p.data)
      else if p.kind == LAST || p.kind == EOF then l == Logical(p.reader, kept)
      else if p.kind == BAD_RECORD then l == ReadFragments(c, p.reader, kept, false)
      else if p.kind == FIRST || (p.kind == MIDDLE && inside) then l == ReadFragments(c, p.reader, acc + p.data, true)
      else l == ReadFragments(c, p.reader, if p.kind == MIDDLE then acc else [], false)
  {
    hide ReadPhysical;
  }

  /** A physical record that is not refused is one more piece. */
  lemma OneMorePiece(c: Check, file: Bytes, r: Reader, ps: seq<Piece>, lo: nat) returns (qs: seq<Piece>)
    requires Reads(file, r) && c.enabled && lo <= Pos(file, r) && Sourced(c, file, ps, lo, Pos(file, r))
    requires ReadPhysical(c, r).kind != EOF && ReadPhysical(c, r).kind != BAD_RECORD
    ensures var p := ReadPhysical(c, r);
      Pos(file, p.reader) >= 0 && Sourced(c, file, qs, lo, Pos(file, p.reader)) && Gather(qs) == Gather(ps) + p.data
  {
    hide ReadPhysical, Stands, Matches, Reads, Sourced, Gather;
    var p := ReadPhysical(c, r);
    PhysicalIsSourced(c, file, r);
    var at := Pos(file, p.reader) - HEADER_SIZE - |p.data|;
    var x := Piece(at, Fragment(file[at..at+4], p.kind, p.data));
    SourcedMore(c, file, ps, lo, Pos(file, r), x, Pos(file, p.reader));
    qs := ps + [x];
  }

  /** The pieces collected so far, or none, lie before where the reader is next. */
  lemma KeptPieces(c: Check, file: Bytes, r: Reader, ps: seq<Piece>, lo: nat)
    requires Reads(file, r) && c.enabled && lo <= Pos(file, r) && Sourced(c, file, ps, lo, Pos(file, r))
    ensures var p := ReadPhysical(c, r);
      Reads(file, p.reader) && Pos(file, r) <= Pos(file, p.reader)
      && Sourced(c, file, ps, lo, Pos(file, p.reader)) && Sourced(c, file, [], lo, Pos(file, p.reader))
  {
    hide ReadPhysical, Stands, Matches, Reads, Sourced;
    var p := ReadPhysical(c, r);
    PhysicalIsSourced(c, file, r);
    PosBounds(file, p.reader);
    SourcedWider(c, file, ps, lo, Pos(file, r), Pos(file, p.reader));
  }

  /** One turn of the reader's loop: what it has collected stays gathered from pieces. */
  lemma TurnIsSourced(c: Check, file: Bytes, r: Reader, acc: Bytes, inside: bool, ps: seq<Piece>, lo: nat)
    returns (stop: bool, qs: seq<Piece>, inside': bool)
    requires Reads(file, r) && c.enabled && lo <= Pos(file, r) && Sourced(c, file, ps, lo, Pos(file, r)) && acc == Gather(ps)
    ensures var p, l := ReadPhysical(c, r), ReadFragments(c, r, acc, inside);
      && Reads(file, p.reader) && Pos(file, r) <= Pos(file, p.reader) && Sourced(c, file, qs, lo, Pos(file, p.reader))
      && if stop then l == Logical(p.reader, Gather(qs))
         else p.kind != EOF && l == ReadFragments(c, p.reader, Gather(qs), inside')
  {
    var none: seq<Piece> := [];
    assert Gather(none) == [];
    hide ReadPhysical, ReadFragments, Reads, Sourced, Gather, Pos;
    var k := ReadPhysical(c, r).kind;
    KeptPieces(c, file, r, ps, lo);
    FragmentTurn(c, r, acc, inside);
    stop := k == EOF || k == FULL || k == LAST;
    inside' := k == FIRST || (k == MIDDLE && inside);
    if k == EOF || k == BAD_RECORD || (k == LAST && !inside) {
      qs := if inside then none else ps;
    } else if k == MIDDLE && !inside {
      qs := ps;
    } else if k == FULL || k == FIRST || k == MIDDLE || k == LAST {
      qs := OneMorePiece(c, file, r, ps, lo);
    } else {
      qs := none;
    }
  }

  /** The reader's loop: what it collects is gathered from pieces, whatever the file holds. */
  lemma {:induction false} FragmentsAreSourced(c: Check, file: Bytes, r: Reader, acc: Bytes, inside: bool, ps: seq<Piece>, lo: nat)
    returns (qs: seq<Piece>)
    requires Reads(file, r) && c.enabled && lo <= Pos(file, r) && Sourced(c, file, ps, lo, Pos(file, r)) && acc == Gather(ps)
    ensures var l := ReadFragments(c, r, acc, inside);
      && Reads(file, l.reader) && Pos(file, r) <= Pos(file, l.reader)
      && Sourced(c, file, qs, lo, Pos(file, l.reader)) && l.record == Gather(qs)
    decreases Size(r)
  {
    hide ReadPhysical, ReadFragments, Reads, Sourced, Gather;
    var stop, more, inside' := TurnIsSourced(c, file, r, acc, inside, ps, lo);
    qs := more;
    if !stop {
      qs := FragmentsAreSourced(c, file, ReadPhysical(c, r).reader, Gather(more), inside', more, lo);
    }
  }

  function Joined(pss: seq<seq<Piece>>): seq<Piece> {
    if pss == [] then [] else pss[0] + Joined(pss[1..])
  }

  lemma SourcedConcat(c: Check, file: Bytes, ps: seq<Piece>, qs: seq<Piece>, lo: nat, mid: nat, hi: nat)
    requires lo <= mid <= hi && Sourced(c, file, ps, lo, mid) && Sourced(c, file, qs, mid, hi)
    ensures Sourced(c, file, ps + qs, lo, hi)
  {
    hide Stands, Matches;
    var rs := ps + qs;
    forall i, j | 0 <= i < j < |rs| ensures PieceEnd(rs[i]) <= rs[j].at {
      if i < |ps| && j >= |ps| {
        assert rs[i] == ps[i] && rs[j] == qs[j - |ps|];
      }
    }
  }

  lemma {:induction false} AllIsSourced(c: Check, file: Bytes, r: Reader) returns (pss: seq<seq<Piece>>)
    requires Reads(file, r) && c.enabled
    ensures |pss| == |ReadAll(c, r)| && forall k | 0 <= k < |pss| :: ReadAll(c, r)[k] == Gather(pss[k])
    ensures Sourced(c, file, Joined(pss), Pos(file, r), |file|)
    decreases Size(r)
  {
    hide ReadFragments, Stands, Matches;
    var none: seq<Piece> := [];
    var l := ReadRecord(c, r);
    var qs := FragmentsAreSourced(c, file, r, [], false, none, Pos(file, r));
    if l.record == [] {
      pss := [];
    } else {
      var rest := AllIsSourced(c, file, l.reader);
      pss := [qs] + rest;
      assert Joined(pss) == qs + Joined(rest);
      SourcedConcat(c, file, qs, Joined(rest), Pos(file, r), Pos(file, l.reader), |file|);
    }
  }

  /**
   Whatever a file holds, with checksums on every record read from it is the concatenation of
   fragments that stand in the file with matching checksums, in file order over all records, so
   that no byte of the file is used twice.
   */
  lemma RecordsAreChecked(c: Check, file: Bytes) returns (pss: seq<seq<Piece>>)
    requires c.enabled
    ensures |pss| == |ReadAll(c, Open(file))|
    ensures forall k | 0 <= k < |pss| :: ReadAll(c, Open(file))[k] == Gather(pss[k])
    ensures Sourced(c, file, Joined(pss), 0, |file|)
  {
    assert file[0..] == file && [] + file == file;
    pss := AllIsSourced(c, file, Open(file));
  }

  /** A header of zeros, as in space that was allocated and not written, ends its block, whatever follows it there. */
  lemma ZerosEndBlock(c: Check, r: Reader)
    requires |r.buffer| >= HEADER_SIZE && forall i | 0 <= i < HEADER_SIZE :: r.buffer[i] == 0
    ensures ReadRecord(c, r) == ReadRecord(c, r.(buffer := []))
  {
    assert ReadPhysical(c, r) == Physical(r.(buffer := []), [], BAD_RECORD);
    hide ReadPhysical, ReadFragments;
    FragmentTurn(c, r, [], false);
  }

  /** A fragment of a kind there is none of makes the reader forget the record it was in and start over behind it. */
  lemma UnknownKindStartsOver(c: Check, r: Reader, acc: Bytes, inside: bool)
    requires ReadPhysical(c, r).kind == ZERO || ReadPhysical(c, r).kind > BAD_RECORD
    ensures ReadFragments(c, r, acc, inside) == ReadRecord(c, ReadPhysical(c, r).reader)
  {
    hide ReadPhysical, ReadFragments;
    FragmentTurn(c, r, acc, inside);
  }

  // ------------------------------------------------- a log with one bad fragment

  /** Reading a record whose fragments stand before arbitrary bytes. */
  lemma {:induction false} ReadTailThen(c: Check, r: Reader, fs: seq<Fragment>, tail: Bytes, off: nat, acc: Bytes)
    requires IsTail(fs) && Fits(c, fs, off) && At(r, Layout(c, fs, off) + tail, off)
    ensures var l := ReadFragments(c, r, acc, true);
      l.record == acc + Content(fs) && At(l.reader, tail, End(c, fs, off))
    decreases |fs|
  {
    hide ReadPhysical, At, Fits, Layout, HeadBytes, End;
    ReadFirstThen(c, r, fs, tail, off);
    var off' := After(off, fs[0]);
    if |fs| == 1 {
      EmptyLayout(c, off');
      assert fs[1..] == [] && [] + tail == tail;
      assert Content(fs) == fs[0].data + Content([]);
    } else {
      ReadTailThen(c, ReadPhysical(c, r).reader, fs[1..], tail, off', acc + fs[0].data);
      assert acc + fs[0].data + Content(fs[1..]) == acc + Content(fs);
    }
  }

  lemma ReadFirstThen(c: Check, r: Reader, fs: seq<Fragment>, tail: Bytes, off: nat)
    requires fs != [] && Fits(c, fs, off) && At(r, Layout(c, fs, off) + tail, off)
    ensures off <= BLOCK_SIZE && After(off, fs[0]) <= BLOCK_SIZE && Fits(c, fs[1..], After(off, fs[0]))
    ensures End(c, fs, off) == End(c, fs[1..], After(off, fs[0]))
    ensures var p := ReadPhysical(c, r);
      && p.data == fs[0].data && p.kind == fs[0].kind && FULL <= p.kind <= LAST
      && At(p.reader, Layout(c, fs[1..], After(off, fs[0])) + tail, After(off, fs[0]))
  {
    LayoutHead(c, fs, off);
    var more := Layout(c, fs[1..], After(off, fs[0]));
    hide ReadPhysical, At, Fits, Layout, End;
    assert HeadBytes(fs[0], off) + more + tail == HeadBytes(fs[0], off) + (more + tail);
    ReadWhole(c, r, fs[0], more + tail, off);
  }

  lemma ReadRecordThen(c: Check, r: Reader, fs: seq<Fragment>, tail: Bytes, off: nat)
    requires IsRecord(fs) && Fits(c, fs, off) && At(r, Layout(c, fs, off) + tail, off)
    ensures var l := ReadRecord(c, r); l.record == Content(fs) && At(l.reader, tail, End(c, fs, off))
  {
    hide ReadPhysical, At, Fits, Layout, HeadBytes, End, IsTail;
    ReadFirstThen(c, r, fs, tail, off);
    var off' := After(off, fs[0]);
    if |fs| == 1 {
      EmptyLayout(c, off');
      assert fs[1..] == [] && [] + tail == tail;
      assert Content(fs) == fs[0].data + Content([]);
    } else {
      assert [] + fs[0].data == fs[0].data;
      ReadTailThen(c, ReadPhysical(c, r).reader, fs[1..], tail, off', fs[0].data);
    }
  }

  /** Fragments with which a record begins and goes on, but does not end. */
  ghost predicate IsUnfinished(hs: seq<Fragment>, inside: bool) {
    hs != [] ==> hs[0].kind == (if inside then MIDDLE else FIRST) && IsUnfinished(hs[1..], true)
  }

  /** The beginning of a record is collected up to where it breaks off. */
  lemma {:induction false} ReadUnfinished(c: Check, r: Reader, hs: seq<Fragment>, tail: Bytes, off: nat, acc: Bytes, inside: bool)
    returns (r': Reader, acc': Bytes, inside': bool)
    requires IsUnfinished(hs, inside) && Fits(c, hs, off) && At(r, Layout(c, hs, off) + tail, off) && (inside || acc == [])
    ensures At(r', tail, End(c, hs, off)) && (inside' || acc' == [])
    ensures ReadFragments(c, r, acc, inside) == ReadFragments(c, r', acc', inside')
    decreases |hs|
  {
    hide ReadPhysical, At, Fits, Layout, HeadBytes, End;
    FitsOffset(c, hs, off);
    if hs == [] {
      EmptyLayout(c, off);
      assert [] + tail == tail;
      r', acc', inside' := r, acc, inside;
    } else {
      ReadFirstThen(c, r, hs, tail, off);
      r', acc', inside' := ReadUnfinished(c, ReadPhysical(c, r).reader, hs[1..], tail, After(off, hs[0]), acc + hs[0].data, true);
    }
  }

  /** What is left of a file after the rest of the current block is thrown away. */
  function AfterBlock(todo: Bytes, off: nat): Bytes
    requires off <= BLOCK_SIZE
  {
    if |todo| < BLOCK_SIZE - off then [] else todo[BLOCK_SIZE - off..]
  }

  lemma ReadBadHere(c: Check, r: Reader, f: Fragment, tail: Bytes, off: nat)
    requires c.enabled && |f.sum| == 4 && |f.data| < 0x1_0000 && !Matches(c, f)
    requires off + HEADER_SIZE + |f.data| <= BLOCK_SIZE && At(r, FragmentBytes(f) + tail, off)
    ensures var p := ReadPhysical(c, r);
      p.kind == BAD_RECORD && ReadsOn(p.reader, AfterBlock(FragmentBytes(f) + tail, off))
  {
    var todo, len := FragmentBytes(f) + tail, HEADER_SIZE + |f.data|;
    HeaderOf(f, tail);
    var n := Min(|todo|, BLOCK_SIZE - off);
    var rest := todo[len..n];
    assert r.buffer == FragmentBytes(f) + rest;
    HeaderOf(f, rest);
    if r.eof {
      assert r.rest == [];
    } else {
      assert At(Reader(r.rest, [], false), todo[n..], BLOCK_SIZE);
    }
  }

  /** The reader is between blocks with `todo` to come, or at the end of the file. */
  ghost predicate ReadsOn(r: Reader, todo: Bytes) {
    At(r, todo, BLOCK_SIZE) || (AtEnd(r) && todo == [])
  }

  lemma ReadBad(c: Check, r: Reader, f: Fragment, tail: Bytes, off: nat)
    requires off <= BLOCK_SIZE && c.enabled && |f.sum| == 4 && |f.data| < 0x1_0000 && !Matches(c, f)
    requires After(off, f) <= BLOCK_SIZE && At(r, HeadBytes(f, off) + tail, off)
    ensures var p := ReadPhysical(c, r);
      p.kind == BAD_RECORD && ReadsOn(p.reader, AfterBlock(tail, After(off, f)))
  {
    hide ReadPhysical, NextBlock, Matches;
    var todo := HeadBytes(f, off) + tail;
    assert |FragmentBytes(f)| == HEADER_SIZE + |f.data|;
    if BLOCK_SIZE - off < HEADER_SIZE {
      SkipPad(c, r, todo, off);
      assert todo[BLOCK_SIZE - off..] == FragmentBytes(f) + tail;
      ReadBadHere(c, NextBlock(r), f, tail, 0);
      SameAfterBlock(FragmentBytes(f), tail, 0);
    } else {
      assert todo == FragmentBytes(f) + tail;
      ReadBadHere(c, r, f, tail, off);
      SameAfterBlock(FragmentBytes(f), tail, off);
    }
  }

  lemma SameAfterBlock(x: Bytes, tail: Bytes, off: nat)
    requires off + |x| <= BLOCK_SIZE
    ensures AfterBlock(x + tail, off) == AfterBlock(tail, off + |x|)
  {
    if |tail| >= BLOCK_SIZE - off - |x| {
      assert (x + tail)[BLOCK_SIZE - off..] == tail[BLOCK_SIZE - off - |x|..];
    }
  }

  /** How many of the fragments laid out from offset off are still in the block of that offset. */
  ghost function SameBlock(c: Check, fs: seq<Fragment>, off: nat): (m: nat)
    requires Fits(c, fs, off)
    ensures m <= |fs|
  {
    if fs == [] || BLOCK_SIZE - off < HEADER_SIZE then 0 else 1 + SameBlock(c, fs[1..], After(off, fs[0]))
  }

  /** Throwing away the rest of a block of laid-out fragments leaves the fragments of the next blocks. */
  lemma {:induction false} BlockBoundary(c: Check, fs: seq<Fragment>, off: nat)
    requires Fits(c, fs, off)
    ensures var m := SameBlock(c, fs, off);
      Fits(c, fs[m..], BLOCK_SIZE) && AfterBlock(Layout(c, fs, off), off) == Layout(c, fs[m..], BLOCK_SIZE)
    decreases |fs|
  {
    hide FragmentBytes, Zeros, FragmentOk;
    if fs == [] {
      assert AfterBlock(Layout(c, fs, off), off) == [];
    } else if BLOCK_SIZE - off < HEADER_SIZE {
      var bytes := FragmentBytes(fs[0]) + Layout(c, fs[1..], After(off, fs[0]));
      assert fs[0..] == fs && Zeros(0) == [];
      assert Layout(c, fs, off) == Zeros(Pad(off)) + bytes;
      assert Layout(c, fs, BLOCK_SIZE) == Zeros(0) + bytes == bytes;
    } else {
      var off', x := After(off, fs[0]), HeadBytes(fs[0], off);
      LayoutHead(c, fs, off);
      BlockBoundary(c, fs[1..], off');
      var k := SameBlock(c, fs[1..], off');
      assert fs[k+1..] == fs[1..][k..];
      SameAfterBlock(x, Layout(c, fs[1..], off'), off);
    }
  }

  lemma ReadsOnWithNothing(c: Check, r: Reader)
    requires ReadsOn(r, [])
    ensures ReadAll(c, r) == []
  {
    if AtEnd(r) {
      assert At(r, [], 0);
      ReadNothing(c, r, 0);
    } else {
      ReadNothing(c, r, BLOCK_SIZE);
    }
    NothingIsEof(c, r);
  }

  /** Outside a record, the tail of one is skipped and then taken for the end of the file. */
  lemma {:induction false} StrayTail(c: Check, r: Reader, ts: seq<Fragment>, tail: Bytes, off: nat)
    requires IsTail(ts) && Fits(c, ts, off) && At(r, Layout(c, ts, off) + tail, off)
    ensures ReadRecord(c, r).record == []
    decreases |ts|
  {
    hide ReadPhysical, At, Fits, Layout, HeadBytes, End;
    ReadFirstThen(c, r, ts, tail, off);
    if |ts| > 1 {
      StrayTail(c, ReadPhysical(c, r).reader, ts[1..], tail, After(off, ts[0]));
    }
  }

  /** From any point of a log's fragments on there is the tail of a record, if any, and whole records. */
  lemma {:induction false} SuffixOfLog(recs: seq<seq<Fragment>>, p: nat) returns (ts: seq<Fragment>, k: nat)
    requires p <= |Flat(recs)| && forall i | 0 <= i < |recs| :: IsRecord(recs[i])
    ensures k <= |recs| && Flat(recs)[p..] == ts + Flat(recs[k..]) && (ts == [] || IsTail(ts))
    ensures |Flat(recs[..k])| == p + |ts| && (ts == [] || (k > 0 && |Flat(recs[..k-1])| < p))
    decreases |recs|
  {
    hide IsRecord, IsTail;
    assert recs[..0] == [];
    if recs == [] || p == 0 {
      ts, k := [], 0;
      assert recs[0..] == recs;
    } else if p < |recs[0]| {
      ts, k := recs[0][p..], 1;
      TailOfRecord(recs[0], p);
      assert recs[..1] == [recs[0]] && Flat([recs[0]]) == recs[0] + Flat([]) == recs[0];
    } else {
      var ts1, k1 := SuffixOfLog(recs[1..], p - |recs[0]|);
      ts, k := ts1, k1 + 1;
      assert recs[1..][k1..] == recs[k..];
      assert recs[..k][1..] == recs[1..][..k1] && recs[..k][0] == recs[0];
      assert Flat(recs)[p..] == Flat(recs[1..])[p - |recs[0]|..];
      if ts != [] {
        assert recs[..k1][1..] == recs[1..][..k1-1] && recs[..k1][0] == recs[0];
      }
    }
  }

  lemma TailOfRecord(fs: seq<Fragment>, p: nat)
    requires IsRecord(fs) && 0 < p < |fs|
    ensures IsTail(fs[p..])
  {
    TailOfTail(fs[1..], p - 1);
    assert fs[1..][p-1..] == fs[p..];
  }

  lemma {:induction false} TailOfTail(fs: seq<Fragment>, p: nat)
    requires IsTail(fs) && p < |fs|
    ensures IsTail(fs[p..])
    decreases p
  {
    if p == 0 {
      assert fs[0..] == fs;
    } else {
      TailOfTail(fs[1..], p - 1);
      assert fs[1..][p-1..] == fs[p..];
    }
  }

  /** Record k is the one whose first fragment is fragment p of the log, if there is one. */
  ghost predicate StartsAt(recs: seq<seq<Fragment>>, k: nat, p: nat) {
    && k <= |recs|
    && (k == |recs| || |Flat(recs[..k])| == p)
    && forall k' | 0 <= k' < |recs| && |Flat(recs[..k'])| == p :: k' == k
  }

  lemma SuffixStartsAt(recs: seq<seq<Fragment>>, p: nat, ts: seq<Fragment>, k: nat)
    requires (forall i | 0 <= i < |recs| :: IsRecord(recs[i])) && k <= |recs|
    requires |Flat(recs[..k])| == p + |ts| && (ts == [] || (k > 0 && |Flat(recs[..k-1])| < p))
    ensures StartsAt(recs, if ts == [] then k else |recs|, p)
  {
    forall k' | 0 <= k' < |recs| && |Flat(recs[..k'])| == p
      ensures ts == [] && k' == k
    {
      if k' < k {
        FlatGrows(recs, k', if ts == [] then k else k - 1);
      } else {
        FlatGrows(recs, k, k');
      }
    }
  }

  lemma {:induction false} FlatGrows(recs: seq<seq<Fragment>>, k: nat, j: nat)
    requires k <= j <= |recs| && forall i | 0 <= i < |recs| :: IsRecord(recs[i])
    ensures |Flat(recs[..k])| <= |Flat(recs[..j])|
    ensures k < j ==> |Flat(recs[..k])| < |Flat(recs[..j])|
    decreases j
  {
    assert recs[..0] == [];
    if j > 0 {
      assert recs[..j][1..] == recs[1..][..j-1] && recs[..j][0] == recs[0];
      assert IsRecord(recs[0]);
      if k > 0 {
        FlatGrows(recs[1..], k - 1, j - 1);
        assert recs[..k][1..] == recs[1..][..k-1] && recs[..k][0] == recs[0];
      }
    }
  }

  /** Reading on from a block boundary inside a log: the records from some point on, or nothing. */
  lemma ReadFromBoundary(c: Check, r: Reader, recs: seq<seq<Fragment>>, p: nat) returns (k: nat)
    requires p <= |Flat(recs)| && (forall i | 0 <= i < |recs| :: IsRecord(recs[i])) && Fits(c, Flat(recs)[p..], BLOCK_SIZE)
    requires ReadsOn(r, Layout(c, Flat(recs)[p..], BLOCK_SIZE))
    ensures StartsAt(recs, k, p) && ReadAll(c, r) == Contents(recs[k..])
  {
    hide At, Layout, Fits, IsRecord, ReadAll, StartsAt, ReadsOn, Contents, Flat;
    var ts, k1 := SuffixOfLog(recs, p);
    k := if ts == [] then k1 else |recs|;
    SuffixStartsAt(recs, p, ts, k1);
    if ts == [] {
      assert ts + Flat(recs[k..]) == Flat(recs[k..]);
      BoundaryRecords(c, r, recs[k..]);
    } else {
      BoundaryTail(c, r, ts, Flat(recs[k1..]));
      assert recs[k..] == [];
    }
  }

  lemma NothingLaidOut(c: Check, recs: seq<seq<Fragment>>, off: nat)
    requires IsLog(c, recs, off) && Layout(c, Flat(recs), off) == []
    ensures recs == []
  {
    assert recs == [] || IsRecord(recs[0]);
  }

  lemma BoundaryRecords(c: Check, r: Reader, recs: seq<seq<Fragment>>)
    requires IsLog(c, recs, BLOCK_SIZE) && ReadsOn(r, Layout(c, Flat(recs), BLOCK_SIZE))
    ensures ReadAll(c, r) == Contents(recs)
  {
    hide At, Layout, Fits, IsRecord, ReadAll;
    var todo := Layout(c, Flat(recs), BLOCK_SIZE);
    if AtEnd(r) && todo == [] {
      ReadsOnWithNothing(c, r);
      NothingLaidOut(c, recs, BLOCK_SIZE);
    } else {
      assert todo[..|todo|] == todo;
      ReadAllFrom(c, r, recs, BLOCK_SIZE, |todo|);
      WholeLog(c, recs, BLOCK_SIZE);
    }
  }

  lemma BoundaryTail(c: Check, r: Reader, ts: seq<Fragment>, gs: seq<Fragment>)
    requires IsTail(ts) && Fits(c, ts + gs, BLOCK_SIZE) && ReadsOn(r, Layout(c, ts + gs, BLOCK_SIZE))
    ensures ReadAll(c, r) == Contents([])
  {
    assert ts != [];
    hide At, Fits, IsTail, ReadRecord, Layout;
    LayoutAppend(c, ts, gs, BLOCK_SIZE);
    LayoutHead(c, ts, BLOCK_SIZE);
    StrayTail(c, r, ts, Layout(c, gs, End(c, ts, BLOCK_SIZE)), BLOCK_SIZE);
  }

  lemma WholeLog(c: Check, recs: seq<seq<Fragment>>, off: nat)
    requires IsLog(c, recs, off)
    ensures recs[..WholeBefore(c, recs, off, |Layout(c, Flat(recs), off)|)] == recs
  {
    assert recs[..|recs|] == recs;
    WholeBeforeExact(c, recs, off, |Layout(c, Flat(recs), off)|, |recs|);
  }

  /** Splitting laid-out fragments at p. */
  lemma FitsAt(c: Check, fs: seq<Fragment>, p: nat, off: nat)
    requires Fits(c, fs, off) && p < |fs|
    ensures Fits(c, fs[..p], off) && End(c, fs[..p], off) <= BLOCK_SIZE && |fs[p].data| < 0x1_0000
    ensures After(End(c, fs[..p], off), fs[p]) <= BLOCK_SIZE
    ensures Fits(c, fs[p+1..], After(End(c, fs[..p], off), fs[p]))
  {
    assert fs[..p] + fs[p..] == fs && fs[p..][1..] == fs[p+1..];
    LayoutAppend(c, fs[..p], fs[p..], off);
    hide Fits, Layout, End;
    LayoutHead(c, fs[p..], End(c, fs[..p], off));
  }

  /** The bytes of laid-out fragments when fragment p is altered to g. */
  ghost function Altered(c: Check, fs: seq<Fragment>, p: nat, g: Fragment, off: nat): Bytes
    requires Fits(c, fs, off) && p < |fs| && |g.data| == |fs[p].data|
  {
    FitsAt(c, fs, p, off);
    var off1 := End(c, fs[..p], off);
    Layout(c, fs[..p], off) + (HeadBytes(g, off1) + Layout(c, fs[p+1..], After(off1, fs[p])))
  }

  lemma AlteredFromStart(c: Check, fs: seq<Fragment>, p: nat, g: Fragment)
    requires Fits(c, fs, 0) && p < |fs| && |g.data| == |fs[p].data|
    ensures Fits(c, fs, BLOCK_SIZE) && Altered(c, fs, p, g, BLOCK_SIZE) == Altered(c, fs, p, g, 0)
    ensures NextBlockFragment(c, fs, p, BLOCK_SIZE) == NextBlockFragment(c, fs, p, 0)
  {
    FileStart(c, fs);
    FitsAt(c, fs, p, 0);
    FileStart(c, fs[..p]);
    hide FragmentBytes, FragmentOk;
  }

  lemma {:induction false} ReadRecordsThen(c: Check, r: Reader, recs: seq<seq<Fragment>>, tail: Bytes, off: nat) returns (r': Reader)
    requires IsLog(c, recs, off) && At(r, Layout(c, Flat(recs), off) + tail, off)
    ensures At(r', tail, End(c, Flat(recs), off)) && ReadAll(c, r) == Contents(recs) + ReadAll(c, r')
    decreases |recs|
  {
    hide At, Fits, Layout, End, ReadRecord, IsTail;
    FitsOffset(c, Flat(recs), off);
    if recs == [] {
      EmptyLayout(c, off);
      assert [] + tail == tail;
      r' := r;
    } else {
      var fs, gs := recs[0], Flat(recs[1..]);
      LayoutAppend(c, fs, gs, off);
      var more := Layout(c, gs, End(c, fs, off));
      assert Layout(c, fs, off) + more + tail == Layout(c, fs, off) + (more + tail);
      ReadRecordThen(c, r, fs, more + tail, off);
      r' := ReadRecordsThen(c, ReadRecord(c, r).reader, recs[1..], tail, End(c, fs, off));
    }
  }

  lemma {:induction false} UnfinishedTail(fs: seq<Fragment>, i: nat)
    requires IsTail(fs) && i < |fs|
    ensures IsUnfinished(fs[..i], true)
    decreases i
  {
    if i > 0 {
      UnfinishedTail(fs[1..], i - 1);
      assert fs[..i][1..] == fs[1..][..i-1];
    }
  }

  lemma UnfinishedRecord(fs: seq<Fragment>, i: nat)
    requires IsRecord(fs) && i < |fs|
    ensures IsUnfinished(fs[..i], false)
  {
    if i > 0 {
      UnfinishedTail(fs[1..], i - 1);
      assert fs[..i][1..] == fs[1..][..i-1];
    }
  }

  /** A record that breaks off at a bad fragment is passed over to the next block. */
  lemma SkipBroken(c: Check, r: Reader, hs: seq<Fragment>, g: Fragment, tail: Bytes, off: nat) returns (r': Reader)
    requires IsUnfinished(hs, false) && Fits(c, hs, off) && c.enabled && |g.sum| == 4 && |g.data| < 0x1_0000 && !Matches(c, g)
    requires After(End(c, hs, off), g) <= BLOCK_SIZE
    requires At(r, Layout(c, hs, off) + (HeadBytes(g, End(c, hs, off)) + tail), off)
    ensures ReadsOn(r', AfterBlock(tail, After(End(c, hs, off), g))) && ReadAll(c, r) == ReadAll(c, r')
  {
    hide At, Fits, Layout, End, HeadBytes, ReadPhysical, Matches;
    var r1, acc, inside := ReadUnfinished(c, r, hs, HeadBytes(g, End(c, hs, off)) + tail, off, [], false);
    ReadBad(c, r1, g, tail, End(c, hs, off));
    r' := ReadPhysical(c, r1).reader;
    assert ReadFragments(c, r1, acc, inside) == ReadFragments(c, r', [], false);
  }

  /** Where fragment i of record j is among all fragments. */
  lemma FragmentIndex(recs: seq<seq<Fragment>>, j: nat, i: nat)
    requires j < |recs| && i < |recs[j]|
    ensures var p := |Flat(recs[..j])| + i;
      p < |Flat(recs)| && Flat(recs)[p] == recs[j][i] && Flat(recs)[..p] == Flat(recs[..j]) + recs[j][..i]
  {
    FlatPrefix(recs, j);
    var fs, gs := recs[j], Flat(recs[j..][1..]);
    assert Flat(recs[j..]) == fs + gs;
    assert Flat(recs) == Flat(recs[..j]) + (fs + gs);
  }

  /** The index of the first fragment in a later block than fragment p. */
  ghost function NextBlockFragment(c: Check, fs: seq<Fragment>, p: nat, off: nat): (q: nat)
    requires Fits(c, fs, off) && p < |fs|
    ensures p < q <= |fs|
  {
    FitsAt(c, fs, p, off);
    p + 1 + SameBlock(c, fs[p+1..], After(End(c, fs[..p], off), fs[p]))
  }

  /** The whole records before the altered one are read. */
  lemma ReadToBroken(c: Check, r: Reader, recs: seq<seq<Fragment>>, hs: seq<Fragment>, tail: Bytes, off: nat) returns (r': Reader)
    requires (forall i | 0 <= i < |recs| :: IsRecord(recs[i])) && Fits(c, Flat(recs) + hs, off)
    requires At(r, Layout(c, Flat(recs) + hs, off) + tail, off)
    ensures Fits(c, Flat(recs), off) && Fits(c, hs, End(c, Flat(recs), off))
    ensures var off' := End(c, Flat(recs), off);
      End(c, Flat(recs) + hs, off) == End(c, hs, off') && At(r', Layout(c, hs, off') + tail, off')
    ensures ReadAll(c, r) == Contents(recs) + ReadAll(c, r')
  {
    hide At, Fits, Layout, End, IsRecord, ReadAll;
    LayoutAppend(c, Flat(recs), hs, off);
    var off' := End(c, Flat(recs), off);
    assert Layout(c, Flat(recs) + hs, off) + tail == Layout(c, Flat(recs), off) + (Layout(c, hs, off') + tail);
    r' := ReadRecordsThen(c, r, recs, Layout(c, hs, off') + tail, off);
  }

  /** The altered record and the rest of its block are passed over. */
  lemma ReadAltered(c: Check, r: Reader, recs: seq<seq<Fragment>>, j: nat, i: nat, p: nat, g: Fragment, off: nat) returns (k: nat)
    requires c.enabled && IsLog(c, recs, off) && j < |recs| && i < |recs[j]| && p == |Flat(recs[..j])| + i < |Flat(recs)|
    requires |g.sum| == 4 && |g.data| == |Flat(recs)[p].data| && !Matches(c, g)
    requires At(r, Altered(c, Flat(recs), p, g, off), off)
    ensures StartsAt(recs, k, NextBlockFragment(c, Flat(recs), p, off))
    ensures ReadAll(c, r) == Contents(recs[..j]) + Contents(recs[k..])
  {
    hide At, Fits, Layout, End, HeadBytes, Matches, IsRecord, IsUnfinished, ReadAll, StartsAt, ReadsOn, AfterBlock, SameBlock, Flat, Contents;
    var fs, hs := Flat(recs), recs[j][..i];
    FragmentIndex(recs, j, i);
    FitsAt(c, fs, p, off);
    var off1 := End(c, fs[..p], off);
    var off2, post := After(off1, g), fs[p+1..];
    UnfinishedRecord(recs[j], i);
    var r1 := ReadToBroken(c, r, recs[..j], hs, HeadBytes(g, off1) + Layout(c, post, off2), off);
    var r2 := SkipBroken(c, r1, hs, g, Layout(c, post, off2), End(c, Flat(recs[..j]), off));
    BlockBoundary(c, post, off2);
    var m := SameBlock(c, post, off2);
    assert post[m..] == fs[p+1+m..];
    k := ReadFromBoundary(c, r2, recs, p + 1 + m);
  }

  /**
   A log in which one fragment was altered so that its checksum no longer matches reads back as
   the records before the one it belongs to, then those from the first fragment of a later block
   on, if a record starts there, and none otherwise: that record is never returned.
   */
  lemma AlteredRecordIsLost(c: Check, recs: seq<seq<Fragment>>, j: nat, i: nat, p: nat, g: Fragment) returns (k: nat)
    requires c.enabled && IsLog(c, recs, 0) && j < |recs| && i < |recs[j]| && p == |Flat(recs[..j])| + i < |Flat(recs)|
    requires |g.sum| == 4 && |g.data| == |Flat(recs)[p].data| && g.sum != c.sum([g.kind] + g.data)
    ensures j < k && StartsAt(recs, k, NextBlockFragment(c, Flat(recs), p, 0))
    ensures ReadAll(c, Open(Altered(c, Flat(recs), p, g, 0))) == Contents(recs[..j]) + Contents(recs[k..])
  {
    AlteredFromStart(c, Flat(recs), p, g);
    var file := Altered(c, Flat(recs), p, g, 0);
    OpenAt(file);
    hide At, Fits, Altered, ReadAll, NextBlockFragment;
    k := ReadAltered(c, Open(file), recs, j, i, p, g, BLOCK_SIZE);
    if k <= j {
      FlatGrows(recs, k, j);
    }
  }

  // ---------------------------------------------------------- where fragments lie

  /** Blocks are of 32 KiB: laying out fragments from the start of a file ends at the block offset that End says. */
  lemma {:induction false} LayoutLength(c: Check, fs: seq<Fragment>, off: nat) returns (blocks: nat)
    requires Fits(c, fs, off)
    ensures off + |Layout(c, fs, off)| == 32768 * blocks + End(c, fs, off)
    decreases |fs|
  {
    hide FragmentOk;
    if fs == [] {
      blocks := 0;
    } else {
      LayoutHead(c, fs, off);
      blocks := LayoutLength(c, fs[1..], After(off, fs[0]));
      blocks := if BLOCK_SIZE - off < HEADER_SIZE then blocks + 1 else blocks;
    }
  }

  /** No fragment of a log crosses a block boundary, and none begins in the last six bytes of a block. */
  lemma FragmentsStayInBlocks(c: Check, fs: seq<Fragment>, p: nat) returns (blocks: nat, s: nat, tail: Bytes)
    requires Fits(c, fs, 0) && p < |fs| && |fs[p].data| < 0x1_0000
    ensures s + 7 + |fs[p].data| <= 32768
    ensures 32768 * blocks + s <= |Layout(c, fs, 0)|
    ensures Layout(c, fs, 0)[32768 * blocks + s..] == FragmentBytes(fs[p]) + tail
  {
    hide Fits, End, Layout, FragmentBytes, FragmentOk, Zeros, HeadBytes;
    assert fs[..p] + fs[p..] == fs;
    LayoutAppend(c, fs[..p], fs[p..], 0);
    var off := End(c, fs[..p], 0);
    blocks := LayoutLength(c, fs[..p], 0);
    LayoutHead(c, fs[p..], off);
    s := Start(off);
    tail := Layout(c, fs[p..][1..], After(off, fs[p]));
    if BLOCK_SIZE - off < HEADER_SIZE {
      blocks := blocks + 1;
    }
    Laid(Layout(c, fs[..p], 0), fs[p], off, tail);
  }

  lemma Laid(before: Bytes, f: Fragment, off: nat, tail: Bytes)
    requires off <= BLOCK_SIZE && |f.data| < 0x1_0000
    ensures var file := before + (HeadBytes(f, off) + tail);
      |before| + Pad(off) <= |file| && file[|before| + Pad(off)..] == FragmentBytes(f) + tail
  {
    hide FragmentBytes;
    assert before + (HeadBytes(f, off) + tail) == (before + Zeros(Pad(off))) + (FragmentBytes(f) + tail);
  }
}
