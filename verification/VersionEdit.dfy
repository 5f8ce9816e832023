/**
 The manifest entry (store/version_edit.cc): tagged fields written by encode_to and read
 back by decode_from.
 */
module VersionEdits {
  import opened Wrappers
  import opened Coding

  const NUM_LEVELS: nat := 7

  // Tag numbers
  const COMPARATOR: nat := 1
  const LOG_NUMBER: nat := 2
  const NEXT_FILE_NUMBER: nat := 3
  const LAST_SEQUENCE: nat := 4
  const COMPACT_POINTER: nat := 5
  const DELETED_FILE: nat := 6
  const NEW_FILE: nat := 7
  const PREV_LOG_NUMBER: nat := 9

  datatype FileMeta = FileMeta(number: nat, size: nat, smallest: Bytes, largest: Bytes)

  datatype Pointer = Pointer(level: nat, key: Bytes)

  datatype FileRef = FileRef(level: nat, number: nat)

  datatype NewFile = NewFile(level: nat, meta: FileMeta)

  /** version_edit; a has_ flag and its field are one optional value. */
  datatype Edit = Edit(
    comparator: Option<Bytes>, logNumber: Option<nat>, prevLogNumber: Option<nat>,
    nextFileNumber: Option<nat>, lastSequence: Option<nat>,
    compactPointers: seq<Pointer>, deletedFiles: set<FileRef>, newFiles: seq<NewFile>)

  const EMPTY: Edit := Edit(None, None, None, None, None, [], {}, [])

  /** clear(): the compaction pointers stay. */
  function Cleared(e: Edit): Edit {
    EMPTY.(compactPointers := e.compactPointers)
  }

  /** One tagged field of the encoding. */
  datatype Entry =
    | Comparator(name: Bytes)
    | LogNumber(number: nat)
    | PrevLogNumber(number: nat)
    | NextFileNumber(number: nat)
    | LastSequence(number: nat)
    | CompactPointer(pointer: Pointer)
    | DeletedFile(file: FileRef)
    | AddedFile(added: NewFile)

  // ----------------------------------------------------------------- encoding

  function WriteFile(f: FileMeta): Bytes {
    Varint(f.number) + (Varint(f.size) + (Prefixed(f.smallest) + Prefixed(f.largest)))
  }

  function Tag(x: Entry): nat {
    match x
    case Comparator(_) => COMPARATOR
    case LogNumber(_) => LOG_NUMBER
    case PrevLogNumber(_) => PREV_LOG_NUMBER
    case NextFileNumber(_) => NEXT_FILE_NUMBER
    case LastSequence(_) => LAST_SEQUENCE
    case CompactPointer(_) => COMPACT_POINTER
    case DeletedFile(_) => DELETED_FILE
    case AddedFile(_) => NEW_FILE
  }

  function WriteBody(x: Entry): Bytes {
    match x
    case Comparator(name) => Prefixed(name)
    case LogNumber(n) => Varint(n)
    case PrevLogNumber(n) => Varint(n)
    case NextFileNumber(n) => Varint(n)
    case LastSequence(n) => Varint(n)
    case CompactPointer(p) => Varint(p.level) + Prefixed(p.key)
    case DeletedFile(d) => Varint(d.level) + Varint(d.number)
    case AddedFile(f) => Varint(f.level) + WriteFile(f.meta)
  }

  function Write(x: Entry): Bytes {
    Varint(Tag(x)) + WriteBody(x)
  }

  function WriteAll(xs: seq<Entry>): Bytes {
    if xs == [] then [] else Write(xs[0]) + WriteAll(xs[1..])
  }

  /** The order of std::set<std::pair<int, uint64_t>>. */
  predicate Before(a: FileRef, b: FileRef) {
    a.level < b.level || (a.level == b.level && a.number < b.number)
  }

  predicate IsLeast(s: set<FileRef>, x: FileRef) {
    x in s && forall y | y in s :: y == x || Before(x, y)
  }

  lemma {:induction false} LeastExists(s: set<FileRef>)
    requires s != {}
    ensures exists x :: IsLeast(s, x)
    decreases s
  {
    var x :| x in s;
    if s == {x} {
      assert IsLeast(s, x);
    } else {
      LeastExists(s - {x});
      var y :| IsLeast(s - {x}, y);
      var least := if Before(x, y) then x else y;
      forall z | z in s ensures z == least || Before(least, z) {
        assert z == x || z in s - {x};
      }
      assert IsLeast(s, least);
    }
  }

  ghost function InOrder(s: set<FileRef>): (r: seq<FileRef>)
    ensures forall x :: x in r <==> x in s
    decreases s
  {
    if s == {} then []
    else
      LeastExists(s);
      var x :| IsLeast(s, x);
      [x] + InOrder(s - {x})
  }

  lemma {:induction false} InOrderIsSorted(s: set<FileRef>)
    ensures |InOrder(s)| == |s| && forall i, j | 0 <= i < j < |InOrder(s)| :: Before(InOrder(s)[i], InOrder(s)[j])
    decreases s
  {
    if s != {} {
      var r := InOrder(s);
      LeastExists(s);
      var x := r[0];
      assert IsLeast(s, x) && r[1..] == InOrder(s - {x});
      InOrderIsSorted(s - {x});
      forall i, j | 0 <= i < j < |r| ensures Before(r[i], r[j]) {
        assert r[j] == r[1..][j-1];
        if i > 0 {
          assert r[i] == r[1..][i-1];
        } else {
          assert r[j] in InOrder(s - {x});
        }
      }
    }
  }

  function OptionEntry<T>(o: Option<T>, make: T -> Entry): seq<Entry> {
    match o case None => [] case Some(v) => [make(v)]
  }

  function HeadEntries(e: Edit): seq<Entry> {
    OptionEntry(e.comparator, v => Comparator(v)) +
    OptionEntry(e.logNumber, v => LogNumber(v)) +
    OptionEntry(e.prevLogNumber, v => PrevLogNumber(v)) +
    OptionEntry(e.nextFileNumber, v => NextFileNumber(v)) +
    OptionEntry(e.lastSequence, v => LastSequence(v))
  }

  function PointerEntries(ps: seq<Pointer>): seq<Entry> {
    seq(|ps|, i requires 0 <= i < |ps| => CompactPointer(ps[i]))
  }

  function DeletedEntries(ds: seq<FileRef>): seq<Entry> {
    seq(|ds|, i requires 0 <= i < |ds| => DeletedFile(ds[i]))
  }

  function FileEntries(fs: seq<NewFile>): seq<Entry> {
    seq(|fs|, i requires 0 <= i < |fs| => AddedFile(fs[i]))
  }

  ghost function Entries(e: Edit): seq<Entry> {
    HeadEntries(e) + PointerEntries(e.compactPointers) + DeletedEntries(InOrder(e.deletedFiles)) + FileEntries(e.newFiles)
  }

  /** The order of the fields on disk, which is not that of their tags. */
  function Rank(x: Entry): nat {
    match x
    case Comparator(_) => 1
    case LogNumber(_) => 2
    case PrevLogNumber(_) => 3
    case NextFileNumber(_) => 4
    case LastSequence(_) => 5
    case CompactPointer(_) => 6
    case DeletedFile(_) => 7
    case AddedFile(_) => 8
  }

  ghost predicate Ranked(xs: seq<Entry>, low: nat, high: nat) {
    && (forall i | 0 <= i < |xs| :: low <= Rank(xs[i]) <= high)
    && (forall i, j | 0 <= i < j < |xs| :: Rank(xs[i]) <= Rank(xs[j]))
  }

  lemma RankedConcat(xs: seq<Entry>, ys: seq<Entry>, low: nat, mid: nat, high: nat)
    requires low <= mid < high && Ranked(xs, low, mid) && Ranked(ys, mid + 1, high)
    ensures Ranked(xs + ys, low, high)
  {
  }

  lemma HeadIsRanked(e: Edit)
    ensures Ranked(HeadEntries(e), 1, 5)
  {
    var c := OptionEntry(e.comparator, v => Comparator(v));
    var l := OptionEntry(e.logNumber, v => LogNumber(v));
    var p := OptionEntry(e.prevLogNumber, v => PrevLogNumber(v));
    var n := OptionEntry(e.nextFileNumber, v => NextFileNumber(v));
    var s := OptionEntry(e.lastSequence, v => LastSequence(v));
    assert Ranked(c, 1, 1) && Ranked(l, 2, 2) && Ranked(p, 3, 3) && Ranked(n, 4, 4) && Ranked(s, 5, 5);
    hide Ranked, OptionEntry;
    RankedConcat(c, l, 1, 1, 2);
    RankedConcat(c + l, p, 1, 2, 3);
    RankedConcat(c + l + p, n, 1, 3, 4);
    RankedConcat(c + l + p + n, s, 1, 4, 5);
  }

  lemma ListsAreRanked(ps: seq<Pointer>, ds: seq<FileRef>, fs: seq<NewFile>)
    ensures Ranked(PointerEntries(ps), 6, 6) && Ranked(DeletedEntries(ds), 7, 7) && Ranked(FileEntries(fs), 8, 8)
  {
  }

  lemma EntriesAreRanked(e: Edit)
    ensures Ranked(Entries(e), 1, 8)
  {
    hide Ranked, HeadEntries, PointerEntries, DeletedEntries, FileEntries, InOrder;
    var h, p, d := HeadEntries(e), PointerEntries(e.compactPointers), DeletedEntries(InOrder(e.deletedFiles));
    HeadIsRanked(e);
    ListsAreRanked(e.compactPointers, InOrder(e.deletedFiles), e.newFiles);
    RankedConcat(h, p, 1, 5, 6);
    RankedConcat(h + p, d, 1, 6, 7);
    RankedConcat(h + p + d, FileEntries(e.newFiles), 1, 7, 8);
  }

  /** What internal_key::encode asserts of every key that is written. */
  predicate KeysPresent(e: Edit) {
    && (forall p | p in e.compactPointers :: p.key != [])
    && (forall f | f in e.newFiles :: f.meta.smallest != [] && f.meta.largest != [])
  }

  /** encode_to onto an empty string. */
  ghost function Encode(e: Edit): Bytes
    requires KeysPresent(e)
  {
    WriteAll(Entries(e))
  }

  // ----------------------------------------------------------------- decoding

  function GetLevel(b: Bytes): (r: Option<(nat, Bytes)>)
    ensures r.Some? ==> |r.value.1| < |b|
  {
    match GetVarint32(b)
    case None => None
    case Some((v, rest)) => if v < NUM_LEVELS then Some((v, rest)) else None
  }

  function GetFile(b: Bytes): (r: Option<(FileMeta, Bytes)>)
    ensures r.Some? ==> |r.value.1| < |b|
  {
    match GetVarint64(b)
    case None => None
    case Some((number, b1)) =>
    match GetVarint64(b1)
    case None => None
    case Some((size, b2)) =>
    match GetPrefixed(b2)
    case None => None
    case Some((smallest, b3)) =>
    match GetPrefixed(b3)
    case None => None
    case Some((largest, b4)) => Some((FileMeta(number, size, smallest, largest), b4))
  }

  function GetPointer(b: Bytes): (r: Option<(Pointer, Bytes)>)
    ensures r.Some? ==> |r.value.1| < |b|
  {
    match GetLevel(b)
    case None => None
    case Some((level, b1)) =>
    match GetPrefixed(b1)
    case None => None
    case Some((key, b2)) => Some((Pointer(level, key), b2))
  }

  function GetFileRef(b: Bytes): (r: Option<(FileRef, Bytes)>)
    ensures r.Some? ==> |r.value.1| < |b|
  {
    match GetLevel(b)
    case None => None
    case Some((level, b1)) =>
    match GetVarint64(b1)
    case None => None
    case Some((number, b2)) => Some((FileRef(level, number), b2))
  }

  function GetNewFile(b: Bytes): (r: Option<(NewFile, Bytes)>)
    ensures r.Some? ==> |r.value.1| < |b|
  {
    match GetLevel(b)
    case None => None
    case Some((level, b1)) =>
    match GetFile(b1)
    case None => None
    case Some((meta, b2)) => Some((NewFile(level, meta), b2))
  }

  /** A parsed field as an entry with what follows it, or the field's error message. */
  function Made<T>(o: Option<(T, Bytes)>, make: T -> Entry, message: string): Result<(Entry, Bytes), string> {
    match o case None => Err(message) case Some((v, rest)) => Ok((make(v), rest))
  }

  function ReadBody(tag: nat, b: Bytes): (r: Result<(Entry, Bytes), string>)
    ensures r.Ok? ==> |r.value.1| < |b|
  {
    if tag == COMPARATOR then Made(GetPrefixed(b), v => Comparator(v), "comparator name")
    else if tag == LOG_NUMBER then Made(GetVarint64(b), v => LogNumber(v), "log number")
    else if tag == PREV_LOG_NUMBER then Made(GetVarint64(b), v => PrevLogNumber(v), "previous log number")
    else if tag == NEXT_FILE_NUMBER then Made(GetVarint64(b), v => NextFileNumber(v), "next file number")
    else if tag == LAST_SEQUENCE then Made(GetVarint64(b), v => LastSequence(v), "last sequence number")
    else if tag == COMPACT_POINTER then Made(GetPointer(b), v => CompactPointer(v), "compaction pointer")
    else if tag == DELETED_FILE then Made(GetFileRef(b), v => DeletedFile(v), "deleted file")
    else if tag == NEW_FILE then Made(GetNewFile(b), v => AddedFile(v), "new-file entry")
    else Err("unknown tag")
  }

  function Read(b: Bytes): (r: Result<(Entry, Bytes), string>)
    ensures r.Ok? ==> |r.value.1| < |b|
  {
    match GetVarint32(b)
    case None => Err("invalid tag")
    case Some((tag, rest)) => ReadBody(tag, rest)
  }

  function Apply(e: Edit, x: Entry): Edit {
    match x
    case Comparator(name) => e.(comparator := Some(name))
    case LogNumber(n) => e.(logNumber := Some(n))
    case PrevLogNumber(n) => e.(prevLogNumber := Some(n))
    case NextFileNumber(n) => e.(nextFileNumber := Some(n))
    case LastSequence(n) => e.(lastSequence := Some(n))
    case CompactPointer(p) => e.(compactPointers := e.compactPointers + [p])
    case DeletedFile(d) => e.(deletedFiles := e.deletedFiles + {d})
    case AddedFile(f) => e.(newFiles := e.newFiles + [f])
  }

  function ApplyAll(e: Edit, xs: seq<Entry>): Edit
    decreases xs
  {
    if xs == [] then e else ApplyAll(Apply(e, xs[0]), xs[1..])
  }

  /** The edit after reading as much as can be read, and the message if that is not everything. */
  datatype Decoded = Decoded(edit: Edit, error: Option<string>)

  function DecodeOnto(e: Edit, b: Bytes): Decoded
    decreases |b|
  {
    if b == [] then Decoded(e, None)
    else
      match Read(b)
      case Err(message) => Decoded(e, Some(message))
      case Ok((x, rest)) => DecodeOnto(Apply(e, x), rest)
  }

  /** decode_from, on an object that holds e. */
  function Decode(e: Edit, b: Bytes): Decoded {
    DecodeOnto(Cleared(e), b)
  }

  // --------------------------------------------------------------- round trip

  /** What the encoding's fixed widths and decode_from's level check allow. */
  predicate Fits(x: Entry) {
    match x
    case Comparator(name) => |name| < UINT32
    case LogNumber(n) => n < UINT64
    case PrevLogNumber(n) => n < UINT64
    case NextFileNumber(n) => n < UINT64
    case LastSequence(n) => n < UINT64
    case CompactPointer(p) => p.level < NUM_LEVELS && |p.key| < UINT32
    case DeletedFile(d) => d.level < NUM_LEVELS && d.number < UINT64
    case AddedFile(f) =>
      && f.level < NUM_LEVELS && f.meta.number < UINT64 && f.meta.size < UINT64
      && |f.meta.smallest| < UINT32 && |f.meta.largest| < UINT32
  }

  predicate EditFits(e: Edit) {
    && (e.comparator.Some? ==> |e.comparator.value| < UINT32)
    && (e.logNumber.Some? ==> e.logNumber.value < UINT64)
    && (e.prevLogNumber.Some? ==> e.prevLogNumber.value < UINT64)
    && (e.nextFileNumber.Some? ==> e.nextFileNumber.value < UINT64)
    && (e.lastSequence.Some? ==> e.lastSequence.value < UINT64)
    && (forall p | p in e.compactPointers :: Fits(CompactPointer(p)))
    && (forall d | d in e.deletedFiles :: Fits(DeletedFile(d)))
    && (forall f | f in e.newFiles :: Fits(AddedFile(f)))
  }

  lemma FileRoundTrip(f: FileMeta, rest: Bytes)
    requires f.number < UINT64 && f.size < UINT64 && |f.smallest| < UINT32 && |f.largest| < UINT32
    ensures GetFile(WriteFile(f) + rest) == Some((f, rest))
  {
    hide Varint, GetVarint64, Prefixed, GetPrefixed;
    var b4 := rest;
    var b3 := Prefixed(f.largest) + b4;
    var b2 := Prefixed(f.smallest) + b3;
    var b1 := Varint(f.size) + b2;
    assert WriteFile(f) + rest == Varint(f.number) + b1;
    Varint64RoundTrip(f.number, b1);
    Varint64RoundTrip(f.size, b2);
    PrefixedRoundTrip(f.smallest, b3);
    PrefixedRoundTrip(f.largest, b4);
  }

  /** The tag numbers on disk, which 8 is not one of. */
  lemma TagOnDisk(x: Entry)
    ensures var t := Write(x)[0];
      && (x.Comparator? <==> t == 1) && (x.LogNumber? <==> t == 2) && (x.NextFileNumber? <==> t == 3)
      && (x.LastSequence? <==> t == 4) && (x.CompactPointer? <==> t == 5) && (x.DeletedFile? <==> t == 6)
      && (x.AddedFile? <==> t == 7) && (x.PrevLogNumber? <==> t == 9)
  {
    assert Varint(Tag(x)) == [Tag(x)];
  }

  /** Seven levels: what is written for level 7 or above cannot be read. */
  lemma LevelOnDisk(level: nat, rest: Bytes)
    requires level < UINT32
    ensures GetLevel(Varint(level) + rest) == if level < 7 then Some((level, rest)) else None
  {
    Varint32RoundTrip(level, rest);
  }

  lemma BodyRoundTrip(x: Entry, rest: Bytes)
    requires Fits(x)
    ensures ReadBody(Tag(x), WriteBody(x) + rest) == Ok((x, rest))
  {
    hide Varint, GetVarint32, GetVarint64, Prefixed, GetPrefixed, WriteFile, GetFile;
    match x {
      case Comparator(name) => PrefixedRoundTrip(name, rest);
      case LogNumber(n) => Varint64RoundTrip(n, rest);
      case PrevLogNumber(n) => Varint64RoundTrip(n, rest);
      case NextFileNumber(n) => Varint64RoundTrip(n, rest);
      case LastSequence(n) => Varint64RoundTrip(n, rest);
      case CompactPointer(p) =>
        assert WriteBody(x) + rest == Varint(p.level) + (Prefixed(p.key) + rest);
        Varint32RoundTrip(p.level, Prefixed(p.key) + rest);
        PrefixedRoundTrip(p.key, rest);
      case DeletedFile(d) =>
        assert WriteBody(x) + rest == Varint(d.level) + (Varint(d.number) + rest);
        Varint32RoundTrip(d.level, Varint(d.number) + rest);
        Varint64RoundTrip(d.number, rest);
      case AddedFile(f) =>
        assert WriteBody(x) + rest == Varint(f.level) + (WriteFile(f.meta) + rest);
        Varint32RoundTrip(f.level, WriteFile(f.meta) + rest);
        FileRoundTrip(f.meta, rest);
    }
  }

  lemma EntryRoundTrip(x: Entry, rest: Bytes)
    requires Fits(x)
    ensures Write(x) != [] && Read(Write(x) + rest) == Ok((x, rest))
  {
    hide GetVarint32, ReadBody, WriteBody;
    assert Write(x) + rest == Varint(Tag(x)) + (WriteBody(x) + rest);
    Varint32RoundTrip(Tag(x), WriteBody(x) + rest);
    BodyRoundTrip(x, rest);
  }

  lemma {:induction false} EntriesRoundTrip(e: Edit, xs: seq<Entry>)
    requires forall x | x in xs :: Fits(x)
    ensures DecodeOnto(e, WriteAll(xs)) == Decoded(ApplyAll(e, xs), None)
    decreases xs
  {
    hide Fits, Read, Write, Apply;
    if xs != [] {
      EntryRoundTrip(xs[0], WriteAll(xs[1..]));
      EntriesRoundTrip(Apply(e, xs[0]), xs[1..]);
    }
  }

  lemma {:induction false} ApplyConcat(e: Edit, xs: seq<Entry>, ys: seq<Entry>)
    ensures ApplyAll(e, xs + ys) == ApplyAll(ApplyAll(e, xs), ys)
    decreases xs
  {
    hide Apply;
    if xs == [] {
      assert xs + ys == ys;
    } else {
      assert (xs + ys)[1..] == xs[1..] + ys;
      ApplyConcat(Apply(e, xs[0]), xs[1..], ys);
    }
  }

  lemma ApplyOption<T>(e: Edit, o: Option<T>, make: T -> Entry)
    ensures ApplyAll(e, OptionEntry(o, make)) == if o.Some? then Apply(e, make(o.value)) else e
  {
  }

  lemma ApplyHead(e: Edit, base: Edit)
    requires base == Cleared(base)
    ensures ApplyAll(base, HeadEntries(e)) ==
            e.(compactPointers := base.compactPointers, deletedFiles := {}, newFiles := [])
  {
    hide ApplyAll, OptionEntry;
    var comparator := (v: Bytes) => Comparator(v);
    var log, prevLog := (v: nat) => LogNumber(v), (v: nat) => PrevLogNumber(v);
    var next, last := (v: nat) => NextFileNumber(v), (v: nat) => LastSequence(v);
    var a, b, c := OptionEntry(e.comparator, comparator), OptionEntry(e.logNumber, log), OptionEntry(e.prevLogNumber, prevLog);
    var d, f := OptionEntry(e.nextFileNumber, next), OptionEntry(e.lastSequence, last);
    assert HeadEntries(e) == a + b + c + d + f;
    ApplyConcat(base, a + b + c + d, f);
    ApplyConcat(base, a + b + c, d);
    ApplyConcat(base, a + b, c);
    ApplyConcat(base, a, b);
    ApplyOption(base, e.comparator, comparator);
    ApplyOption(base.(comparator := e.comparator), e.logNumber, log);
    ApplyOption(base.(comparator := e.comparator, logNumber := e.logNumber), e.prevLogNumber, prevLog);
    var e3 := base.(comparator := e.comparator, logNumber := e.logNumber, prevLogNumber := e.prevLogNumber);
    ApplyOption(e3, e.nextFileNumber, next);
    ApplyOption(e3.(nextFileNumber := e.nextFileNumber), e.lastSequence, last);
  }

  lemma {:induction false} ApplyPointers(e: Edit, ps: seq<Pointer>)
    ensures ApplyAll(e, PointerEntries(ps)) == e.(compactPointers := e.compactPointers + ps)
    decreases ps
  {
    if ps == [] {
      assert e.compactPointers + ps == e.compactPointers;
    } else {
      assert PointerEntries(ps)[1..] == PointerEntries(ps[1..]);
      ApplyPointers(Apply(e, CompactPointer(ps[0])), ps[1..]);
      assert e.compactPointers + [ps[0]] + ps[1..] == e.compactPointers + ps;
    }
  }

  lemma {:induction false} ApplyDeleted(e: Edit, ds: seq<FileRef>)
    ensures ApplyAll(e, DeletedEntries(ds)) == e.(deletedFiles := e.deletedFiles + set d | d in ds)
    decreases ds
  {
    if ds == [] {
      assert e.deletedFiles + (set d | d in ds) == e.deletedFiles;
    } else {
      assert DeletedEntries(ds)[1..] == DeletedEntries(ds[1..]);
      ApplyDeleted(Apply(e, DeletedFile(ds[0])), ds[1..]);
      assert (set d | d in ds) == {ds[0]} + set d | d in ds[1..];
      assert e.deletedFiles + {ds[0]} + (set d | d in ds[1..]) == e.deletedFiles + set d | d in ds;
    }
  }

  lemma {:induction false} ApplyFiles(e: Edit, fs: seq<NewFile>)
    ensures ApplyAll(e, FileEntries(fs)) == e.(newFiles := e.newFiles + fs)
    decreases fs
  {
    if fs == [] {
      assert e.newFiles + fs == e.newFiles;
    } else {
      assert FileEntries(fs)[1..] == FileEntries(fs[1..]);
      ApplyFiles(Apply(e, AddedFile(fs[0])), fs[1..]);
      assert e.newFiles + [fs[0]] + fs[1..] == e.newFiles + fs;
    }
  }

  lemma ApplyFour(e: Edit, h: seq<Entry>, p: seq<Entry>, d: seq<Entry>, f: seq<Entry>)
    ensures ApplyAll(e, h + p + d + f) == ApplyAll(ApplyAll(ApplyAll(ApplyAll(e, h), p), d), f)
  {
    hide ApplyAll;
    ApplyConcat(e, h + p + d, f);
    ApplyConcat(e, h + p, d);
    ApplyConcat(e, h, p);
  }

  lemma ApplyEntries(e: Edit, base: Edit)
    requires base == Cleared(base)
    ensures ApplyAll(base, Entries(e)) == e.(compactPointers := base.compactPointers + e.compactPointers)
  {
    hide Apply, ApplyAll, HeadEntries, PointerEntries, DeletedEntries, FileEntries, InOrder;
    var h, p, d, f := HeadEntries(e), PointerEntries(e.compactPointers),
      DeletedEntries(InOrder(e.deletedFiles)), FileEntries(e.newFiles);
    ApplyFour(base, h, p, d, f);
    ApplyHead(e, base);
    var e1 := ApplyAll(base, h);
    ApplyPointers(e1, e.compactPointers);
    var e2 := ApplyAll(e1, p);
    ApplyDeleted(e2, InOrder(e.deletedFiles));
    assert (set x | x in InOrder(e.deletedFiles)) == e.deletedFiles;
    assert {} + e.deletedFiles == e.deletedFiles;
    var e3 := ApplyAll(e2, d);
    ApplyFiles(e3, e.newFiles);
    assert [] + e.newFiles == e.newFiles;
  }

  lemma EntriesFit(e: Edit)
    requires EditFits(e)
    ensures forall x | x in Entries(e) :: Fits(x)
  {
    hide Fits, InOrder;
    assert forall x | x in HeadEntries(e) :: Fits(x) by {
      HeadFits(e);
    }
    assert forall x | x in DeletedEntries(InOrder(e.deletedFiles)) :: Fits(x);
  }

  lemma HeadFits(e: Edit)
    requires EditFits(e)
    ensures forall x | x in HeadEntries(e) :: Fits(x)
  {
    forall x | x in HeadEntries(e) ensures Fits(x) {
      if x in OptionEntry(e.comparator, v => Comparator(v)) {
      } else if x in OptionEntry(e.logNumber, v => LogNumber(v)) {
      } else if x in OptionEntry(e.prevLogNumber, v => PrevLogNumber(v)) {
      } else if x in OptionEntry(e.nextFileNumber, v => NextFileNumber(v)) {
      } else {
        assert x in OptionEntry(e.lastSequence, v => LastSequence(v));
      }
    }
  }

  /**
   Decoding an encoded edit into an object that held e0 gives the edit back, with e0's own
   compaction pointers in front of the encoded ones.
   */
  lemma DecodeEncode(e0: Edit, e: Edit)
    requires EditFits(e) && KeysPresent(e)
    ensures Decode(e0, Encode(e)) == Decoded(e.(compactPointers := e0.compactPointers + e.compactPointers), None)
  {
    hide EditFits, Entries, DecodeOnto, ApplyAll, WriteAll;
    EntriesFit(e);
    EntriesRoundTrip(Cleared(e0), Entries(e));
    ApplyEntries(e, Cleared(e0));
  }

  /** So decoding is exact if and only if the receiving object has no compaction pointers. */
  lemma DecodeEncodeExact(e0: Edit, e: Edit)
    requires EditFits(e) && KeysPresent(e)
    ensures Decode(e0, Encode(e)) == Decoded(e, None) <==> e0.compactPointers == []
  {
    hide EditFits, Encode, Decode;
    DecodeEncode(e0, e);
    assert |e0.compactPointers + e.compactPointers| == |e0.compactPointers| + |e.compactPointers|;
    assert [] + e.compactPointers == e.compactPointers;
  }

  /** A used object: reading even the empty edit into one that holds a pointer gives the pointer back. */
  lemma UsedObjectKeepsPointer()
    ensures var used := EMPTY.(compactPointers := [Pointer(0, [1])]);
      Decode(used, Encode(EMPTY)) == Decoded(used, None) && used != EMPTY
  {
    var used := EMPTY.(compactPointers := [Pointer(0, [1])]);
    hide Encode, Decode;
    DecodeEncode(used, EMPTY);
    assert used.compactPointers + EMPTY.compactPointers == used.compactPointers;
  }

  // ------------------------------------------------------- what decode accepts

  /** The bytes of b before its suffix rest. */
  function Used(b: Bytes, rest: Bytes): Bytes
    requires |rest| <= |b|
  {
    b[..|b| - |rest|]
  }

  lemma UsedMore(b: Bytes, rest: Bytes, c: Bytes)
    requires |rest| < |b|
    ensures Used(b, rest) + c == [b[0]] + (Used(b[1..], rest) + c)
    ensures (Used(b, rest) + c)[1..] == Used(b[1..], rest) + c
  {
    assert Used(b, rest) == [b[0]] + Used(b[1..], rest);
  }

  lemma {:induction false} VarintLocal(b: Bytes, limit: nat, c: Bytes)
    requires GetVarintUpTo(b, limit).Some?
    ensures var (n, rest) := GetVarintUpTo(b, limit).value;
      && b == Used(b, rest) + rest
      && GetVarintUpTo(Used(b, rest) + c, limit) == Some((n, c))
  {
    var (n, rest) := GetVarintUpTo(b, limit).value;
    UsedMore(b, rest, c);
    UsedMore(b, rest, rest);
    assert b == [b[0]] + b[1..];
    if b[0] >= 128 {
      VarintLocal(b[1..], limit - 1, c);
      hide Used;
    } else {
      assert Used(b[1..], rest) == [];
    }
  }

  /** b, then b1, then b2 are what is left of one input: its used parts line up. */
  lemma UsedTwice(b: Bytes, b1: Bytes, b2: Bytes, c: Bytes)
    requires |b2| <= |b1| <= |b|
    requires b == Used(b, b1) + b1 && b1 == Used(b1, b2) + b2
    ensures b == Used(b, b2) + b2
    ensures Used(b, b2) + c == Used(b, b1) + (Used(b1, b2) + c)
  {
    assert Used(b, b2) == Used(b, b1) + Used(b1, b2);
  }

  lemma PrefixedLocal(b: Bytes, c: Bytes)
    requires GetPrefixed(b).Some?
    ensures var (x, rest) := GetPrefixed(b).value;
      && b == Used(b, rest) + rest
      && GetPrefixed(Used(b, rest) + c) == Some((x, c))
  {
    hide GetVarintUpTo;
    var (x, rest) := GetPrefixed(b).value;
    var b1 := GetVarint32(b).value.1;
    assert b1 == x + rest && Used(b1, rest) == x;
    hide Used;
    VarintLocal(b, 5, x + c);
    UsedTwice(b, b1, rest, c);
    assert (x + c)[..|x|] == x && (x + c)[|x|..] == c;
  }

  lemma LevelLocal(b: Bytes, c: Bytes)
    requires GetLevel(b).Some?
    ensures var (v, rest) := GetLevel(b).value;
      && b == Used(b, rest) + rest
      && GetLevel(Used(b, rest) + c) == Some((v, c))
  {
    hide GetVarintUpTo;
    VarintLocal(b, 5, c);
  }

  lemma NumberLocal(b: Bytes, c: Bytes)
    requires GetVarint64(b).Some?
    ensures var (v, rest) := GetVarint64(b).value;
      && b == Used(b, rest) + rest
      && GetVarint64(Used(b, rest) + c) == Some((v, c))
  {
    hide GetVarintUpTo;
    VarintLocal(b, 10, c);
  }

  lemma PointerLocal(b: Bytes, c: Bytes)
    requires GetPointer(b).Some?
    ensures var (v, rest) := GetPointer(b).value;
      && b == Used(b, rest) + rest
      && GetPointer(Used(b, rest) + c) == Some((v, c))
  {
    hide GetLevel, GetPrefixed, Used;
    var b1 := GetLevel(b).value.1;
    var b2 := GetPrefixed(b1).value.1;
    PrefixedLocal(b1, c);
    LevelLocal(b, Used(b1, b2) + c);
    UsedTwice(b, b1, b2, c);
  }

  lemma FileRefLocal(b: Bytes, c: Bytes)
    requires GetFileRef(b).Some?
    ensures var (v, rest) := GetFileRef(b).value;
      && b == Used(b, rest) + rest
      && GetFileRef(Used(b, rest) + c) == Some((v, c))
  {
    hide GetLevel, GetVarint64, Used;
    var b1 := GetLevel(b).value.1;
    var b2 := GetVarint64(b1).value.1;
    NumberLocal(b1, c);
    LevelLocal(b, Used(b1, b2) + c);
    UsedTwice(b, b1, b2, c);
  }

  lemma FileLocal(b: Bytes, c: Bytes)
    requires GetFile(b).Some?
    ensures var (v, rest) := GetFile(b).value;
      && b == Used(b, rest) + rest
      && GetFile(Used(b, rest) + c) == Some((v, c))
  {
    hide GetVarint64, GetPrefixed, Used;
    var b1 := GetVarint64(b).value.1;
    var b2 := GetVarint64(b1).value.1;
    var b3 := GetPrefixed(b2).value.1;
    var b4 := GetPrefixed(b3).value.1;
    PrefixedLocal(b3, c);
    var c3 := Used(b3, b4) + c;
    PrefixedLocal(b2, c3);
    UsedTwice(b2, b3, b4, c);
    var c2 := Used(b2, b4) + c;
    NumberLocal(b1, c2);
    UsedTwice(b1, b2, b4, c);
    var c1 := Used(b1, b4) + c;
    NumberLocal(b, c1);
    UsedTwice(b, b1, b4, c);
  }

  lemma NewFileLocal(b: Bytes, c: Bytes)
    requires GetNewFile(b).Some?
    ensures var (v, rest) := GetNewFile(b).value;
      && b == Used(b, rest) + rest
      && GetNewFile(Used(b, rest) + c) == Some((v, c))
  {
    hide GetLevel, GetFile, Used;
    var b1 := GetLevel(b).value.1;
    var b2 := GetFile(b1).value.1;
    FileLocal(b1, c);
    LevelLocal(b, Used(b1, b2) + c);
    UsedTwice(b, b1, b2, c);
  }

  lemma BodyLocal(tag: nat, b: Bytes, c: Bytes)
    requires ReadBody(tag, b).Ok?
    ensures var (x, rest) := ReadBody(tag, b).value;
      && b == Used(b, rest) + rest
      && ReadBody(tag, Used(b, rest) + c) == Ok((x, c))
  {
    hide GetPrefixed, GetVarint64, GetPointer, GetFileRef, GetNewFile, Used;
    if tag == COMPARATOR {
      PrefixedLocal(b, c);
    } else if tag == COMPACT_POINTER {
      PointerLocal(b, c);
    } else if tag == DELETED_FILE {
      FileRefLocal(b, c);
    } else if tag == NEW_FILE {
      NewFileLocal(b, c);
    } else {
      NumberLocal(b, c);
    }
  }

  /** Reading an entry looks at that entry's bytes only. */
  lemma ReadLocal(b: Bytes, c: Bytes)
    requires Read(b).Ok?
    ensures var (x, rest) := Read(b).value;
      && b == Used(b, rest) + rest
      && Read(Used(b, rest) + c) == Ok((x, c))
  {
    hide GetVarintUpTo, ReadBody, Used;
    var (tag, b1) := GetVarint32(b).value;
    var b2 := ReadBody(tag, b1).value.1;
    BodyLocal(tag, b1, c);
    VarintLocal(b, 5, Used(b1, b2) + c);
    UsedTwice(b, b1, b2, c);
  }

  function Flatten(chunks: seq<Bytes>): Bytes {
    if chunks == [] then [] else chunks[0] + Flatten(chunks[1..])
  }

  /** b is a sequence of chunks, each of which is exactly one entry. */
  ghost predicate IsSplit(b: Bytes, chunks: seq<Bytes>, xs: seq<Entry>) {
    && |chunks| == |xs|
    && b == Flatten(chunks)
    && forall i | 0 <= i < |xs| :: Read(chunks[i]) == Ok((xs[i], []))
  }

  lemma {:induction false} SplitDecodes(e: Edit, b: Bytes, chunks: seq<Bytes>, xs: seq<Entry>)
    requires IsSplit(b, chunks, xs)
    ensures DecodeOnto(e, b) == Decoded(ApplyAll(e, xs), None)
    decreases |xs|
  {
    hide Read, Apply;
    if xs != [] {
      var rest := Flatten(chunks[1..]);
      ReadLocal(chunks[0], rest);
      assert Used(chunks[0], []) == chunks[0];
      SplitDecodes(Apply(e, xs[0]), rest, chunks[1..], xs[1..]);
    }
  }

  lemma {:induction false} DecodedSplits(e: Edit, b: Bytes) returns (chunks: seq<Bytes>, xs: seq<Entry>)
    requires DecodeOnto(e, b).error.None?
    ensures IsSplit(b, chunks, xs)
    decreases |b|
  {
    hide Read, Apply;
    if b == [] {
      chunks, xs := [], [];
    } else {
      var (x, rest) := Read(b).value;
      var chunks1, xs1 := DecodedSplits(Apply(e, x), rest);
      ReadLocal(b, []);
      var chunk := Used(b, rest);
      assert chunk + [] == chunk;
      chunks, xs := [chunk] + chunks1, [x] + xs1;
      assert chunks[1..] == chunks1;
    }
  }

  /** Decoding succeeds exactly on sequences of entries, and then applies those entries in order. */
  lemma DecodeSucceedsExactly(e: Edit, b: Bytes)
    ensures Decode(e, b).error.None? <==> exists chunks, xs :: IsSplit(b, chunks, xs)
    ensures forall chunks, xs | IsSplit(b, chunks, xs) :: Decode(e, b).edit == ApplyAll(Cleared(e), xs)
  {
    hide IsSplit, ApplyAll, DecodeOnto;
    if Decode(e, b).error.None? {
      var chunks, xs := DecodedSplits(Cleared(e), b);
    }
    forall chunks, xs | IsSplit(b, chunks, xs) ensures Decode(e, b) == Decoded(ApplyAll(Cleared(e), xs), None) {
      SplitDecodes(Cleared(e), b, chunks, xs);
    }
  }

  lemma NewFileFits(b: Bytes)
    requires GetNewFile(b).Some?
    ensures Fits(AddedFile(GetNewFile(b).value.0))
  {
    hide GetVarintUpTo;
  }

  lemma ReadFits(b: Bytes)
    requires Read(b).Ok?
    ensures Fits(Read(b).value.0)
  {
    hide GetVarintUpTo, GetNewFile;
    var (tag, body) := GetVarint32(b).value;
    if tag == NEW_FILE {
      NewFileFits(body);
    }
  }

  lemma ApplyFits(e: Edit, x: Entry)
    requires EditFits(e) && Fits(x)
    ensures EditFits(Apply(e, x))
  {
  }

  lemma {:induction false} DecodedFits(e: Edit, b: Bytes)
    requires EditFits(e)
    ensures EditFits(DecodeOnto(e, b).edit)
    decreases |b|
  {
    hide Read, Apply, EditFits, Fits;
    if b != [] && Read(b).Ok? {
      ReadFits(b);
      ApplyFits(e, Read(b).value.0);
      DecodedFits(Apply(e, Read(b).value.0), Read(b).value.1);
    }
  }

  /** Whatever bytes an edit was decoded from, encoding it and decoding that gives the same edit. */
  lemma ReencodingIsFaithful(b: Bytes)
    requires KeysPresent(Decode(EMPTY, b).edit)
    ensures var e := Decode(EMPTY, b).edit; Decode(EMPTY, Encode(e)) == Decoded(e, None)
  {
    hide DecodeOnto, Encode, KeysPresent;
    DecodedFits(Cleared(EMPTY), b);
    DecodeEncodeExact(EMPTY, Decode(EMPTY, b).edit);
  }

  // -------------------------------------------------------------- the class

  lemma {:induction false} WriteConcat(xs: seq<Entry>, ys: seq<Entry>)
    ensures WriteAll(xs + ys) == WriteAll(xs) + WriteAll(ys)
    decreases xs
  {
    hide Write;
    if xs == [] {
      assert xs + ys == ys;
    } else {
      assert (xs + ys)[1..] == xs[1..] + ys;
      WriteConcat(xs[1..], ys);
    }
  }

  lemma WriteFirst(r: Bytes, xs: seq<Entry>)
    requires xs != []
    ensures r + Write(xs[0]) + WriteAll(xs[1..]) == r + WriteAll(xs)
  {
    hide Write;
  }

  lemma WriteOption<T>(o: Option<T>, make: T -> Entry)
    ensures WriteAll(OptionEntry(o, make)) == if o.Some? then Write(make(o.value)) else []
  {
    hide Write;
  }

  method PutPointer(dst: Bytes, p: Pointer) returns (r: Bytes)
    ensures r == dst + Write(CompactPointer(p))
  {
    hide Varint, Prefixed;
    r := dst + Varint(COMPACT_POINTER);
    r := r + Varint(p.level);
    r := r + Prefixed(p.key);
  }

  method PutPointers(dst: Bytes, ps: seq<Pointer>) returns (r: Bytes)
    ensures r == dst + WriteAll(PointerEntries(ps))
  {
    r := dst;
    var i := 0;
    assert ps[0..] == ps;
    while i < |ps|
      invariant 0 <= i <= |ps|
      invariant r + WriteAll(PointerEntries(ps[i..])) == dst + WriteAll(PointerEntries(ps))
    {
      hide WriteAll, Write;
      WriteFirst(r, PointerEntries(ps[i..]));
      assert PointerEntries(ps[i..])[1..] == PointerEntries(ps[i+1..]);
      r := PutPointer(r, ps[i]);
      i := i + 1;
    }
  }

  method PutFileRef(dst: Bytes, d: FileRef) returns (r: Bytes)
    ensures r == dst + Write(DeletedFile(d))
  {
    hide Varint;
    r := dst + Varint(DELETED_FILE);
    r := r + Varint(d.level);
    r := r + Varint(d.number);
  }

  lemma LeastFirst(s: set<FileRef>, d: FileRef)
    requires IsLeast(s, d)
    ensures InOrder(s) == [d] + InOrder(s - {d})
    ensures var xs := DeletedEntries(InOrder(s)); xs[0] == DeletedFile(d) && xs[1..] == DeletedEntries(InOrder(s - {d}))
  {
  }

  method PutDeleted(dst: Bytes, s: set<FileRef>) returns (r: Bytes)
    ensures r == dst + WriteAll(DeletedEntries(InOrder(s)))
  {
    r := dst;
    var rest := s;
    while rest != {}
      invariant r + WriteAll(DeletedEntries(InOrder(rest))) == dst + WriteAll(DeletedEntries(InOrder(s)))
      decreases rest
    {
      hide WriteAll, Write, InOrder;
      LeastExists(rest);
      var d :| d in rest && IsLeast(rest, d);
      LeastFirst(rest, d);
      WriteFirst(r, DeletedEntries(InOrder(rest)));
      r := PutFileRef(r, d);
      rest := rest - {d};
    }
  }

  method PutFile(dst: Bytes, f: NewFile) returns (r: Bytes)
    ensures r == dst + Write(AddedFile(f))
  {
    hide Varint, Prefixed;
    var tag, level, number := Varint(NEW_FILE), Varint(f.level), Varint(f.meta.number);
    var size, smallest, largest := Varint(f.meta.size), Prefixed(f.meta.smallest), Prefixed(f.meta.largest);
    r := dst + tag + level + number + size + smallest + largest;
    assert r == dst + (tag + (level + (number + (size + (smallest + largest)))));
  }

  method PutFiles(dst: Bytes, fs: seq<NewFile>) returns (r: Bytes)
    ensures r == dst + WriteAll(FileEntries(fs))
  {
    r := dst;
    var i := 0;
    assert fs[0..] == fs;
    while i < |fs|
      invariant 0 <= i <= |fs|
      invariant r + WriteAll(FileEntries(fs[i..])) == dst + WriteAll(FileEntries(fs))
    {
      hide WriteAll, Write;
      WriteFirst(r, FileEntries(fs[i..]));
      assert FileEntries(fs[i..])[1..] == FileEntries(fs[i+1..]);
      r := PutFile(r, fs[i]);
      i := i + 1;
    }
  }

  /** The optional fields in the order they are written. */
  lemma HeadBytes(e: Edit)
    ensures WriteAll(HeadEntries(e)) ==
      (if e.comparator.Some? then Write(Comparator(e.comparator.value)) else []) +
      (if e.logNumber.Some? then Write(LogNumber(e.logNumber.value)) else []) +
      (if e.prevLogNumber.Some? then Write(PrevLogNumber(e.prevLogNumber.value)) else []) +
      (if e.nextFileNumber.Some? then Write(NextFileNumber(e.nextFileNumber.value)) else []) +
      (if e.lastSequence.Some? then Write(LastSequence(e.lastSequence.value)) else [])
  {
    hide WriteAll, Write, OptionEntry;
    var comparator := (v: Bytes) => Comparator(v);
    var log, prevLog := (v: nat) => LogNumber(v), (v: nat) => PrevLogNumber(v);
    var next, last := (v: nat) => NextFileNumber(v), (v: nat) => LastSequence(v);
    var a, b, c := OptionEntry(e.comparator, comparator), OptionEntry(e.logNumber, log), OptionEntry(e.prevLogNumber, prevLog);
    var d, f := OptionEntry(e.nextFileNumber, next), OptionEntry(e.lastSequence, last);
    assert HeadEntries(e) == a + b + c + d + f;
    WriteConcat(a + b + c + d, f);
    WriteConcat(a + b + c, d);
    WriteConcat(a + b, c);
    WriteConcat(a, b);
    WriteOption(e.comparator, comparator);
    WriteOption(e.logNumber, log);
    WriteOption(e.prevLogNumber, prevLog);
    WriteOption(e.nextFileNumber, next);
    WriteOption(e.lastSequence, last);
  }

  function NumberField(has: bool, tag: nat, n: nat): Bytes {
    if has then Varint(tag) + Varint(n) else []
  }

  method PutNumber(dst: Bytes, has: bool, tag: nat, n: nat) returns (r: Bytes)
    ensures r == dst + NumberField(has, tag, n)
  {
    hide Varint;
    r := dst;
    if has {
      r := r + Varint(tag);
      r := r + Varint(n);
    }
  }

  lemma Regroup(r: Bytes, a: Bytes, b: Bytes, c: Bytes, d: Bytes, f: Bytes)
    ensures r + a + b + c + d + f == r + (a + b + c + d + f)
  {
  }

  class VersionEdit {
    var comparator: Bytes
    var logNumber: nat
    var prevLogNumber: nat
    var nextFileNumber: nat
    var lastSequence: nat
    var hasComparator: bool
    var hasLogNumber: bool
    var hasPrevLogNumber: bool
    var hasNextFileNumber: bool
    var hasLastSequence: bool
    var compactPointers: seq<Pointer>
    var deletedFiles: set<FileRef>
    var newFiles: seq<NewFile>

    function State(): Edit
      reads this
    {
      Edit(if hasComparator then Some(comparator) else None,
           if hasLogNumber then Some(logNumber) else None,
           if hasPrevLogNumber then Some(prevLogNumber) else None,
           if hasNextFileNumber then Some(nextFileNumber) else None,
           if hasLastSequence then Some(lastSequence) else None,
           compactPointers, deletedFiles, newFiles)
    }

    constructor ()
      ensures State() == EMPTY
    {
      comparator, logNumber, prevLogNumber, lastSequence, nextFileNumber := [], 0, 0, 0, 0;
      hasComparator, hasLogNumber, hasPrevLogNumber, hasNextFileNumber, hasLastSequence := false, false, false, false, false;
      compactPointers, deletedFiles, newFiles := [], {}, [];
    }

    method Clear()
      modifies this
      ensures State() == Cleared(old(State()))
    {
      comparator, logNumber, prevLogNumber, lastSequence, nextFileNumber := [], 0, 0, 0, 0;
      hasComparator, hasLogNumber, hasPrevLogNumber, hasNextFileNumber, hasLastSequence := false, false, false, false, false;
      deletedFiles, newFiles := {}, [];
    }

    method PutHead(dst: Bytes) returns (r: Bytes)
      ensures r == dst + WriteAll(HeadEntries(State()))
    {
      hide Varint, Prefixed, WriteAll, HeadEntries;
      HeadBytes(State());
      r := dst;
      if hasComparator {
        r := r + (Varint(COMPARATOR) + Prefixed(comparator));
      }
      ghost var a := if hasComparator then Write(Comparator(comparator)) else [];
      assert r == dst + a;
      r := PutNumber(r, hasLogNumber, LOG_NUMBER, logNumber);
      r := PutNumber(r, hasPrevLogNumber, PREV_LOG_NUMBER, prevLogNumber);
      r := PutNumber(r, hasNextFileNumber, NEXT_FILE_NUMBER, nextFileNumber);
      r := PutNumber(r, hasLastSequence, LAST_SEQUENCE, lastSequence);
      Regroup(dst, a, NumberField(hasLogNumber, LOG_NUMBER, logNumber),
              NumberField(hasPrevLogNumber, PREV_LOG_NUMBER, prevLogNumber),
              NumberField(hasNextFileNumber, NEXT_FILE_NUMBER, nextFileNumber),
              NumberField(hasLastSequence, LAST_SEQUENCE, lastSequence));
    }

    method EncodeTo(dst: Bytes) returns (r: Bytes)
      requires KeysPresent(State())
      ensures r == dst + Encode(State())
    {
      hide WriteAll, HeadEntries, PointerEntries, DeletedEntries, FileEntries, InOrder;
      ghost var h, p := HeadEntries(State()), PointerEntries(compactPointers);
      ghost var d, f := DeletedEntries(InOrder(deletedFiles)), FileEntries(newFiles);
      r := PutHead(dst);
      r := PutPointers(r, compactPointers);
      r := PutDeleted(r, deletedFiles);
      r := PutFiles(r, newFiles);
      WriteConcat(h + p + d, f);
      WriteConcat(h + p, d);
      WriteConcat(h, p);
    }

    /** The cases of decode_from's switch that set a 64-bit number. */
    method TakeNumber(tag: nat, input: Bytes) returns (rest: Bytes, msg: Option<string>)
      requires tag in {LOG_NUMBER, PREV_LOG_NUMBER, NEXT_FILE_NUMBER, LAST_SEQUENCE}
      modifies this
      ensures match ReadBody(tag, input)
        case Err(message) => msg == Some(message) && State() == old(State())
        case Ok((x, after)) => msg == None && rest == after && State() == Apply(old(State()), x)
    {
      hide GetVarint64;
      rest, msg := input, None;
      if tag == LOG_NUMBER {
        match GetVarint64(input) {
          case Some((v, after)) => logNumber, hasLogNumber, rest := v, true, after;
          case None => msg := Some("log number");
        }
      } else if tag == PREV_LOG_NUMBER {
        match GetVarint64(input) {
          case Some((v, after)) => prevLogNumber, hasPrevLogNumber, rest := v, true, after;
          case None => msg := Some("previous log number");
        }
      } else if tag == NEXT_FILE_NUMBER {
        match GetVarint64(input) {
          case Some((v, after)) => nextFileNumber, hasNextFileNumber, rest := v, true, after;
          case None => msg := Some("next file number");
        }
      } else {
        match GetVarint64(input) {
          case Some((v, after)) => lastSequence, hasLastSequence, rest := v, true, after;
          case None => msg := Some("last sequence number");
        }
      }
    }

    /** The switch of decode_from: one entry read into the fields. */
    method TakeEntry(tag: nat, input: Bytes) returns (rest: Bytes, msg: Option<string>)
      modifies this
      ensures match ReadBody(tag, input)
        case Err(message) => msg == Some(message) && State() == old(State())
        case Ok((x, after)) => msg == None && rest == after && State() == Apply(old(State()), x)
    {
      hide GetPrefixed, GetVarint64, GetPointer, GetFileRef, GetNewFile;
      rest, msg := input, None;
      if tag == COMPARATOR {
        match GetPrefixed(input) {
          case Some((v, after)) => comparator, hasComparator, rest := v, true, after;
          case None => msg := Some("comparator name");
        }
      } else if tag == LOG_NUMBER || tag == PREV_LOG_NUMBER || tag == NEXT_FILE_NUMBER || tag == LAST_SEQUENCE {
        rest, msg := TakeNumber(tag, input);
      } else if tag == COMPACT_POINTER {
        match GetPointer(input) {
          case Some((v, after)) => compactPointers, rest := compactPointers + [v], after;
          case None => msg := Some("compaction pointer");
        }
      } else if tag == DELETED_FILE {
        match GetFileRef(input) {
          case Some((v, after)) => deletedFiles, rest := deletedFiles + {v}, after;
          case None => msg := Some("deleted file");
        }
      } else if tag == NEW_FILE {
        match GetNewFile(input) {
          case Some((v, after)) => newFiles, rest := newFiles + [v], after;
          case None => msg := Some("new-file entry");
        }
      } else {
        msg := Some("unknown tag");
      }
    }

    method DecodeFrom(src: Bytes) returns (error: Option<string>)
      modifies this
      ensures Decoded(State(), error) == Decode(old(State()), src)
    {
      Clear();
      var input := src;
      error := None;
      var reading := true;
      while error.None? && reading
        invariant error.None? && reading ==> DecodeOnto(State(), input) == Decode(old(State()), src)
        invariant error.None? && !reading ==>
          GetVarint32(input).None? && DecodeOnto(State(), input) == Decode(old(State()), src)
        invariant error.Some? ==> Decoded(State(), error) == Decode(old(State()), src)
        decreases |input|, reading, error.None?
      {
        hide ReadBody, Apply, GetVarintUpTo;
        match GetVarint32(input) {
          case None =>
            reading := false;
          case Some((tag, body)) =>
            var rest, msg := TakeEntry(tag, body);
            if msg.None? {
              input := rest;
            }
            error := msg;
        }
      }
      if error.None? && input != [] {
        error := Some("invalid tag");
      }
    }
  }
}
