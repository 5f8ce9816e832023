/**
 Internal keys (store/dbformat.cc, store/dbformat.hh): user key, then sequence number and
 type packed into eight bytes.  They sort by user key ascending and by sequence number
 descending, which is what makes a snapshot read a single seek.
 */
module InternalKeys {
  import opened Wrappers
  import opened Coding

  const TYPE_DELETION: nat := 0
  const TYPE_VALUE: nat := 1
  const TYPE_FOR_SEEK: nat := TYPE_VALUE
  const MAX_SEQUENCE: nat := 0xff_ffff_ffff_ffff

  datatype Parsed = Parsed(user: Bytes, sequence: nat, kind: nat)

  /** What the source asserts of a key before packing it. */
  predicate ParsedOk(p: Parsed) {
    p.sequence <= MAX_SEQUENCE && p.kind <= TYPE_FOR_SEEK
  }

  function Pack(sequence: nat, kind: nat): (n: nat)
    requires sequence <= MAX_SEQUENCE && kind <= TYPE_FOR_SEEK
    ensures n < UINT64
  {
    sequence * 256 + kind
  }

  /** AppendInternalKey onto an empty string. */
  function Encode(p: Parsed): (b: Bytes)
    requires ParsedOk(p)
    ensures |b| == |p.user| + 8
  {
    p.user + Fixed(Pack(p.sequence, p.kind), 8)
  }

  function UserKey(b: Bytes): Bytes
    requires |b| >= 8
  {
    b[..|b|-8]
  }

  function Tag(b: Bytes): nat
    requires |b| >= 8
  {
    Unfixed(b[|b|-8..])
  }

  /** parse_internal_key; None is its false. */
  function Parse(b: Bytes): Option<Parsed> {
    if |b| < 8 then None
    else if Tag(b) % 256 > TYPE_VALUE then None
    else Some(Parsed(UserKey(b), Tag(b) / 256, Tag(b) % 256))
  }

  lemma PackRoundTrip(sequence: nat, kind: nat)
    requires sequence <= MAX_SEQUENCE && kind <= TYPE_FOR_SEEK
    ensures var n := Pack(sequence, kind); n / 256 == sequence && n % 256 == kind && Unfixed(Fixed(n, 8)) == n
  {
    hide Fixed, Unfixed, Pow256;
    Pow256Of8();
    FixedRoundTrip(Pack(sequence, kind), 8);
  }

  /** Parsing inverts appending ... */
  lemma ParseEncode(p: Parsed)
    requires ParsedOk(p)
    ensures Parse(Encode(p)) == Some(p)
    ensures UserKey(Encode(p)) == p.user && Tag(Encode(p)) == Pack(p.sequence, p.kind)
  {
    hide Fixed, Unfixed, Pack;
    var tag := Pack(p.sequence, p.kind);
    PackRoundTrip(p.sequence, p.kind);
    var b := Encode(p);
    assert b[..|b|-8] == p.user && b[|b|-8..] == Fixed(tag, 8);
  }

  /** ... and appending inverts parsing: whatever parses is the encoding of what it parses to. */
  lemma EncodeParse(b: Bytes)
    requires Parse(b).Some?
    ensures ParsedOk(Parse(b).value) && Encode(Parse(b).value) == b
  {
    var tail := b[|b|-8..];
    UnfixedRoundTrip(tail);
    Pow256Of8();
    assert b == UserKey(b) + tail;
  }

  // ------------------------------------------------------------------ ordering

  type Comparator = (Bytes, Bytes) -> int

  /** What LevelDB asks of a user comparator: a three-way total order. */
  ghost predicate IsThreeWay(cmp: Comparator) {
    && (forall x, y :: cmp(x, y) == 0 <==> x == y)
    && (forall x, y :: cmp(x, y) < 0 <==> cmp(y, x) > 0)
    && (forall x, y, z :: cmp(x, y) < 0 && cmp(y, z) < 0 ==> cmp(x, z) < 0)
  }

  /** InternalKeyComparator::Compare */
  function Compare(cmp: Comparator, a: Bytes, b: Bytes): int
    requires |a| >= 8 && |b| >= 8
  {
    var r := cmp(UserKey(a), UserKey(b));
    if r != 0 then r
    else if Tag(a) > Tag(b) then -1
    else if Tag(a) < Tag(b) then 1
    else 0
  }

  lemma CompareEqual(cmp: Comparator, a: Bytes, b: Bytes)
    requires IsThreeWay(cmp) && |a| >= 8 && |b| >= 8
    ensures Compare(cmp, a, b) == 0 <==> a == b
  {
    if Compare(cmp, a, b) == 0 {
      hide Unfixed;
      UnfixedInjective(a[|a|-8..], b[|b|-8..]);
      assert a == UserKey(a) + a[|a|-8..] && b == UserKey(b) + b[|b|-8..];
    }
  }

  /** Over any three-way total order of user keys, internal keys are totally ordered. */
  lemma CompareIsTotalOrder(cmp: Comparator, a: Bytes, b: Bytes, c: Bytes)
    requires IsThreeWay(cmp) && |a| >= 8 && |b| >= 8 && |c| >= 8
    ensures Compare(cmp, a, b) == 0 <==> a == b
    ensures Compare(cmp, a, b) < 0 <==> Compare(cmp, b, a) > 0
    ensures Compare(cmp, a, b) < 0 && Compare(cmp, b, c) < 0 ==> Compare(cmp, a, c) < 0
  {
    CompareEqual(cmp, a, b);
  }

  /** The shipped bytewise comparator answers only whether a < b, as 1 or 0. */
  function LessAsInt(less: (Bytes, Bytes) -> bool): Comparator {
    (x, y) => if less(x, y) then 1 else 0
  }

  ghost predicate IsStrictOrder(less: (Bytes, Bytes) -> bool) {
    && (forall x, y :: less(x, y) ==> !less(y, x))
    && (forall x, y :: x != y ==> less(x, y) || less(y, x))
  }

  /**
   With that comparator Compare is not an order: two keys compare oppositely in the two
   directions exactly when their user keys are equal or the smaller one also has the smaller tag.
   */
  lemma ShippedComparatorExact(less: (Bytes, Bytes) -> bool, a: Bytes, b: Bytes)
    requires IsStrictOrder(less) && |a| >= 8 && |b| >= 8
    ensures var cmp := LessAsInt(less); var x, y := UserKey(a), UserKey(b);
      ((Compare(cmp, a, b) < 0 <==> Compare(cmp, b, a) > 0) && (Compare(cmp, b, a) < 0 <==> Compare(cmp, a, b) > 0))
      <==> (x == y || (less(x, y) && Tag(a) < Tag(b)) || (less(y, x) && Tag(b) < Tag(a)))
  {
    var x, y := UserKey(a), UserKey(b);
    assert x == y ==> !less(x, y);
  }

  /** A pair on which it fails: the smaller key with the larger sequence number is "after" in both directions. */
  lemma ShippedComparatorFails(less: (Bytes, Bytes) -> bool)
    requires IsStrictOrder(less) && less([1], [2])
    ensures var a, b := Encode(Parsed([1], 2, TYPE_VALUE)), Encode(Parsed([2], 1, TYPE_VALUE));
      Compare(LessAsInt(less), a, b) > 0 && Compare(LessAsInt(less), b, a) > 0
  {
    ParseEncode(Parsed([1], 2, TYPE_VALUE));
    ParseEncode(Parsed([2], 1, TYPE_VALUE));
  }

  // ----------------------------------------------------------- snapshot lookup

  /** LookupKey::internal_key */
  function LookupKey(user: Bytes, sequence: nat): (b: Bytes)
    requires sequence <= MAX_SEQUENCE
    ensures |b| == |user| + 8
  {
    Encode(Parsed(user, sequence, TYPE_FOR_SEEK))
  }

  /** LookupKey::memtable_key, the internal key with its length in front. */
  function MemtableKey(user: Bytes, sequence: nat): Bytes
    requires sequence <= MAX_SEQUENCE
  {
    Varint(|user| + 8) + LookupKey(user, sequence)
  }

  lemma MemtableKeyHoldsKey(user: Bytes, sequence: nat)
    requires sequence <= MAX_SEQUENCE && |user| + 8 < UINT32
    ensures GetPrefixed(MemtableKey(user, sequence)) == Some((LookupKey(user, sequence), []))
  {
    var key := LookupKey(user, sequence);
    assert MemtableKey(user, sequence) == Prefixed(key) + [];
    PrefixedRoundTrip(key, []);
  }

  /** An entry sorts at or after the lookup key of its own user key iff it is visible in the snapshot. */
  lemma VisibleIffAfter(cmp: Comparator, p: Parsed, sequence: nat)
    requires IsThreeWay(cmp) && ParsedOk(p) && sequence <= MAX_SEQUENCE
    ensures Compare(cmp, Encode(p), LookupKey(p.user, sequence)) >= 0 <==> p.sequence <= sequence
  {
    ParseEncode(p);
    ParseEncode(Parsed(p.user, sequence, TYPE_FOR_SEEK));
  }

  ghost predicate IsSorted(cmp: Comparator, ps: seq<Parsed>) {
    && (forall i | 0 <= i < |ps| :: ParsedOk(ps[i]))
    && (forall i, j | 0 <= i < j < |ps| :: Compare(cmp, Encode(ps[i]), Encode(ps[j])) < 0)
  }

  /** i is where a seek to `target` lands: the first entry not before it, or the end. */
  ghost predicate IsSeek(cmp: Comparator, ps: seq<Parsed>, target: Bytes, i: nat)
    requires IsSorted(cmp, ps) && |target| >= 8
  {
    && i <= |ps|
    && (forall j | 0 <= j < i :: Compare(cmp, Encode(ps[j]), target) < 0)
    && (i < |ps| ==> Compare(cmp, Encode(ps[i]), target) >= 0)
  }

  /** Between a seek's landing point and a later visible entry of u there is only u. */
  lemma SandwichedUser(cmp: Comparator, p: Parsed, q: Parsed, u: Bytes, s: nat)
    requires IsThreeWay(cmp) && ParsedOk(p) && ParsedOk(q) && s <= MAX_SEQUENCE && q.user == u
    requires Compare(cmp, Encode(p), LookupKey(u, s)) >= 0
    requires p == q || Compare(cmp, Encode(p), Encode(q)) < 0
    ensures p.user == u && p.sequence <= s && q.sequence <= p.sequence
  {
    ParseEncode(p);
    ParseEncode(q);
    ParseEncode(Parsed(u, s, TYPE_FOR_SEEK));
    if p != q {
      var x := p.user;
      assert cmp(x, u) <= 0 && cmp(x, u) >= 0;
    }
  }

  /**
   Snapshot lookup: a seek to LookupKey(u, s) lands on the newest entry of u with sequence at
   most s if there is one, and otherwise not on an entry of u.
   */
  lemma SnapshotLookup(cmp: Comparator, ps: seq<Parsed>, u: Bytes, s: nat, i: nat)
    requires IsThreeWay(cmp) && IsSorted(cmp, ps) && s <= MAX_SEQUENCE && IsSeek(cmp, ps, LookupKey(u, s), i)
    ensures (exists j | 0 <= j < |ps| :: ps[j].user == u && ps[j].sequence <= s) <==>
            (i < |ps| && ps[i].user == u)
    ensures i < |ps| && ps[i].user == u ==>
              && ps[i].sequence <= s
              && forall j | 0 <= j < |ps| && ps[j].user == u && ps[j].sequence <= s :: ps[j].sequence <= ps[i].sequence
  {
    forall j | 0 <= j < |ps| && ps[j].user == u && ps[j].sequence <= s
      ensures i <= j && ps[i].user == u && ps[i].sequence <= s && ps[j].sequence <= ps[i].sequence
    {
      VisibleIffAfter(cmp, ps[j], s);
      SandwichedUser(cmp, ps[i], ps[j], u, s);
    }
    if i < |ps| && ps[i].user == u {
      VisibleIffAfter(cmp, ps[i], s);
    }
  }

  // ---------------------------------------------------------------- separators

  /** The user comparator's own FindShortestSeparator: something in [start, limit), or start unchanged. */
  ghost predicate IsSeparator(cmp: Comparator, sep: (Bytes, Bytes) -> Bytes) {
    forall x, y :: if cmp(x, y) < 0 then cmp(x, sep(x, y)) <= 0 && cmp(sep(x, y), y) < 0 else sep(x, y) == x
  }

  /** InternalKeyComparator::FindShortestSeparator, giving the new *start. */
  function ShortestSeparator(cmp: Comparator, sep: (Bytes, Bytes) -> Bytes, start: Bytes, limit: Bytes): (r: Bytes)
    requires |start| >= 8 && |limit| >= 8
    ensures |r| >= 8
  {
    var tmp := sep(UserKey(start), UserKey(limit));
    if |tmp| < |UserKey(start)| && cmp(UserKey(start), tmp) < 0
    then Encode(Parsed(tmp, MAX_SEQUENCE, TYPE_FOR_SEEK))
    else start
  }

  /** The two assertions in the source hold: the separator stays at or above start, below limit, and never grows. */
  lemma SeparatorSeparates(cmp: Comparator, sep: (Bytes, Bytes) -> Bytes, start: Bytes, limit: Bytes)
    requires IsThreeWay(cmp) && IsSeparator(cmp, sep) && |start| >= 8 && |limit| >= 8
    requires Compare(cmp, start, limit) < 0
    ensures var r := ShortestSeparator(cmp, sep, start, limit);
      && Compare(cmp, start, r) <= 0 && Compare(cmp, r, limit) < 0 && |r| <= |start|
      && (r != start ==> Compare(cmp, start, r) < 0)
    ensures var r, x := ShortestSeparator(cmp, sep, start, limit), UserKey(start);
      var tmp := sep(x, UserKey(limit));
      && (|r| < |start| <==> |tmp| < |x| && cmp(x, tmp) < 0)
      && (|r| < |start| ==> Parse(r) == Some(Parsed(tmp, MAX_SEQUENCE, TYPE_FOR_SEEK)))
      && (|r| == |start| ==> r == start)
  {
    var x, y := UserKey(start), UserKey(limit);
    var tmp := sep(x, y);
    if |tmp| < |x| && cmp(x, tmp) < 0 {
      ParseEncode(Parsed(tmp, MAX_SEQUENCE, TYPE_FOR_SEEK));
      assert tmp != x;
      assert cmp(x, y) < 0;
    } else {
      CompareEqual(cmp, start, start);
    }
  }
}
