/**
 One uninterrupted SYN / ACK / ACK2 round between two nodes leaves both with the newer of
 their two states for every endpoint the initiator knew.
 */
module Rounds {
  import opened Wrappers
  import opened EndpointStates
  import opened GossipNodes

  /** The free choices of a round: every container order and both receive times. */
  datatype Schedule = Schedule(order: seq<Endpoint>, list: seq<Digest>,
                               orderA: seq<Endpoint>, nowA: int, orderB: seq<Endpoint>, nowB: int)

  ghost function RoundSyn(a: Node, s: Schedule): Syn
    requires Enumerates(s.order, a.states.Keys)
  {
    Syn(a.clusterName, PARTITIONER, MakeDigests(a.states, s.order))
  }

  ghost predicate IsSchedule(a: Node, b: Node, s: Schedule) {
    && a.enabled && b.enabled && !a.inShadowRound && !b.inShadowRound && a.clusterName == b.clusterName
    && a.states != map[]
    && Enumerates(s.order, a.states.Keys)
    && IsExaminedList(b.states, RoundSyn(a, s).digests, s.list)
    && Enumerates(s.orderA, RoundAck(a, b, s).states.Keys)
    && Enumerates(s.orderB, RoundAck2(a, b, s).Keys)
  }

  ghost function RoundAck(a: Node, b: Node, s: Schedule): Ack {
    Examine(b.states, s.list)
  }

  ghost function AfterA(a: Node, b: Node, s: Schedule): Node
    requires Enumerates(s.orderA, RoundAck(a, b, s).states.Keys)
  {
    HandleAck(a, RoundAck(a, b, s), s.orderA, s.nowA).0
  }

  ghost function RoundAck2(a: Node, b: Node, s: Schedule): ContentMap
    requires Enumerates(s.orderA, RoundAck(a, b, s).states.Keys)
  {
    Replies(AfterA(a, b, s).states, RoundAck(a, b, s).digests)
  }

  ghost function AfterB(a: Node, b: Node, s: Schedule): Node
    requires Enumerates(s.orderA, RoundAck(a, b, s).states.Keys)
    requires Enumerates(s.orderB, RoundAck2(a, b, s).Keys)
  {
    HandleAck2(b, RoundAck2(a, b, s), s.orderB, s.nowB)
  }

  /** The round's messages are what the handlers exchange. */
  lemma RoundUsesHandlers(a: Node, b: Node, s: Schedule)
    requires IsSchedule(a, b, s)
    ensures HandleSyn(b, RoundSyn(a, s), s.list) == Some(RoundAck(a, b, s))
    ensures HandleAck(a, RoundAck(a, b, s), s.orderA, s.nowA) == (AfterA(a, b, s), Some(RoundAck2(a, b, s)))
  {
    ApplyMessageEffect(a, RoundAck(a, b, s).states, s.orderA, s.nowA);
  }

  // ------------------------------------------------- one digest per endpoint

  lemma FirstsKeepDigests(ds: seq<Digest>, p: seq<Digest>, list: seq<Digest>, d: Digest)
    requires UniqueEndpoints(ds) && FirstsOf(ds, p, list)
    ensures d in list <==> d in ds
  {
    if d in ds {
      assert d in multiset(p);
      var i :| 0 <= i < |p| && p[i] == d;
      assert list[i] == d;
    }
  }

  /** Sorting loses no digest and invents none, whatever order it chooses. */
  lemma SortKeepsDigests(states: StateMap, ds: seq<Digest>, list: seq<Digest>)
    requires UniqueEndpoints(ds) && IsSorted(states, ds, list)
    ensures forall d :: d in list <==> d in ds
  {
    hide Descending, FirstsOf, UniqueEndpoints;
    var p :| FirstsOf(ds, p, list) && Descending(states, p);
    forall d ensures d in list <==> d in ds {
      FirstsKeepDigests(ds, p, list, d);
    }
  }

  lemma {:induction false} ExamineComplete(states: StateMap, ds: seq<Digest>, d: Digest)
    requires d in ds
    ensures ExamineOne(states, d).Request? ==> ExamineOne(states, d).digest in Examine(states, ds).digests
    ensures ExamineOne(states, d).Send? && d.ep in states && Delta(states[d.ep].content, ExamineOne(states, d).floor).Some?
            ==> d.ep in Examine(states, ds).states
  {
    var front, last := ds[..|ds|-1], ds[|ds|-1];
    assert ds == front + [last];
    if d != last {
      ExamineComplete(states, front, d);
    }
  }

  lemma {:induction false} RepliesComplete(states: StateMap, ds: seq<Digest>, d: Digest)
    requires d in ds && d.ep in states && Delta(states[d.ep].content, d.maxVersion).Some?
    ensures d.ep in Replies(states, ds)
  {
    var front, last := ds[..|ds|-1], ds[|ds|-1];
    assert ds == front + [last];
    if d != last {
      RepliesComplete(states, front, d);
    }
  }

  /** With one digest per endpoint, the ACK answers each endpoint by that digest's verdict alone. */
  lemma ExamineAt(states: StateMap, ds: seq<Digest>, d: Digest)
    requires UniqueEndpoints(ds) && d in ds
    ensures var r, verdict := Examine(states, ds), ExamineOne(states, d);
      && (forall q | q in r.digests && q.ep == d.ep :: verdict == Request(q))
      && (verdict.Request? ==> verdict.digest in r.digests)
      && (d.ep in r.states <==> verdict.Send? && d.ep in states && Delta(states[d.ep].content, verdict.floor).Some?)
      && (d.ep in r.states ==> Delta(states[d.ep].content, verdict.floor) == Some(r.states[d.ep]))
  {
    ExamineEffect(states, ds);
    ExamineComplete(states, ds, d);
  }

  lemma ExamineNowhereElse(states: StateMap, ds: seq<Digest>, e: Endpoint)
    requires forall d | d in ds :: d.ep != e
    ensures e !in Examine(states, ds).states
    ensures forall q | q in Examine(states, ds).digests :: q.ep != e
  {
    ExamineEffect(states, ds);
  }

  lemma RepliesAt(states: StateMap, ds: seq<Digest>, q: Digest)
    requires q in ds && forall x | x in ds && x.ep == q.ep :: x == q
    ensures q.ep in Replies(states, ds) <==> q.ep in states && Delta(states[q.ep].content, q.maxVersion).Some?
    ensures q.ep in Replies(states, ds) ==>
              Delta(states[q.ep].content, q.maxVersion) == Some(Replies(states, ds)[q.ep])
  {
    RepliesEffect(states, ds);
    if q.ep in states && Delta(states[q.ep].content, q.maxVersion).Some? {
      RepliesComplete(states, ds, q);
    }
  }

  // ----------------------------------------------------------- one endpoint

  /** What the theorem asks of two copies: they come from one owner and are not absurdly far apart. */
  ghost predicate Comparable(x: Content, y: Content) {
    && (x == y || Newer(x, y) || Newer(y, x))
    && !TooFarAhead(x, y) && !TooFarAhead(y, x)
  }

  ghost predicate Sendable(x: Content) {
    Positive(x) && MaxVersion(x) >= 1
  }

  ghost function Newest(x: Content, y: Option<Content>): Content {
    if y.None? || Leq(KeyOf(y.value), KeyOf(x)) then x else y.value
  }

  /** The premises of the round theorem, for one endpoint the initiator knows. */
  ghost predicate Meets(a: Node, b: Node, e: Endpoint) {
    && e in a.states && Sendable(a.states[e].content)
    && e !in a.justRemoved && e !in b.justRemoved
    && (e in b.states ==> Sendable(b.states[e].content) && Comparable(a.states[e].content, b.states[e].content))
    && (e == a.self && e in b.states ==> Leq(KeyOf(b.states[e].content), KeyOf(a.states[e].content)))
    && (e == b.self ==> e in b.states && Leq(KeyOf(a.states[e].content), KeyOf(b.states[e].content)))
  }

  /** A node that holds l takes w over by a major change, and w announces a shutdown: its version is forced up. */
  predicate Forces(l: Option<Content>, w: Content) {
    IsMajor(l, w) && IsShutdownState(w) && w.hb.version != INT32_MAX
  }

  /** What the side that is behind, holding l, ends up with when it is brought to w. */
  function Takes(l: Option<Content>, w: Content): Content {
    if IsMajor(l, w) then Joined(false, w) else w
  }

  /** The side that is behind learns from the one ahead: the cut it asked for rebuilds the newer state. */
  lemma LearnRequested(x: Content, y: Option<Content>, v: int, cut: Content)
    requires Sendable(x) && (y.Some? ==> Newer(y.value, x) && !TooFarAhead(y.value, x))
    requires v == if y.Some? && y.value.hb.generation == x.hb.generation then MaxVersion(y.value) else 0
    requires Delta(x, v) == Some(cut)
    ensures Learn(false, y, cut) == Takes(y, x)
  {
    DeltaKey(x, v);
    DeltaFromZero(x);
    if y.Some? && y.value.hb.generation == x.hb.generation {
      MergeDelta(y.value, x, v);
    }
  }

  lemma RequestedCutExists(x: Content, y: Option<Content>, v: int)
    requires Sendable(x) && (y.Some? ==> Newer(y.value, x))
    requires v == if y.Some? && y.value.hb.generation == x.hb.generation then MaxVersion(y.value) else 0
    ensures Delta(x, v).Some?
  {
    DeltaKey(x, v);
  }

  /** The verdict on A's digest, from the order of the two copies alone. */
  lemma VerdictOn(states: StateMap, e: Endpoint, x: Content)
    requires e in states ==> x == states[e].content || Newer(x, states[e].content) || Newer(states[e].content, x)
    ensures var d := Digest(e, x.hb.generation, MaxVersion(x));
      var floor := if e in states && states[e].content.hb.generation == x.hb.generation then MaxVersion(states[e].content) else 0;
      && (e !in states || Newer(states[e].content, x) ==> ExamineOne(states, d) == Request(Digest(e, x.hb.generation, floor)))
      && (e in states && x == states[e].content ==> ExamineOne(states, d) == InSync)
      && (e in states && Newer(x, states[e].content) ==>
            ExamineOne(states, d) == Send(if states[e].content.hb.generation == x.hb.generation then MaxVersion(x) else 0))
  {
  }

  /** After the round A stores x and B stores y about e. */
  ghost predicate Hold(a: Node, b: Node, s: Schedule, e: Endpoint, x: Content, y: Content)
    requires IsSchedule(a, b, s)
  {
    ContentAt(AfterA(a, b, s), e) == Some(x) && ContentAt(AfterB(a, b, s), e) == Some(y)
  }

  ghost predicate BothHold(a: Node, b: Node, s: Schedule, e: Endpoint, c: Content)
    requires IsSchedule(a, b, s)
  {
    Hold(a, b, s, e, c, c)
  }

  lemma AfterRound(a: Node, b: Node, s: Schedule, e: Endpoint)
    requires IsSchedule(a, b, s)
    ensures ContentAt(AfterA(a, b, s), e) == Heard(a, RoundAck(a, b, s).states, e)
    ensures ContentAt(AfterB(a, b, s), e) == Heard(b, RoundAck2(a, b, s), e)
  {
    ApplyMessageEffect(a, RoundAck(a, b, s).states, s.orderA, s.nowA);
    ApplyMessageEffect(b, RoundAck2(a, b, s), s.orderB, s.nowB);
  }

  lemma ListHasDigest(a: Node, b: Node, s: Schedule, e: Endpoint)
    requires IsSchedule(a, b, s)
    ensures UniqueEndpoints(s.list)
    ensures e in a.states ==> DigestOf(a.states, e) in s.list
    ensures e !in a.states ==> forall d | d in s.list :: d.ep != e
  {
    var ds := RoundSyn(a, s).digests;
    DigestsOfStates(a.states, s.order);
    var x :| x in a.states;
    assert DigestOf(a.states, x) in ds;
    SortKeepsDigests(b.states, ds, s.list);
  }

  /** B is behind (or knows nothing): the request goes out and the answer brings B level. */
  lemma RoundForward(a: Node, b: Node, s: Schedule, e: Endpoint)
    requires IsSchedule(a, b, s) && Meets(a, b, e)
    requires e !in b.states || Newer(b.states[e].content, a.states[e].content)
    ensures Hold(a, b, s, e, a.states[e].content, Takes(ContentAt(b, e), a.states[e].content))
  {
    var x, y := a.states[e].content, ContentAt(b, e);
    var d := DigestOf(a.states, e);
    ListHasDigest(a, b, s, e);
    VerdictOn(b.states, e, x);
    ExamineAt(b.states, s.list, d);
    AfterRound(a, b, s, e);
    var q := ExamineOne(b.states, d).digest;
    var v: int := q.maxVersion;
    RepliesAt(AfterA(a, b, s).states, RoundAck(a, b, s).digests, q);
    RequestedCutExists(x, y, v);
    LearnRequested(x, y, v, Delta(x, v).value);
  }

  /** A is behind: B's cut brings A level and nothing about e flows back. */
  lemma RoundBack(a: Node, b: Node, s: Schedule, e: Endpoint)
    requires IsSchedule(a, b, s) && Meets(a, b, e)
    requires e in b.states && Newer(a.states[e].content, b.states[e].content)
    ensures Hold(a, b, s, e, Takes(Some(a.states[e].content), b.states[e].content), b.states[e].content)
  {
    var x, y := a.states[e].content, b.states[e].content;
    var d := DigestOf(a.states, e);
    ListHasDigest(a, b, s, e);
    VerdictOn(b.states, e, x);
    ExamineAt(b.states, s.list, d);
    AfterRound(a, b, s, e);
    var v := ExamineOne(b.states, d).floor;
    RequestedCutExists(y, Some(x), v);
    LearnRequested(y, Some(x), v, Delta(y, v).value);
    RepliesEffect(AfterA(a, b, s).states, RoundAck(a, b, s).digests);
    assert e !in RoundAck2(a, b, s);
  }

  lemma RoundLevel(a: Node, b: Node, s: Schedule, e: Endpoint)
    requires IsSchedule(a, b, s) && Meets(a, b, e)
    requires e in b.states && a.states[e].content == b.states[e].content
    ensures BothHold(a, b, s, e, a.states[e].content)
  {
    var d := DigestOf(a.states, e);
    ListHasDigest(a, b, s, e);
    VerdictOn(b.states, e, a.states[e].content);
    ExamineAt(b.states, s.list, d);
    AfterRound(a, b, s, e);
    RepliesEffect(AfterA(a, b, s).states, RoundAck(a, b, s).digests);
    assert e !in RoundAck2(a, b, s);
  }

  /** The exact result of a round, for every endpoint A knew and whatever orders were chosen. */
  lemma RoundResult(a: Node, b: Node, s: Schedule, e: Endpoint)
    requires IsSchedule(a, b, s) && Meets(a, b, e)
    ensures var x, y := a.states[e].content, ContentAt(b, e);
      var w := Newest(x, y);
      Hold(a, b, s, e, if w == x then x else Takes(Some(x), w), if y == Some(w) then w else Takes(y, w))
  {
    hide IsSchedule, Hold;
    var x, y := a.states[e].content, ContentAt(b, e);
    if y.None? || Newer(y.value, x) {
      assert Newest(x, y) == x;
      RoundForward(a, b, s, e);
    } else if x == y.value {
      assert Newest(x, y) == x;
      RoundLevel(a, b, s, e);
    } else {
      assert Newer(x, y.value) && Newest(x, y) == y.value;
      RoundBack(a, b, s, e);
    }
  }

  /**
   Round convergence: after the round both hold the state with the lexicographically larger
   (generation, max version), unless it announces a shutdown and is a new endpoint or a newer
   generation to the node that was behind, and only then.
   */
  lemma RoundConverges(a: Node, b: Node, s: Schedule, e: Endpoint)
    requires IsSchedule(a, b, s) && Meets(a, b, e)
    ensures var x, y := a.states[e].content, ContentAt(b, e);
      var w := Newest(x, y);
      BothHold(a, b, s, e, w) <==> !Forces(if w == x then y else Some(x), w)
  {
    RoundResult(a, b, s, e);
  }

  /** An endpoint A has never heard of is not touched by the round. */
  lemma RoundLeavesUnknown(a: Node, b: Node, s: Schedule, e: Endpoint)
    requires IsSchedule(a, b, s) && e !in a.states
    ensures ContentAt(AfterA(a, b, s), e) == ContentAt(a, e)
    ensures ContentAt(AfterB(a, b, s), e) == ContentAt(b, e)
  {
    ListHasDigest(a, b, s, e);
    ExamineNowhereElse(b.states, s.list, e);
    AfterRound(a, b, s, e);
    RepliesEffect(AfterA(a, b, s).states, RoundAck(a, b, s).digests);
    assert e !in RoundAck2(a, b, s);
  }

  lemma RoundKeepsNames(a: Node, b: Node, s: Schedule)
    requires IsSchedule(a, b, s)
    ensures AfterA(a, b, s).clusterName == a.clusterName && AfterB(a, b, s).clusterName == b.clusterName
  {
    hide Examine, Replies, IsExaminedList, ApplyMessage, Enumerates;
    ApplyMessageEffect(a, RoundAck(a, b, s).states, s.orderA, s.nowA);
    ApplyMessageEffect(b, RoundAck2(a, b, s), s.orderB, s.nowB);
  }

  // ------------------------------------------------ two nodes can always gossip

  lemma PrependDescending(states: StateMap, x: Digest, p: seq<Digest>)
    requires Descending(states, p) && forall y | y in p :: Leq(Gap(states, y), Gap(states, x))
    ensures Descending(states, [x] + p)
  {
    hide Gap, Leq;
  }

  lemma {:induction false} InsertDescending(states: StateMap, p: seq<Digest>, d: Digest) returns (q: seq<Digest>)
    requires Descending(states, p)
    ensures multiset(q) == multiset(p) + multiset{d} && Descending(states, q)
  {
    hide Gap;
    if p == [] || Leq(Gap(states, p[0]), Gap(states, d)) {
      q := [d] + p;
      PrependDescending(states, d, p);
    } else {
      var rest := InsertDescending(states, p[1..], d);
      q := [p[0]] + rest;
      assert p == [p[0]] + p[1..];
      forall y | y in rest ensures Leq(Gap(states, y), Gap(states, p[0])) {
        assert y in multiset(rest);
        assert y == d || y in p[1..];
      }
      PrependDescending(states, p[0], rest);
    }
  }

  lemma {:induction false} DescendingExists(states: StateMap, ds: seq<Digest>) returns (p: seq<Digest>)
    ensures multiset(p) == multiset(ds) && Descending(states, p)
  {
    if ds == [] {
      p := [];
    } else {
      hide Descending;
      p := DescendingExists(states, ds[1..]);
      p := InsertDescending(states, p, ds[0]);
      assert ds == [ds[0]] + ds[1..];
    }
  }

  lemma SortExists(states: StateMap, ds: seq<Digest>) returns (list: seq<Digest>)
    ensures IsSorted(states, ds, list)
  {
    hide Descending;
    var p := DescendingExists(states, ds);
    forall i | 0 <= i < |p| ensures p[i] in ds {
      assert p[i] in multiset(p);
    }
    list := seq(|p|, i requires 0 <= i < |p| => FirstFor(ds, p[i].ep));
    assert FirstsOf(ds, p, list);
  }

  /** Two enabled nodes of one cluster can hold a round, so the theorems about rounds are about something. */
  lemma ScheduleExists(a: Node, b: Node, nowA: int, nowB: int) returns (s: Schedule)
    requires a.enabled && b.enabled && !a.inShadowRound && !b.inShadowRound && a.clusterName == b.clusterName
    requires a.states != map[]
    ensures IsSchedule(a, b, s)
  {
    hide IsSorted, Examine, Replies, ApplyMessage, Enumerates;
    var order := EnumerationExists(a.states.Keys);
    var ds := MakeDigests(a.states, order);
    EnumerationNotEmpty(order, a.states);
    var list := SortExists(b.states, ds);
    var s1 := Schedule(order, list, [], nowA, [], nowB);
    var orderA := EnumerationExists(RoundAck(a, b, s1).states.Keys);
    var s2 := s1.(orderA := orderA);
    var orderB := EnumerationExists(RoundAck2(a, b, s2).Keys);
    s := s2.(orderB := orderB);
  }

  lemma EnumerationNotEmpty(order: seq<Endpoint>, states: StateMap)
    requires Enumerates(order, states.Keys) && states != map[]
    ensures order != [] && forall e | e in order :: e in states
  {
    assert states.Keys != {};
    SomeEndpoint(states.Keys);
    var e :| e in states.Keys;
    assert e in order;
  }
}
