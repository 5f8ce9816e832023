/**
 What rounds do to a whole cluster once owners stop updating: nothing is ever unlearned,
 every round between nodes that differ makes progress, and a cluster in which no round
 changes anything agrees everywhere.
 */
module Quiescence {
  import opened Wrappers
  import opened EndpointStates
  import opened GossipNodes
  import opened Snapshots
  import opened Rounds

  /**
   The standing assumptions: what safe runs keep (in particular that nobody has announced a
   shutdown), no quarantine, generations within the limit, everyone has sent a heartbeat.
   */
  ghost predicate Settled(c: Cluster) {
    && Inv(c)
    && (forall n | n in c.nodes :: c.nodes[n].justRemoved == map[])
    && (forall n | n in c.nodes :: n in c.nodes[n].states && MaxVersion(Own(c, n)) >= 1)
    && (forall e, x, y | e in c.hist && x in c.hist[e] && y in c.hist[e] :: !TooFarAhead(x, y))
  }

  ghost predicate IsRoundOf(c: Cluster, a: Endpoint, b: Endpoint, s: Schedule) {
    a in c.nodes && b in c.nodes && a != b && IsSchedule(c.nodes[a], c.nodes[b], s)
  }

  ghost function SynOf(c: Cluster, a: Endpoint, b: Endpoint, s: Schedule): Message
    requires IsRoundOf(c, a, b, s)
  {
    SynMsg(a, b, RoundSyn(c.nodes[a], s))
  }

  ghost function AckOf(c: Cluster, a: Endpoint, b: Endpoint, s: Schedule): Message
    requires IsRoundOf(c, a, b, s)
  {
    AckMsg(b, a, RoundAck(c.nodes[a], c.nodes[b], s))
  }

  ghost function Ack2Of(c: Cluster, a: Endpoint, b: Endpoint, s: Schedule): Message
    requires IsRoundOf(c, a, b, s)
  {
    Ack2Msg(b, RoundAck2(c.nodes[a], c.nodes[b], s))
  }

  /** The cluster after an uninterrupted round from a to b. */
  ghost function AfterRoundOf(c: Cluster, a: Endpoint, b: Endpoint, s: Schedule): Cluster
    requires IsRoundOf(c, a, b, s)
  {
    var na, nb := c.nodes[a], c.nodes[b];
    Cluster(c.nodes[a := AfterA(na, nb, s)][b := AfterB(na, nb, s)],
            c.net + {SynOf(c, a, b, s)} + {AckOf(c, a, b, s)} + {Ack2Of(c, a, b, s)},
            c.hist)
  }

  function Stored(c: Cluster, n: Endpoint, e: Endpoint): Option<Content>
    requires n in c.nodes
  {
    ContentAt(c.nodes[n], e)
  }

  // --------------------------------------------------- reachable states qualify

  lemma LastIsNewest(h: seq<Content>, x: Content)
    requires IsHistory(h) && x in h
    ensures x == h[|h|-1] || Newer(x, h[|h|-1])
  {
    var i :| 0 <= i < |h| && h[i] == x;
    if i < |h| - 1 {
      HistoryAdvances(h, i, |h| - 1);
    }
  }

  /** Nobody is ahead of an owner about the owner. */
  lemma OwnerIsNewest(c: Cluster, n: Endpoint, e: Endpoint)
    requires Inv(c) && n in c.nodes && e in c.nodes[n].states
    ensures e in c.nodes && e in c.nodes[e].states
    ensures c.nodes[n].states[e].content == Own(c, e) || Newer(c.nodes[n].states[e].content, Own(c, e))
  {
    CopyFacts(c, n, e);
    assert NodeOk(c, e);
    LastIsNewest(c.hist[e], c.nodes[n].states[e].content);
  }

  lemma CopySendable(c: Cluster, n: Endpoint, e: Endpoint)
    requires Settled(c) && n in c.nodes && e in c.nodes[n].states
    ensures Sendable(c.nodes[n].states[e].content)
  {
    CopyFacts(c, n, e);
    assert CopiesOk(c, n);
  }

  lemma CopiesComparable(c: Cluster, a: Endpoint, b: Endpoint, e: Endpoint)
    requires Settled(c) && a in c.nodes && b in c.nodes && e in c.nodes[a].states && e in c.nodes[b].states
    ensures Comparable(c.nodes[a].states[e].content, c.nodes[b].states[e].content)
  {
    CopyFacts(c, a, e);
    CopyFacts(c, b, e);
    HistoryIsLinear(c.hist[e], c.nodes[a].states[e].content, c.nodes[b].states[e].content);
  }

  /** In a settled reachable cluster the premises of the round theorem hold for every endpoint. */
  lemma SettledMeets(c: Cluster, a: Endpoint, b: Endpoint, e: Endpoint)
    requires Settled(c) && a in c.nodes && b in c.nodes && e in c.nodes[a].states
    ensures Meets(c.nodes[a], c.nodes[b], e)
  {
    CopySendable(c, a, e);
    OwnerIsNewest(c, a, e);
    assert NodeOk(c, a) && NodeOk(c, b);
    if e in c.nodes[b].states {
      CopySendable(c, b, e);
      CopiesComparable(c, a, b, e);
      OwnerIsNewest(c, b, e);
    }
  }

  // ------------------------------------------------------------ what a round does

  /** A copy is kept, or replaced by a newer state of the same owner. */
  ghost predicate Improves(x: Option<Content>, y: Option<Content>, h: seq<Content>) {
    || y == x
    || (y.Some? && y.value in h && (x.Some? ==> Newer(x.value, y.value)))
  }

  lemma NewestImproves(x: Content, y: Option<Content>, h: seq<Content>)
    requires IsHistory(h) && x in h && (y.Some? ==> y.value in h)
    ensures Improves(Some(x), Some(Newest(x, y)), h) && Improves(y, Some(Newest(x, y)), h)
  {
    if y.Some? {
      HistoryIsLinear(h, x, y.value);
    }
  }

  lemma LastIsFinal(h: seq<Content>, y: Option<Content>)
    requires IsHistory(h) && Improves(Some(h[|h|-1]), y, h)
    ensures y == Some(h[|h|-1])
  {
    if y != Some(h[|h|-1]) {
      LastIsNewest(h, y.value);
    }
  }

  /** What n stores about e, and what owners published about it. */
  ghost function HistoryOf(c: Cluster, e: Endpoint): seq<Content> {
    if e in c.hist then c.hist[e] else []
  }

  lemma RoundStores(c: Cluster, a: Endpoint, b: Endpoint, s: Schedule, e: Endpoint)
    requires Settled(c) && IsRoundOf(c, a, b, s) && e in c.nodes[a].states
    ensures var c', x := AfterRoundOf(c, a, b, s), Some(Newest(c.nodes[a].states[e].content, Stored(c, b, e)));
            Stored(c', a, e) == x && Stored(c', b, e) == x
  {
    SettledMeets(c, a, b, e);
    RoundConverges(c.nodes[a], c.nodes[b], s, e);
  }

  /** After a round from a to b both store the same about everything a knew, and neither lost anything. */
  lemma RoundEffect(c: Cluster, a: Endpoint, b: Endpoint, s: Schedule, e: Endpoint)
    requires Settled(c) && IsRoundOf(c, a, b, s) && e in c.nodes[a].states
    ensures var c' := AfterRoundOf(c, a, b, s);
      && Stored(c', a, e).Some? && Stored(c', a, e) == Stored(c', b, e)
      && Improves(Stored(c, a, e), Stored(c', a, e), HistoryOf(c, e))
      && Improves(Stored(c, b, e), Stored(c', b, e), HistoryOf(c, e))
  {
    RoundStores(c, a, b, s, e);
    CopyFacts(c, a, e);
    if e in c.nodes[b].states {
      CopyFacts(c, b, e);
    }
    NewestImproves(c.nodes[a].states[e].content, Stored(c, b, e), c.hist[e]);
  }

  lemma UntouchedByRound(c: Cluster, a: Endpoint, b: Endpoint, s: Schedule, n: Endpoint, e: Endpoint)
    requires IsRoundOf(c, a, b, s) && n in c.nodes
    requires e !in c.nodes[a].states || (n != a && n != b)
    ensures Stored(AfterRoundOf(c, a, b, s), n, e) == Stored(c, n, e)
  {
    if e !in c.nodes[a].states {
      RoundLeavesUnknown(c.nodes[a], c.nodes[b], s, e);
    }
  }

  lemma RoundImproves(c: Cluster, a: Endpoint, b: Endpoint, s: Schedule, n: Endpoint, e: Endpoint)
    requires Settled(c) && IsRoundOf(c, a, b, s) && n in c.nodes
    ensures Improves(Stored(c, n, e), Stored(AfterRoundOf(c, a, b, s), n, e), HistoryOf(c, e))
  {
    if e in c.nodes[a].states && (n == a || n == b) {
      RoundEffect(c, a, b, s, e);
    } else {
      UntouchedByRound(c, a, b, s, n, e);
    }
  }

  // --------------------------------------------------------- pairs left behind

  /** What an owner says about itself now. */
  function Current(c: Cluster, e: Endpoint): Option<Content>
    requires e in c.nodes
  {
    Stored(c, e, e)
  }

  ghost function Behind(c: Cluster): set<(Endpoint, Endpoint)> {
    set n, e | n in c.nodes && e in c.nodes && Stored(c, n, e) != Current(c, e) :: (n, e)
  }

  lemma CurrentIsLast(c: Cluster, e: Endpoint)
    requires Inv(c) && e in c.nodes
    ensures e in c.hist && IsHistory(c.hist[e]) && Current(c, e) == Some(c.hist[e][|c.hist[e]|-1])
  {
    assert NodeOk(c, e);
  }

  /** A copy that is the owner's own state is not replaced. */
  lemma UpToDateStays(c: Cluster, a: Endpoint, b: Endpoint, s: Schedule, n: Endpoint, e: Endpoint)
    requires Settled(c) && IsRoundOf(c, a, b, s) && n in c.nodes && e in c.nodes
    requires Stored(c, n, e) == Current(c, e)
    ensures Stored(AfterRoundOf(c, a, b, s), n, e) == Current(c, e)
  {
    RoundImproves(c, a, b, s, n, e);
    CurrentIsLast(c, e);
    LastIsFinal(c.hist[e], Stored(AfterRoundOf(c, a, b, s), n, e));
  }

  lemma PairStaysCurrent(c: Cluster, a: Endpoint, b: Endpoint, s: Schedule, n: Endpoint, e: Endpoint)
    requires Settled(c) && IsRoundOf(c, a, b, s) && n in c.nodes && e in c.nodes
    requires Stored(c, n, e) == Current(c, e)
    ensures Stored(AfterRoundOf(c, a, b, s), n, e) == Current(AfterRoundOf(c, a, b, s), e)
  {
    UpToDateStays(c, a, b, s, e, e);
    UpToDateStays(c, a, b, s, n, e);
  }

  ghost predicate CurrentPairsStay(c: Cluster, c': Cluster) {
    && c.nodes.Keys == c'.nodes.Keys
    && forall n, e | n in c.nodes && e in c.nodes && Stored(c, n, e) == Current(c, e) ::
         Stored(c', n, e) == Current(c', e)
  }

  lemma RoundKeepsCurrent(c: Cluster, a: Endpoint, b: Endpoint, s: Schedule)
    requires Settled(c) && IsRoundOf(c, a, b, s)
    ensures CurrentPairsStay(c, AfterRoundOf(c, a, b, s))
  {
    hide Settled, Inv;
    forall n, e | n in c.nodes && e in c.nodes && Stored(c, n, e) == Current(c, e)
      ensures Stored(AfterRoundOf(c, a, b, s), n, e) == Current(AfterRoundOf(c, a, b, s), e)
    {
      PairStaysCurrent(c, a, b, s, n, e);
    }
  }

  lemma BehindSubset(c: Cluster, c': Cluster)
    requires CurrentPairsStay(c, c')
    ensures Behind(c') <= Behind(c) && |Behind(c')| <= |Behind(c)|
  {
    SubsetSize(Behind(c'), Behind(c));
  }

  /** No round ever increases the set of (node, endpoint) pairs that lag behind the owner. */
  lemma BehindShrinks(c: Cluster, a: Endpoint, b: Endpoint, s: Schedule)
    requires Settled(c) && IsRoundOf(c, a, b, s)
    ensures Behind(AfterRoundOf(c, a, b, s)) <= Behind(c)
    ensures |Behind(AfterRoundOf(c, a, b, s))| <= |Behind(c)|
  {
    RoundKeepsCurrent(c, a, b, s);
    BehindSubset(c, AfterRoundOf(c, a, b, s));
  }

  lemma SubsetSize<T>(x: set<T>, y: set<T>)
    requires x <= y
    ensures |x| <= |y|
    ensures x != y ==> |x| < |y|
  {
    assert y == x + (y - x);
  }

  // ------------------------------------------------------------------ progress

  /** Node n has not yet reached the i-th state e published. */
  ghost predicate Lacks(c: Cluster, n: Endpoint, e: Endpoint, i: int)
    requires n in c.nodes && e in c.hist && 0 <= i < |c.hist[e]|
  {
    Stored(c, n, e).None? || !Leq(KeyOf(c.hist[e][i]), KeyOf(Stored(c, n, e).value))
  }

  ghost function Missing(c: Cluster): set<(Endpoint, Endpoint, int)> {
    set n, e, i | n in c.nodes && e in c.hist && 0 <= i < |c.hist[e]| && Lacks(c, n, e, i) :: (n, e, i)
  }

  lemma ImprovedLacksLess(c: Cluster, c': Cluster, n: Endpoint, e: Endpoint, i: int)
    requires n in c.nodes && n in c'.nodes && c.hist == c'.hist && e in c.hist && 0 <= i < |c.hist[e]|
    requires Improves(Stored(c, n, e), Stored(c', n, e), HistoryOf(c, e)) && Lacks(c', n, e, i)
    ensures Lacks(c, n, e, i)
  {
  }

  /** A replaced copy reaches at least one state it lacked: its own. */
  lemma ChangeReaches(c: Cluster, c': Cluster, n: Endpoint, e: Endpoint)
    requires n in c.nodes && n in c'.nodes && c.hist == c'.hist
    requires Improves(Stored(c, n, e), Stored(c', n, e), HistoryOf(c, e)) && Stored(c', n, e) != Stored(c, n, e)
    ensures e in c.hist && exists i | 0 <= i < |c.hist[e]| :: Lacks(c, n, e, i) && !Lacks(c', n, e, i)
  {
    var x := Stored(c', n, e).value;
    var i :| 0 <= i < |c.hist[e]| && c.hist[e][i] == x;
    assert !Lacks(c', n, e, i);
    assert Lacks(c, n, e, i);
  }

  lemma MissingShrinks(c: Cluster, a: Endpoint, b: Endpoint, s: Schedule)
    requires Settled(c) && IsRoundOf(c, a, b, s)
    ensures Missing(AfterRoundOf(c, a, b, s)) <= Missing(c)
  {
    var c' := AfterRoundOf(c, a, b, s);
    forall n, e, i | n in c.nodes && e in c.hist && 0 <= i < |c.hist[e]| && Lacks(c', n, e, i)
      ensures Lacks(c, n, e, i)
    {
      RoundImproves(c, a, b, s, n, e);
      ImprovedLacksLess(c, c', n, e, i);
    }
  }

  lemma MissesFewer(c: Cluster, c': Cluster, n: Endpoint, e: Endpoint)
    requires n in c.nodes && n in c'.nodes && c.hist == c'.hist && Missing(c') <= Missing(c)
    requires Improves(Stored(c, n, e), Stored(c', n, e), HistoryOf(c, e)) && Stored(c', n, e) != Stored(c, n, e)
    ensures |Missing(c')| < |Missing(c)|
  {
    ChangeReaches(c, c', n, e);
    hide Improves, Stored;
    var i :| 0 <= i < |c.hist[e]| && Lacks(c, n, e, i) && !Lacks(c', n, e, i);
    hide Lacks;
    assert (n, e, i) in Missing(c) && (n, e, i) !in Missing(c');
    SubsetSize(Missing(c'), Missing(c));
  }

  /** Any round that changes some stored content strictly reduces what is missing. */
  lemma ChangeIsProgress(c: Cluster, a: Endpoint, b: Endpoint, s: Schedule, n: Endpoint, e: Endpoint)
    requires Settled(c) && IsRoundOf(c, a, b, s) && n in c.nodes
    requires Stored(AfterRoundOf(c, a, b, s), n, e) != Stored(c, n, e)
    ensures |Missing(AfterRoundOf(c, a, b, s))| < |Missing(c)|
  {
    hide Settled, Inv, IsSchedule, Stored, Missing, Improves, AfterA, AfterB, SynOf, AckOf, Ack2Of;
    MissingShrinks(c, a, b, s);
    RoundImproves(c, a, b, s, n, e);
    MissesFewer(c, AfterRoundOf(c, a, b, s), n, e);
  }

  /** A round between two nodes that differ on something the initiator knows makes progress. */
  lemma DifferenceIsProgress(c: Cluster, a: Endpoint, b: Endpoint, s: Schedule, e: Endpoint)
    requires Settled(c) && IsRoundOf(c, a, b, s)
    requires e in c.nodes[a].states && Stored(c, a, e) != Stored(c, b, e)
    ensures |Missing(AfterRoundOf(c, a, b, s))| < |Missing(c)|
  {
    RoundEffect(c, a, b, s, e);
    var c' := AfterRoundOf(c, a, b, s);
    if Stored(c', a, e) != Stored(c, a, e) {
      ChangeIsProgress(c, a, b, s, a, e);
    } else {
      ChangeIsProgress(c, a, b, s, b, e);
    }
  }

  // ----------------------------------------------------------------- agreement

  ghost predicate ChangesNothing(c: Cluster, a: Endpoint, b: Endpoint, s: Schedule) {
    IsRoundOf(c, a, b, s) && forall n, e | n in c.nodes :: Stored(AfterRoundOf(c, a, b, s), n, e) == Stored(c, n, e)
  }

  /** If no ordered pair's round changes anything, all nodes store the same, and for each node what it says itself. */
  lemma QuiescenceIsAgreement(c: Cluster, n: Endpoint, p: Endpoint, e: Endpoint)
    requires Settled(c) && n in c.nodes && p in c.nodes
    requires forall a, b | a in c.nodes && b in c.nodes && a != b :: exists s :: ChangesNothing(c, a, b, s)
    ensures Stored(c, n, e) == Stored(c, p, e)
    ensures e in c.nodes ==> Stored(c, n, e) == Current(c, e)
  {
    PairAgrees(c, n, p, e);
    if e in c.nodes {
      PairAgrees(c, n, e, e);
    }
  }

  lemma PairAgrees(c: Cluster, a: Endpoint, b: Endpoint, e: Endpoint)
    requires Settled(c) && a in c.nodes && b in c.nodes
    requires forall a, b | a in c.nodes && b in c.nodes && a != b :: exists s :: ChangesNothing(c, a, b, s)
    ensures Stored(c, a, e) == Stored(c, b, e)
  {
    if a != b {
      if e in c.nodes[a].states {
        var s :| ChangesNothing(c, a, b, s);
        RoundEffect(c, a, b, s, e);
      } else if e in c.nodes[b].states {
        var s :| ChangesNothing(c, b, a, s);
        RoundEffect(c, b, a, s, e);
      }
    }
  }

  // ------------------------------------------------- a round is a run of four steps

  /** A step that leaves the acting node's own state alone only replaces the node and adds messages. */
  lemma SameOwnReplace(c: Cluster, n: Endpoint, node: Node, sent: set<Message>)
    requires Inv(c) && n in c.nodes && n in node.states && n in c.nodes[n].states
    requires node.states[n].content == Own(c, n)
    ensures n in c.hist && Replace(c, n, node, sent) == Cluster(c.nodes[n := node], c.net + sent, c.hist)
  {
    assert NodeOk(c, n);
    assert c.hist[n := c.hist[n]] == c.hist;
  }

  lemma SynStepOf(c: Cluster, a: Endpoint, b: Endpoint, s: Schedule)
    requires Inv(c) && IsRoundOf(c, a, b, s)
    ensures Leads(c, SendSynStep(a, b, s.order),
                  c.(net := c.net + {SynOf(c, a, b, s)}))
  {
    hide Inv, Enumerates, MakeDigests, IsExaminedList, RoundAck, RoundAck2;
    NodeFacts(c, a);
    SameOwnReplace(c, a, c.nodes[a], {SynOf(c, a, b, s)});
    assert c.nodes[a := c.nodes[a]] == c.nodes;
  }

  lemma AckStepOf(c: Cluster, c1: Cluster, a: Endpoint, b: Endpoint, s: Schedule)
    requires Inv(c1) && IsRoundOf(c, a, b, s)
    requires c1.nodes == c.nodes && SynOf(c, a, b, s) in c1.net
    ensures Leads(c1, DeliverSynStep(SynOf(c, a, b, s), s.list),
                  c1.(net := c1.net + {AckOf(c, a, b, s)}))
  {
    hide Inv, Enumerates, MakeDigests, IsExaminedList, Examine, RoundAck, RoundAck2;
    NodeFacts(c1, b);
    RoundUsesHandlers(c.nodes[a], c.nodes[b], s);
    SameOwnReplace(c1, b, c1.nodes[b], {AckOf(c, a, b, s)});
    assert c1.nodes[b := c1.nodes[b]] == c1.nodes;
  }

  /** In an uninterrupted round the initiator's copy still has the generation its digest announced. */
  lemma RoundGenerationsMatch(a: Node, b: Node, s: Schedule, d: Digest)
    requires IsSchedule(a, b, s) && d in RoundAck(a, b, s).digests
    requires d.maxVersion != 0 && d.ep in AfterA(a, b, s).states
    ensures AfterA(a, b, s).states[d.ep].content.hb.generation == d.generation
  {
    hide IsSchedule, Examine, AfterA, UniqueEndpoints, Delta;
    ListHasDigest(a, b, s, d.ep);
    ExamineEffect(b.states, s.list);
    var x :| x in s.list && x.ep == d.ep && ExamineOne(b.states, x) == Request(d);
    ExamineAt(b.states, s.list, x);
    AfterRound(a, b, s, d.ep);
    assert d.ep in a.states;
    assert x == DigestOf(a.states, d.ep);
  }

  lemma OwnUntouched(a: Node, b: Node, s: Schedule)
    requires IsSchedule(a, b, s)
    ensures ContentAt(AfterA(a, b, s), a.self) == ContentAt(a, a.self)
    ensures ContentAt(AfterB(a, b, s), b.self) == ContentAt(b, b.self)
    ensures SameFrame(a, AfterA(a, b, s)) && SameFrame(b, AfterB(a, b, s))
  {
    AfterRound(a, b, s, a.self);
    AfterRound(a, b, s, b.self);
    ApplyMessageEffect(a, RoundAck(a, b, s).states, s.orderA, s.nowA);
    ApplyMessageEffect(b, RoundAck2(a, b, s), s.orderB, s.nowB);
  }

  lemma AckStepEnabled(c: Cluster, c2: Cluster, a: Endpoint, b: Endpoint, s: Schedule)
    requires IsRoundOf(c, a, b, s)
    requires c2.nodes == c.nodes && AckOf(c, a, b, s) in c2.net
    ensures var step := DeliverAckStep(AckOf(c, a, b, s), s.orderA, s.nowA);
      Enabled(c2, step) && Act(c2, step) == (AfterA(c.nodes[a], c.nodes[b], s), {Ack2Of(c, a, b, s)})
  {
    hide Enumerates, IsExaminedList, RoundAck, RoundAck2, AfterA, HandleAck;
    RoundUsesHandlers(c.nodes[a], c.nodes[b], s);
  }

  lemma AckStepMatches(c: Cluster, c2: Cluster, a: Endpoint, b: Endpoint, s: Schedule)
    requires IsRoundOf(c, a, b, s)
    requires c2.nodes == c.nodes && AckOf(c, a, b, s) in c2.net
    requires Enabled(c2, DeliverAckStep(AckOf(c, a, b, s), s.orderA, s.nowA))
    ensures GenerationsMatch(c2, DeliverAckStep(AckOf(c, a, b, s), s.orderA, s.nowA))
  {
    hide Enumerates, IsExaminedList, RoundAck, RoundAck2, AfterA, Act, Enabled;
    AckStepEnabled(c, c2, a, b, s);
    var na, nb := c.nodes[a], c.nodes[b];
    forall d | d in RoundAck(na, nb, s).digests && d.maxVersion != 0 && d.ep in AfterA(na, nb, s).states
      ensures AfterA(na, nb, s).states[d.ep].content.hb.generation == d.generation
    {
      RoundGenerationsMatch(na, nb, s, d);
    }
  }

  lemma Ack2StepOf(c: Cluster, c2: Cluster, a: Endpoint, b: Endpoint, s: Schedule)
    requires Inv(c2) && IsRoundOf(c, a, b, s)
    requires c2.nodes == c.nodes && AckOf(c, a, b, s) in c2.net
    ensures Leads(c2, DeliverAckStep(AckOf(c, a, b, s), s.orderA, s.nowA),
                  Cluster(c.nodes[a := AfterA(c.nodes[a], c.nodes[b], s)], c2.net + {Ack2Of(c, a, b, s)}, c2.hist))
  {
    hide Inv, Enumerates, IsExaminedList, RoundAck, RoundAck2, Enabled, Act, GenerationsMatch, AfterA;
    NodeFacts(c2, a);
    AckStepEnabled(c, c2, a, b, s);
    AckStepMatches(c, c2, a, b, s);
    OwnUntouched(c.nodes[a], c.nodes[b], s);
    SameOwnReplace(c2, a, AfterA(c.nodes[a], c.nodes[b], s), {Ack2Of(c, a, b, s)});
  }

  lemma LastStepOf(c: Cluster, c3: Cluster, a: Endpoint, b: Endpoint, s: Schedule)
    requires Inv(c3) && IsRoundOf(c, a, b, s)
    requires b in c3.nodes && c3.nodes[b] == c.nodes[b] && Ack2Of(c, a, b, s) in c3.net
    ensures Leads(c3, DeliverAck2Step(Ack2Of(c, a, b, s), s.orderB, s.nowB),
                  c3.(nodes := c3.nodes[b := AfterB(c.nodes[a], c.nodes[b], s)]))
  {
    hide Inv, Enumerates, IsExaminedList, RoundAck, RoundAck2, ApplyMessage;
    NodeFacts(c3, b);
    OwnUntouched(c.nodes[a], c.nodes[b], s);
    SameOwnReplace(c3, b, AfterB(c.nodes[a], c.nodes[b], s), {});
  }

  /** The round is four consecutive protocol steps, so it keeps everything protocol steps keep. */
  lemma RoundIsFourSteps(c: Cluster, a: Endpoint, b: Endpoint, s: Schedule)
    returns (c1: Cluster, c2: Cluster, c3: Cluster)
    requires Inv(c) && IsRoundOf(c, a, b, s)
    ensures Leads(c, SendSynStep(a, b, s.order), c1)
    ensures Leads(c1, DeliverSynStep(SynOf(c, a, b, s), s.list), c2)
    ensures Leads(c2, DeliverAckStep(AckOf(c, a, b, s), s.orderA, s.nowA), c3)
    ensures Leads(c3, DeliverAck2Step(Ack2Of(c, a, b, s), s.orderB, s.nowB), AfterRoundOf(c, a, b, s))
    ensures Inv(AfterRoundOf(c, a, b, s))
  {
    hide Leads, Inv;
    c1 := c.(net := c.net + {SynOf(c, a, b, s)});
    c2 := c1.(net := c1.net + {AckOf(c, a, b, s)});
    c3 := Cluster(c.nodes[a := AfterA(c.nodes[a], c.nodes[b], s)], c2.net + {Ack2Of(c, a, b, s)}, c2.hist);
    SynStepOf(c, a, b, s);
    LeadsKeepsInv(c, SendSynStep(a, b, s.order), c1);
    AckStepOf(c, c1, a, b, s);
    LeadsKeepsInv(c1, DeliverSynStep(SynOf(c, a, b, s), s.list), c2);
    Ack2StepOf(c, c2, a, b, s);
    LeadsKeepsInv(c2, DeliverAckStep(AckOf(c, a, b, s), s.orderA, s.nowA), c3);
    LastStepOf(c, c3, a, b, s);
    LeadsKeepsInv(c3, DeliverAck2Step(Ack2Of(c, a, b, s), s.orderB, s.nowB), AfterRoundOf(c, a, b, s));
  }

  lemma RoundStaysSettled(c: Cluster, a: Endpoint, b: Endpoint, s: Schedule)
    requires Settled(c) && IsRoundOf(c, a, b, s)
    ensures Settled(AfterRoundOf(c, a, b, s))
  {
    hide Inv, IsSchedule, Leads, AfterA, AfterB;
    var c1, c2, c3 := RoundIsFourSteps(c, a, b, s);
    var c' := AfterRoundOf(c, a, b, s);
    NodeFacts(c, a);
    NodeFacts(c, b);
    OwnUntouched(c.nodes[a], c.nodes[b], s);
    forall n | n in c'.nodes
      ensures c'.nodes[n].justRemoved == map[]
      ensures n in c'.nodes[n].states && MaxVersion(Own(c', n)) >= 1
    {
      assert n in c.nodes;
    }
  }

  // -------------------------------------------------------- sequences of rounds

  datatype Pick = Pick(a: Endpoint, b: Endpoint, s: Schedule)

  /** Round r takes c to c' and changes something some node stores. */
  ghost predicate IsChangingRound(c: Cluster, r: Pick, c': Cluster) {
    && IsRoundOf(c, r.a, r.b, r.s) && c' == AfterRoundOf(c, r.a, r.b, r.s)
    && exists n, e | n in c.nodes :: Stored(c', n, e) != Stored(c, n, e)
  }

  lemma ChangingRound(c: Cluster, r: Pick, c': Cluster)
    requires Settled(c) && IsChangingRound(c, r, c')
    ensures Settled(c') && |Missing(c')| < |Missing(c)|
  {
    RoundStaysSettled(c, r.a, r.b, r.s);
    var n, e :| n in c.nodes && Stored(c', n, e) != Stored(c, n, e);
    ChangeIsProgress(c, r.a, r.b, r.s, n, e);
  }

  /** However rounds are chosen, at most as many of them can change something as there were states to learn. */
  lemma {:induction false} RoundsAreBounded(cs: seq<Cluster>, rs: seq<Pick>)
    requires |cs| == |rs| + 1 && Settled(cs[0])
    requires forall i | 0 <= i < |rs| :: IsChangingRound(cs[i], rs[i], cs[i+1])
    ensures |rs| + |Missing(cs[|rs|])| <= |Missing(cs[0])|
    ensures Settled(cs[|rs|])
  {
    hide Settled, IsChangingRound, Missing;
    if |rs| > 0 {
      var k := |rs| - 1;
      RoundsAreBounded(cs[..|rs|], rs[..k]);
      ChangingRound(cs[k], rs[k], cs[k+1]);
    }
  }

  // ------------------------------------------------------------ convergence

  ghost predicate OneCluster(c: Cluster) {
    forall n, p | n in c.nodes && p in c.nodes :: c.nodes[n].clusterName == c.nodes[p].clusterName
  }

  ghost predicate Agreed(c: Cluster) {
    forall n, p, e | n in c.nodes && p in c.nodes :: Stored(c, n, e) == Stored(c, p, e)
  }

  lemma RoundExists(c: Cluster, a: Endpoint, b: Endpoint) returns (s: Schedule)
    requires Settled(c) && OneCluster(c) && a in c.nodes && b in c.nodes && a != b
    ensures IsRoundOf(c, a, b, s)
  {
    hide IsSchedule, Inv;
    NodeFacts(c, a);
    NodeFacts(c, b);
    s := ScheduleExists(c.nodes[a], c.nodes[b], 0, 0);
  }

  lemma RoundKeepsCluster(c: Cluster, a: Endpoint, b: Endpoint, s: Schedule)
    requires OneCluster(c) && IsRoundOf(c, a, b, s)
    ensures OneCluster(AfterRoundOf(c, a, b, s)) && AfterRoundOf(c, a, b, s).nodes.Keys == c.nodes.Keys
  {
    hide IsSchedule, AfterA, AfterB;
    RoundKeepsNames(c.nodes[a], c.nodes[b], s);
  }

  lemma DifferenceIsChange(c: Cluster, a: Endpoint, b: Endpoint, s: Schedule, e: Endpoint)
    requires Settled(c) && IsRoundOf(c, a, b, s)
    requires e in c.nodes[a].states && Stored(c, a, e) != Stored(c, b, e)
    ensures IsChangingRound(c, Pick(a, b, s), AfterRoundOf(c, a, b, s))
  {
    hide Settled, IsSchedule;
    RoundEffect(c, a, b, s, e);
    var c' := AfterRoundOf(c, a, b, s);
    assert Stored(c', a, e) != Stored(c, a, e) || Stored(c', b, e) != Stored(c, b, e);
  }

  /** As long as two nodes disagree, some round changes something. */
  lemma DisagreementIsNotTheEnd(c: Cluster) returns (r: Pick)
    requires Settled(c) && OneCluster(c) && !Agreed(c)
    ensures IsRoundOf(c, r.a, r.b, r.s) && IsChangingRound(c, r, AfterRoundOf(c, r.a, r.b, r.s))
  {
    hide Settled, IsSchedule, OneCluster, IsChangingRound;
    var n, p, e :| n in c.nodes && p in c.nodes && Stored(c, n, e) != Stored(c, p, e);
    var a, b := n, p;
    if e !in c.nodes[n].states {
      a, b := p, n;
    }
    var s := RoundExists(c, a, b);
    DifferenceIsChange(c, a, b, s, e);
    r := Pick(a, b, s);
  }

  /**
   Together with RoundsAreBounded: every sequence of rounds that each change something is
   finite, and where no round changes anything any more, all nodes agree.
   */
  lemma StuckIsAgreement(c: Cluster)
    requires Settled(c) && OneCluster(c)
    requires forall r: Pick | IsRoundOf(c, r.a, r.b, r.s) :: !IsChangingRound(c, r, AfterRoundOf(c, r.a, r.b, r.s))
    ensures Agreed(c)
  {
    hide Settled, IsChangingRound, OneCluster;
    if !Agreed(c) {
      var r := DisagreementIsNotTheEnd(c);
    }
  }

  /** From every settled cluster some finite sequence of rounds brings all nodes to what each owner said at the start. */
  lemma {:induction false} ConvergenceIsReachable(c: Cluster) returns (cs: seq<Cluster>, rs: seq<Pick>)
    requires Settled(c) && OneCluster(c)
    ensures |cs| == |rs| + 1 && cs[0] == c && |rs| <= |Missing(c)|
    ensures forall i | 0 <= i < |rs| :: IsChangingRound(cs[i], rs[i], cs[i+1])
    ensures var last := cs[|rs|];
      && Settled(last) && Agreed(last) && last.hist == c.hist && last.nodes.Keys == c.nodes.Keys
      && forall n, e | n in c.nodes && e in c.nodes :: Stored(last, n, e) == Current(c, e)
    decreases |Missing(c)|
  {
    hide Settled, IsChangingRound, Missing, IsSchedule, OneCluster;
    if Agreed(c) {
      cs, rs := [c], [];
    } else {
      var r := DisagreementIsNotTheEnd(c);
      var c1 := AfterRoundOf(c, r.a, r.b, r.s);
      ChangingRound(c, r, c1);
      RoundKeepsCluster(c, r.a, r.b, r.s);
      var cs1, rs1 := ConvergenceIsReachable(c1);
      cs, rs := [c] + cs1, [r] + rs1;
      forall e | e in c.nodes ensures Current(c1, e) == Current(c, e) {
        SameCurrent(c, c1, e);
      }
    }
  }

  lemma SameCurrent(c: Cluster, c1: Cluster, e: Endpoint)
    requires Settled(c) && Settled(c1) && c.hist == c1.hist && e in c.nodes && e in c1.nodes
    ensures Current(c1, e) == Current(c, e)
  {
    hide Inv;
    CurrentIsLast(c, e);
    CurrentIsLast(c1, e);
  }

  // -------------------------------------------------------- agreement lasts

  lemma StoredAfter(c: Cluster, s: Step, p: Endpoint, e: Endpoint)
    requires Enabled(c, s) && Actor(s) in c.hist && p in c.nodes
    ensures p in Next(c, s).nodes
    ensures Stored(Next(c, s), p, e) == if p == Actor(s) then ContentAt(Act(c, s).0, e) else Stored(c, p, e)
  {
    hide Enabled, Act;
  }

  /** A step that is not e's own update leaves what e says alone. */
  lemma OwnerUnmoved(c: Cluster, s: Step, e: Endpoint)
    requires Inv(c) && Enabled(c, s) && IsSafe(c, s) && e in c.nodes
    requires !(IsOwnUpdate(s) && Actor(s) == e)
    ensures Actor(s) in c.hist && e in Next(c, s).nodes && Current(Next(c, s), e) == Current(c, e)
  {
    assert Actor(s) in c.nodes;
    hide Inv, Enabled, Act, GenerationsMatch, Next;
    NodeFacts(c, Actor(s));
    StoredAfter(c, s, e, e);
    if Actor(s) == e {
      OwnKept(c, s);
    }
  }

  /** Whatever is delivered, however stale: a copy that is what its owner says stays so. */
  lemma CurrentStays(c: Cluster, s: Step, n: Endpoint, e: Endpoint)
    requires Inv(c) && Enabled(c, s) && IsSafe(c, s) && n in c.nodes && e in c.nodes
    requires !(IsOwnUpdate(s) && Actor(s) == e)
    requires Stored(c, n, e) == Current(c, e)
    ensures Actor(s) in c.hist && n in Next(c, s).nodes && e in Next(c, s).nodes
    ensures Stored(Next(c, s), n, e) == Current(Next(c, s), e) == Current(c, e)
  {
    hide Inv, Enabled, Act, GenerationsMatch, Next, GoodChange, NodeOk;
    OwnerUnmoved(c, s, e);
    StoredAfter(c, s, n, e);
    if n == Actor(s) && n != e {
      GoodSteps(c, s);
      NewerCopyIsLast(c, n, Act(c, s).0, e);
    }
  }

  lemma NewerCopyIsLast(c: Cluster, n: Endpoint, node: Node, e: Endpoint)
    requires Inv(c) && n in c.nodes && n in c.hist && NodeOk(c, n) && GoodChange(c, n, node)
    requires e in c.nodes && e != n && Stored(c, n, e) == Current(c, e)
    ensures ContentAt(node, e) == Current(c, e)
  {
    CurrentIsLast(c, e);
    hide Inv, NodeOk, IsHistory, OwnerStep, IsShutdownState;
    var last := c.hist[e][|c.hist[e]|-1];
    assert c.nodes[n].states[e].content == last;
    LastIsNewest(c.hist[e], node.states[e].content);
  }

  /** Once a node is up to date about e it stays so through every safe run in which e says nothing new. */
  lemma {:induction false} AgreementLasts(cs: seq<Cluster>, steps: seq<Step>, n: Endpoint, e: Endpoint)
    requires |cs| == |steps| + 1 && Inv(cs[0]) && n in cs[0].nodes && e in cs[0].nodes
    requires forall i | 0 <= i < |steps| :: Leads(cs[i], steps[i], cs[i+1]) && !(IsOwnUpdate(steps[i]) && Actor(steps[i]) == e)
    requires Stored(cs[0], n, e) == Current(cs[0], e)
    ensures var last := cs[|steps|];
      && Inv(last) && n in last.nodes && e in last.nodes
      && Stored(last, n, e) == Current(last, e) == Current(cs[0], e)
    decreases |steps|
  {
    hide Inv, Enabled, IsSafe, Next;
    if |steps| > 0 {
      var k := |steps| - 1;
      AgreementLasts(cs[..|steps|], steps[..k], n, e);
      assert Leads(cs[k], steps[k], cs[k+1]);
      LeadsKeepsInv(cs[k], steps[k], cs[k+1]);
      CurrentStays(cs[k], steps[k], n, e);
    }
  }
}
