/**
 Two complete runs of the protocol between two nodes, in which a copy ends up as a state its
 owner never had, and why later exchanges do not repair it.  They show that both provisos of
 the snapshot theorem are needed.
 */
module TornCopies {
  import opened Wrappers
  import opened EndpointStates
  import opened GossipNodes
  import opened Snapshots

  const FIRST: Content := Content(HeartBeat(1, 0), map[])

  function Fresh(n: Endpoint): Node {
    Node(n, "c", true, false, map[n := EndpointState(FIRST, 0, true)], {}, [], {}, map[], map[], map[], 0)
  }

  const START: Cluster := Cluster(map[1 := Fresh(1), 2 := Fresh(2)], {}, map[1 := [FIRST], 2 := [FIRST]])

  predicate IsAwake(node: Node, n: Endpoint) {
    node.self == n && node.clusterName == "c" && node.enabled && !node.inShadowRound && node.justRemoved == map[]
  }

  /** Node 1 knows itself only and says `own`, with its counter at v; node 2 stores `copy` of it. */
  predicate Pair(c: Cluster, own: Content, v: int, copy: Option<Content>) {
    && c.nodes.Keys == {1, 2} && c.hist.Keys == {1, 2}
    && IsAwake(c.nodes[1], 1) && IsAwake(c.nodes[2], 2)
    && c.nodes[1].states.Keys == {1} && c.nodes[1].states[1].content == own && c.nodes[1].version == v
    && ContentAt(c.nodes[2], 1) == copy
  }

  ghost predicate Goes(c: Cluster, s: Step, c': Cluster) {
    Enabled(c, s) && Actor(s) in c.hist && c' == Next(c, s)
  }

  lemma StartIsInit()
    ensures Init(START) && Pair(START, FIRST, 0, None)
  {
    forall n | n in START.nodes ensures IsFresh(n, START.nodes[n]) && START.hist[n] == [Own(START, n)] {
      assert n == 1 || n == 2;
    }
  }

  lemma Publishing(c: Cluster, own: Content, v: int, copy: Option<Content>, k: ApplicationState, value: string)
    returns (c': Cluster)
    requires Pair(c, own, v, copy) && 0 <= v < INT32_MAX
    ensures Goes(c, PublishStep(1, k, value), c')
    ensures Pair(c', WithValue(own, k, VersionedValue(v + 1, value)), v + 1, copy) && c.net <= c'.net
  {
    c' := Next(c, PublishStep(1, k, value));
  }

  lemma Restarting(c: Cluster, own: Content, v: int, copy: Option<Content>) returns (c': Cluster)
    requires Pair(c, own, v, copy) && own.hb.generation < INT32_MAX
    ensures Goes(c, NewGenerationStep(1), c')
    ensures Pair(c', WithGeneration(own, own.hb.generation + 1), v, copy) && c.net <= c'.net
  {
    c' := Next(c, NewGenerationStep(1));
  }

  // ----------------------------------------------------------- one exchange

  function TheSyn(d: Digest): Message {
    SynMsg(1, 2, Syn("c", PARTITIONER, [d]))
  }

  function TheAck(q: Digest): Message {
    AckMsg(2, 1, Ack([q], map[]))
  }

  function TheAck2(x: Content): Message {
    Ack2Msg(2, map[1 := x])
  }

  lemma Announcing(c: Cluster, own: Content, v: int, copy: Option<Content>) returns (c': Cluster)
    requires Pair(c, own, v, copy)
    ensures Goes(c, SendSynStep(1, 2, [1]), c') && Pair(c', own, v, copy)
    ensures c.net <= c'.net && TheSyn(Digest(1, own.hb.generation, MaxVersion(own))) in c'.net
  {
    var s := SendSynStep(1, 2, [1]);
    assert Enumerates([1], c.nodes[1].states.Keys);
    c' := Next(c, s);
    assert MakeDigests(c.nodes[1].states, [1]) == [DigestOf(c.nodes[1].states, 1)];
  }

  lemma SingleIsExamined(states: StateMap, d: Digest)
    ensures IsExaminedList(states, [d], [d])
  {
    assert FirstsOf([d], [d], [d]) && Descending(states, [d]);
  }

  lemma SingleExamined(states: StateMap, d: Digest)
    requires ExamineOne(states, d).Request?
    ensures Examine(states, [d]) == Ack([ExamineOne(states, d).digest], map[])
  {
    assert [d][..|[d]|-1] == [];
    assert Examine(states, []) == Ack([], map[]);
    assert [] + [ExamineOne(states, d).digest] == [ExamineOne(states, d).digest];
  }

  lemma Asking(c: Cluster, own: Content, v: int, copy: Option<Content>, d: Digest) returns (c': Cluster)
    requires Pair(c, own, v, copy) && TheSyn(d) in c.net && ExamineOne(c.nodes[2].states, d).Request?
    ensures Goes(c, DeliverSynStep(TheSyn(d), [d]), c') && Pair(c', own, v, copy)
    ensures c.net <= c'.net && TheAck(ExamineOne(c.nodes[2].states, d).digest) in c'.net
  {
    SingleIsExamined(c.nodes[2].states, d);
    SingleExamined(c.nodes[2].states, d);
    hide IsExaminedList, Examine, ExamineOne;
    c' := Next(c, DeliverSynStep(TheSyn(d), [d]));
  }

  lemma SingleReply(states: StateMap, q: Digest, x: Content)
    requires q.ep in states && Delta(states[q.ep].content, q.maxVersion) == Some(x)
    ensures Replies(states, [q]) == map[q.ep := x]
  {
    assert [q][..|[q]|-1] == [];
    assert Replies(states, []) == map[];
  }

  lemma NothingHeard(n: Node, now: int)
    ensures ApplyMessage(n, map[], [], now) == n
  {
    assert NotifyFailureDetector(n, map[], now).states == n.states;
  }

  lemma Answering(c: Cluster, own: Content, v: int, copy: Option<Content>, q: Digest, x: Content) returns (c': Cluster)
    requires Pair(c, own, v, copy) && TheAck(q) in c.net && q.ep == 1 && Delta(own, q.maxVersion) == Some(x)
    ensures Goes(c, DeliverAckStep(TheAck(q), [], 0), c') && Pair(c', own, v, copy)
    ensures c.net <= c'.net && TheAck2(x) in c'.net
  {
    NothingHeard(c.nodes[1], 0);
    SingleReply(c.nodes[1].states, q, x);
    hide ApplyMessage, Replies, Delta;
    var s := DeliverAckStep(TheAck(q), [], 0);
    var none: ContentMap := map[];
    assert Enumerates([], none.Keys);
    c' := Next(c, s);
  }

  lemma HearingOne(n: Node, x: Content)
    requires IsAwake(n, 2)
    ensures var m: ContentMap := map[1 := x];
      var n' := ApplyMessage(n, m, [1], 0);
      IsAwake(n', 2) && ContentAt(n', 1) == Some(Learn(false, ContentAt(n, 1), x))
  {
    hide Learn, ApplyMessage;
    var m: ContentMap := map[1 := x];
    assert Enumerates([1], m.Keys);
    ApplyMessageEffect(n, m, [1], 0);
    assert ContentAt(ApplyMessage(n, m, [1], 0), 1) == Heard(n, m, 1);
  }

  lemma Taking(c: Cluster, own: Content, v: int, copy: Option<Content>, x: Content) returns (c': Cluster)
    requires Pair(c, own, v, copy) && TheAck2(x) in c.net
    ensures Goes(c, DeliverAck2Step(TheAck2(x), [1], 0), c')
    ensures Pair(c', own, v, Some(Learn(false, copy, x))) && c.net <= c'.net
  {
    hide Learn;
    var m: ContentMap := map[1 := x];
    assert Enumerates([1], m.Keys);
    HearingOne(c.nodes[2], x);
    hide ApplyMessage, Enumerates;
    c' := Next(c, DeliverAck2Step(TheAck2(x), [1], 0));
  }

  /** What node 2 asks for when node 1 is ahead of its copy. */
  ghost function Wanted(own: Content, copy: Option<Content>): Digest {
    Digest(1, own.hb.generation,
           if copy.Some? && copy.value.hb.generation == own.hb.generation then MaxVersion(copy.value) else 0)
  }

  lemma WantedIsRequested(states: StateMap, own: Content)
    requires 1 in states ==>
      Leq(KeyOf(states[1].content), KeyOf(own)) && KeyOf(states[1].content) != KeyOf(own)
    ensures ExamineOne(states, Digest(1, own.hb.generation, MaxVersion(own))) ==
            Request(Wanted(own, if 1 in states then Some(states[1].content) else None))
  {
  }

  // ------------------------------------------------------------- whole runs

  /** Steps of the run with a restart announce no shutdown, and the other way round. */
  predicate Allowed(restarts: bool, s: Step) {
    if restarts then NoShutdown(s) else !s.NewGenerationStep?
  }

  /** A run in which node 1 never says x. */
  ghost predicate IsTrail(cs: seq<Cluster>, steps: seq<Step>, restarts: bool, x: Content) {
    && IsRun(cs, steps)
    && (forall i | 0 <= i < |steps| :: Allowed(restarts, steps[i]))
    && (forall j | 0 <= j < |cs| :: !HadState(cs[j], 1, x))
  }

  lemma ExtendRun(cs: seq<Cluster>, steps: seq<Step>, s: Step, c': Cluster)
    requires IsRun(cs, steps) && Goes(cs[|steps|], s, c')
    ensures IsRun(cs + [c'], steps + [s])
  {
    hide Enabled, Next, Init;
    var ds, ts := cs + [c'], steps + [s];
    forall i | 0 <= i < |ts| ensures Enabled(ds[i], ts[i]) && Actor(ts[i]) in ds[i].hist && ds[i+1] == Next(ds[i], ts[i]) {
      if i < |steps| {
        assert ds[i] == cs[i] && ds[i+1] == cs[i+1] && ts[i] == steps[i];
      }
    }
  }

  lemma ExtendTrail(cs: seq<Cluster>, steps: seq<Step>, restarts: bool, x: Content,
                    s: Step, c': Cluster, own: Content, v: int, copy: Option<Content>)
    requires IsTrail(cs, steps, restarts, x) && |cs| == |steps| + 1 && Goes(cs[|steps|], s, c')
    requires Allowed(restarts, s) && Pair(c', own, v, copy) && own != x
    ensures IsTrail(cs + [c'], steps + [s], restarts, x)
  {
    hide Enabled, Next, Init, IsRun;
    ExtendRun(cs, steps, s, c');
    NotSaid(c', own, v, copy, x);
    hide HadState, Pair;
    var ds, ts := cs + [c'], steps + [s];
    assert forall i | 0 <= i < |ts| :: Allowed(restarts, ts[i]);
  }

  lemma NotSaid(c: Cluster, own: Content, v: int, copy: Option<Content>, x: Content)
    requires Pair(c, own, v, copy) && x != own
    ensures !HadState(c, 1, x)
  {
  }

  /** The run so far and where it stands; every further step extends it. */
  datatype Trail = Trail(cs: seq<Cluster>, steps: seq<Step>, own: Content, v: int, copy: Option<Content>)

  ghost predicate Stands(t: Trail, restarts: bool, x: Content) {
    && IsTrail(t.cs, t.steps, restarts, x) && |t.cs| == |t.steps| + 1
    && Pair(t.cs[|t.steps|], t.own, t.v, t.copy) && t.own != x && 0 <= t.v < INT32_MAX
  }

  function Last(t: Trail): Cluster
    requires |t.cs| == |t.steps| + 1
  {
    t.cs[|t.steps|]
  }

  lemma Onward(t: Trail, restarts: bool, x: Content, s: Step, c': Cluster, own: Content, v: int, copy: Option<Content>)
    returns (t': Trail)
    requires Stands(t, restarts, x) && Goes(Last(t), s, c') && Allowed(restarts, s)
    requires Pair(c', own, v, copy) && own != x && 0 <= v < INT32_MAX
    ensures Stands(t', restarts, x) && t'.own == own && t'.v == v && t'.copy == copy && Last(t') == c'
  {
    hide IsTrail, Goes, Pair;
    t' := Trail(t.cs + [c'], t.steps + [s], own, v, copy);
    ExtendTrail(t.cs, t.steps, restarts, x, s, c', own, v, copy);
  }

  lemma Begin(restarts: bool, x: Content) returns (t: Trail)
    requires x != FIRST
    ensures Stands(t, restarts, x) && t.own == FIRST && t.v == 0 && t.copy == None
  {
    StartIsInit();
    t := Trail([START], [], FIRST, 0, None);
  }

  lemma Publish2(t: Trail, restarts: bool, x: Content, k: ApplicationState, value: string) returns (t': Trail)
    requires Stands(t, restarts, x) && t.v + 1 < INT32_MAX
    requires Allowed(restarts, PublishStep(1, k, value)) && WithValue(t.own, k, VersionedValue(t.v + 1, value)) != x
    ensures Stands(t', restarts, x) && t'.own == WithValue(t.own, k, VersionedValue(t.v + 1, value))
    ensures t'.v == t.v + 1 && t'.copy == t.copy
  {
    hide IsTrail, Goes, Pair;
    var c' := Publishing(Last(t), t.own, t.v, t.copy, k, value);
    t' := Onward(t, restarts, x, PublishStep(1, k, value), c',
                 WithValue(t.own, k, VersionedValue(t.v + 1, value)), t.v + 1, t.copy);
  }

  /** SYN from node 1 and its delivery at node 2. */
  lemma Request2(t: Trail, restarts: bool, x: Content) returns (t': Trail)
    requires Stands(t, restarts, x)
    requires t.copy.Some? ==> Leq(KeyOf(t.copy.value), KeyOf(t.own)) && KeyOf(t.copy.value) != KeyOf(t.own)
    ensures Stands(t', restarts, x) && t'.own == t.own && t'.v == t.v && t'.copy == t.copy
    ensures TheAck(Wanted(t.own, t.copy)) in Last(t').net
  {
    hide IsTrail, Goes, ExamineOne, KeyOf, Leq;
    var d := Digest(1, t.own.hb.generation, MaxVersion(t.own));
    var c1 := Announcing(Last(t), t.own, t.v, t.copy);
    WantedIsRequested(c1.nodes[2].states, t.own);
    var c2 := Asking(c1, t.own, t.v, t.copy, d);
    hide Pair;
    var t1 := Onward(t, restarts, x, SendSynStep(1, 2, [1]), c1, t.own, t.v, t.copy);
    t' := Onward(t1, restarts, x, DeliverSynStep(TheSyn(d), [d]), c2, t.own, t.v, t.copy);
  }

  lemma Restart2(t: Trail, x: Content) returns (t': Trail)
    requires Stands(t, true, x) && t.own.hb.generation < INT32_MAX && WithGeneration(t.own, t.own.hb.generation + 1) != x
    ensures Stands(t', true, x) && t'.own == WithGeneration(t.own, t.own.hb.generation + 1)
    ensures t'.v == t.v && t'.copy == t.copy && Last(t).net <= Last(t').net
  {
    hide IsTrail, Goes, Pair;
    var c' := Restarting(Last(t), t.own, t.v, t.copy);
    t' := Onward(t, true, x, NewGenerationStep(1), c', WithGeneration(t.own, t.own.hb.generation + 1), t.v, t.copy);
  }

  /** Delivery of a request at node 1 and of its answer y at node 2. */
  lemma Answer2(t: Trail, restarts: bool, x: Content, q: Digest, y: Content) returns (t': Trail)
    requires Stands(t, restarts, x)
    requires TheAck(q) in Last(t).net && q.ep == 1 && Delta(t.own, q.maxVersion) == Some(y)
    ensures Stands(t', restarts, x) && t'.own == t.own && t'.v == t.v && t'.copy == Some(Learn(false, t.copy, y))
  {
    hide IsTrail, Goes, Pair, Delta, Learn;
    var c1 := Answering(Last(t), t.own, t.v, t.copy, q, y);
    var c2 := Taking(c1, t.own, t.v, t.copy, y);
    var t1 := Onward(t, restarts, x, DeliverAckStep(TheAck(q), [], 0), c1, t.own, t.v, t.copy);
    t' := Onward(t1, restarts, x, DeliverAck2Step(TheAck2(y), [1], 0), c2, t.own, t.v, Some(Learn(false, t.copy, y)));
  }

  /** At the end of the run node 1 says `own` and node 2 stores x of it. */
  ghost predicate Ends(cs: seq<Cluster>, own: Content, x: Content) {
    && cs != []
    && var last := cs[|cs|-1];
       HadState(last, 1, own) && 2 in last.nodes && ContentAt(last.nodes[2], 1) == Some(x)
  }

  lemma TrailEnds(t: Trail, restarts: bool, x: Content)
    requires Stands(t, restarts, x) && t.copy == Some(x)
    ensures IsTrail(t.cs, t.steps, restarts, x) && Ends(t.cs, t.own, x)
  {
    hide IsTrail;
  }

  const ANNOUNCED: Content := WithValue(FIRST, STATUS, VersionedValue(1, "shutdown,true"))

  lemma ShutdownText()
    ensures FirstPiece("shutdown,true") == SHUTDOWN
  {
    hide FirstPiece;
    var text := "shutdown,true";
    assert text[..8] == SHUTDOWN && text[8] == ',';
    FirstPieceExact(text, SHUTDOWN);
  }

  lemma AnnouncedFacts()
    ensures IsShutdownState(ANNOUNCED) && MaxVersion(FIRST) == 0 && MaxVersion(ANNOUNCED) == 1
    ensures Delta(ANNOUNCED, 0) == Some(ANNOUNCED) && MaxVersion(Forced(ANNOUNCED)) == INT32_MAX
  {
    hide FirstPiece;
    ShutdownText();
    MaxVersionUnique(FIRST, 0);
    assert ANNOUNCED.apps[STATUS].version == 1;
    MaxVersionUnique(ANNOUNCED, 1);
    MaxVersionUnique(Forced(ANNOUNCED), INT32_MAX);
    hide IsShutdownState, MaxVersion;
    DeltaFromZero(ANNOUNCED);
  }

  /**
   Announcing a shutdown tears copies: the first node to hear of it stores a heartbeat version the
   owner never had, ahead of everything the owner says in this generation.
   */
  lemma ShutdownTearsCopy() returns (cs: seq<Cluster>, steps: seq<Step>)
    ensures IsRun(cs, steps) && forall i | 0 <= i < |steps| :: !steps[i].NewGenerationStep?
    ensures forall j | 0 <= j < |cs| :: !HadState(cs[j], 1, Forced(ANNOUNCED))
    ensures Ends(cs, ANNOUNCED, Forced(ANNOUNCED))
    ensures KeyOf(ANNOUNCED) == Key(1, 1) && KeyOf(Forced(ANNOUNCED)) == Key(1, INT32_MAX)
  {
    AnnouncedFacts();
    hide Stands, IsRun, Delta, IsShutdownState, HadState, Ends, MaxVersion;
    var x := Forced(ANNOUNCED);
    var t := Begin(false, x);
    t := Publish2(t, false, x, STATUS, "shutdown,true");
    t := Request2(t, false, x);
    t := Answer2(t, false, x, Wanted(ANNOUNCED, None), ANNOUNCED);
    TrailEnds(t, false, x);
    cs, steps := t.cs, t.steps;
  }

  /** Nothing said about that generation replaces the forced version. */
  lemma ForcedVersionStays(shadow: bool, c: Content, remote: Content)
    requires remote.hb.generation <= c.hb.generation
    ensures Learn(shadow, Some(Forced(c)), remote) == Forced(c)
  {
    MaxVersionUnique(Forced(c), INT32_MAX);
  }

  const COPY: Content := WithValue(FIRST, DC, VersionedValue(1, "dc1"))
  const ASKED: Content := WithValue(COPY, RACK, VersionedValue(2, "r1"))
  const BUMPED: Content := WithGeneration(ASKED, 2)
  const TORN: Content := Content(HeartBeat(2, 0), map[RACK := VersionedValue(2, "r1")])

  lemma TearVersions()
    ensures MaxVersion(FIRST) == 0 && MaxVersion(COPY) == 1
    ensures MaxVersion(ASKED) == MaxVersion(BUMPED) == MaxVersion(TORN) == 2
  {
    MaxVersionUnique(FIRST, 0);
    assert COPY.apps[DC].version == 1;
    MaxVersionUnique(COPY, 1);
    assert ASKED.apps[RACK].version == 2;
    MaxVersionUnique(ASKED, 2);
    assert BUMPED.apps[RACK].version == 2;
    MaxVersionUnique(BUMPED, 2);
    assert TORN.apps[RACK].version == 2;
    MaxVersionUnique(TORN, 2);
  }

  lemma TearCuts()
    ensures Delta(COPY, 0) == Some(COPY) && Delta(BUMPED, 1) == Some(TORN)
    ensures Learn(false, None, COPY) == COPY && Learn(false, Some(COPY), TORN) == TORN
    ensures TORN !in [FIRST, COPY, ASKED, BUMPED]
  {
    TearVersions();
    DeltaFromZero(COPY);
    assert AppsAbove(BUMPED.apps, 1) == TORN.apps;
    assert RACK in TORN.apps && BUMPED.hb == TORN.hb;
    assert DC !in TORN.apps && DC in BUMPED.apps;
  }

  /**
   A generation change tears copies.  Node 2 knows DC and asks for what is above version 1; before
   the request arrives node 1 moves to a newer generation.  The answer makes node 2 drop DC: it
   stores a state node 1 never had, under the digest node 1 itself announces.
   */
  lemma GenerationChangeTearsCopy() returns (cs: seq<Cluster>, steps: seq<Step>)
    ensures IsRun(cs, steps) && forall i | 0 <= i < |steps| :: NoShutdown(steps[i])
    ensures forall j | 0 <= j < |cs| :: !HadState(cs[j], 1, TORN)
    ensures Ends(cs, BUMPED, TORN) && KeyOf(BUMPED) == KeyOf(TORN) && HasLost(TORN, DC, 2, 1)
  {
    TearVersions();
    TearCuts();
    hide Stands, IsRun, Delta, HadState, Learn, Ends, MaxVersion;
    var t := Begin(true, TORN);
    t := Publish2(t, true, TORN, DC, "dc1");
    t := Request2(t, true, TORN);
    t := Answer2(t, true, TORN, Wanted(COPY, None), COPY);
    t := Publish2(t, true, TORN, RACK, "r1");
    t := Request2(t, true, TORN);
    t := Restart2(t, TORN);
    t := Answer2(t, true, TORN, Wanted(ASKED, Some(COPY)), TORN);
    TrailEnds(t, true, TORN);
    cs, steps := t.cs, t.steps;
  }

  // ---------------------------------------------------- why it stays that way

  /** y, of generation g, lacks the value of k although it claims everything up to version w. */
  ghost predicate HasLost(y: Content, k: ApplicationState, g: int, w: int) {
    k !in y.apps && y.hb.generation == g && MaxVersion(y) >= w
  }

  /** What a node with copy y stores after an exchange with the owner, who says s. */
  ghost function Exchanged(y: Content, s: Content): Content {
    match ExamineOne(map[1 := EndpointState(y, 0, true)], Digest(1, s.hb.generation, MaxVersion(s)))
    case Request(q) =>
      (match Delta(s, q.maxVersion) case None => y case Some(x) => Learn(false, Some(y), x))
    case _ => y
  }

  lemma MergeStaysLost(y: Content, x: Content, k: ApplicationState, g: int, w: int)
    requires HasLost(y, k, g, w) && k !in x.apps && x.hb.generation == g && MaxVersion(x) >= MaxVersion(y)
    ensures HasLost(Merge(y, x), k, g, w)
  {
    var z := Merge(y, x);
    if MaxVersion(x) != x.hb.version {
      var j :| j in x.apps && x.apps[j].version == MaxVersion(x);
      assert z.apps[j].version == MaxVersion(x);
    }
  }

  /** When the owner has something newer, the exchange lays the cut above the copy's version over the copy. */
  lemma ExchangeMerges(y: Content, s: Content)
    requires s.hb.generation == y.hb.generation
    ensures MaxVersion(s) <= MaxVersion(y) ==> Exchanged(y, s) == y
    ensures MaxVersion(s) > MaxVersion(y) ==>
      Delta(s, MaxVersion(y)).Some? && Exchanged(y, s) == Merge(y, Delta(s, MaxVersion(y)).value)
  {
    DeltaKey(s, MaxVersion(y));
    hide Delta, MaxVersion;
    ExamineAlone(y, s);
    hide ExamineOne;
  }

  lemma ExamineAlone(y: Content, s: Content)
    requires s.hb.generation == y.hb.generation
    ensures var r := ExamineOne(map[1 := EndpointState(y, 0, true)], Digest(1, s.hb.generation, MaxVersion(s)));
      if MaxVersion(s) > MaxVersion(y) then r == Request(Digest(1, s.hb.generation, MaxVersion(y))) else !r.Request?
  {
    hide MaxVersion;
  }

  lemma ExchangeStaysLost(y: Content, s: Content, k: ApplicationState, g: int, w: int)
    requires HasLost(y, k, g, w)
    requires s.hb.generation == g && k in s.apps && s.apps[k].version <= w
    ensures HasLost(Exchanged(y, s), k, g, w)
  {
    hide Exchanged;
    ExchangeMerges(y, s);
    if MaxVersion(s) > MaxVersion(y) {
      var x := Delta(s, MaxVersion(y)).value;
      DeltaKey(s, MaxVersion(y));
      assert k !in x.apps;
      MergeStaysLost(y, x, k, g, w);
    }
  }

  /** A lost value stays lost through every later exchange, until the owner publishes it again. */
  lemma {:induction false} LostStaysLost(copies: seq<Content>, owners: seq<Content>, k: ApplicationState, g: int, w: int)
    requires |copies| == |owners| + 1 && HasLost(copies[0], k, g, w)
    requires forall i | 0 <= i < |owners| ::
      owners[i].hb.generation == g && k in owners[i].apps && owners[i].apps[k].version <= w
    requires forall i | 0 <= i < |owners| :: copies[i+1] == Exchanged(copies[i], owners[i])
    ensures HasLost(copies[|owners|], k, g, w)
    decreases |owners|
  {
    hide HasLost, Exchanged;
    if |owners| > 0 {
      var j := |owners| - 1;
      LostStaysLost(copies[..|owners|], owners[..j], k, g, w);
      ExchangeStaysLost(copies[j], owners[j], k, g, w);
    }
  }
}
