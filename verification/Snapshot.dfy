/**
 The gossip protocol as a distributed system: a cluster of nodes and the set of all
 messages ever sent.  A message may be delivered never, once or many times, at any
 later moment and in any order, which covers loss, duplication, delay and reordering.

 The snapshot theorem: whatever is delivered, every copy a node stores of another
 node's state is a state that node really had.
 */
module Snapshots {
  import opened Wrappers
  import opened EndpointStates
  import opened GossipNodes

  datatype Message =
    | SynMsg(from: Endpoint, to: Endpoint, syn: Syn)
    | AckMsg(from: Endpoint, to: Endpoint, ack: Ack)
    | Ack2Msg(to: Endpoint, states: ContentMap)

  /** `hist[e]` records every state node e ever published about itself, oldest first. */
  datatype Cluster = Cluster(nodes: map<Endpoint, Node>, net: set<Message>, hist: map<Endpoint, seq<Content>>)

  datatype Step =
    | BeatStep(n: Endpoint, now: int)
    | DrawStep(n: Endpoint)
    | PublishStep(n: Endpoint, k: ApplicationState, value: string)
    | NewGenerationStep(n: Endpoint)
    | SendSynStep(n: Endpoint, to: Endpoint, order: seq<Endpoint>)
    | DeliverSynStep(msg: Message, list: seq<Digest>)
    | DeliverAckStep(msg: Message, order: seq<Endpoint>, now: int)
    | DeliverAck2Step(msg: Message, order: seq<Endpoint>, now: int)
    | HearPartStep(msg: Message, part: seq<Endpoint>, now: int)
    | ReplyStep(msg: Message)
    | EchoStep(n: Endpoint, ep: Endpoint, answered: bool, now: int)
    | ConvictStep(n: Endpoint, ep: Endpoint, now: int)
    | RemoveStep(n: Endpoint, ep: Endpoint, now: int)
    | CheckStep(n: Endpoint, order: seq<Endpoint>, convicted: set<Endpoint>, members: set<Endpoint>, now: int)
    | PopStep(n: Endpoint)

  // -------------------------------------------------------------- transitions

  function Own(c: Cluster, n: Endpoint): Content
    requires n in c.nodes && n in c.nodes[n].states
  {
    c.nodes[n].states[n].content
  }

  function Actor(s: Step): Endpoint {
    match s
    case DeliverSynStep(msg, _) => msg.to
    case DeliverAckStep(msg, _, _) => msg.to
    case DeliverAck2Step(msg, _, _) => msg.to
    case HearPartStep(msg, _, _) => msg.to
    case ReplyStep(msg) => msg.to
    case _ => s.n
  }

  function StatesOf(m: Message): ContentMap {
    match m
    case SynMsg(_, _, _) => map[]
    case AckMsg(_, _, ack) => ack.states
    case Ack2Msg(_, states) => states
  }

  /**
   Which steps the code can take; the INT32_MAX bounds are where the source's counters would
   overflow.  A handler that waits for an echo is a HearPartStep for the entries up to the wait,
   one for those after it, and a ReplyStep at its end.  A status check is here if it forgets nobody.
   */
  ghost predicate Enabled(c: Cluster, s: Step) {
    && Actor(s) in c.nodes
    && var node := c.nodes[Actor(s)];
    match s
    case BeatStep(_, _) => node.version < INT32_MAX
    case DrawStep(_) => node.version < INT32_MAX
    case PublishStep(n, _, _) => node.version < INT32_MAX && node.self in node.states
    case NewGenerationStep(n) => n in node.states && node.states[n].content.hb.generation < INT32_MAX
    case SendSynStep(_, to, order) => to in c.nodes && (order == [] || Enumerates(order, node.states.Keys))
    case DeliverSynStep(msg, list) =>
      msg in c.net && msg.SynMsg? && IsExaminedList(node.states, msg.syn.digests, list)
    case DeliverAckStep(msg, order, _) => msg in c.net && msg.AckMsg? && Enumerates(order, msg.ack.states.Keys)
    case DeliverAck2Step(msg, order, _) => msg in c.net && msg.Ack2Msg? && Enumerates(order, msg.states.Keys)
    case HearPartStep(msg, part, _) =>
      msg in c.net && node.enabled && Distinct(part) && forall e | e in part :: e in StatesOf(msg)
    case ReplyStep(msg) => msg in c.net && msg.AckMsg? && node.enabled
    case CheckStep(_, order, convicted, members, now) =>
      Enumerates(order, node.states.Keys) && StatusCheck(node, order, convicted, members, now).states.Keys == node.states.Keys
    case _ => true
  }

  /** The acting node after the step, and what it sends. */
  ghost function Act(c: Cluster, s: Step): (Node, set<Message>)
    requires Enabled(c, s)
  {
    var node := c.nodes[Actor(s)];
    match s
    case BeatStep(_, now) => (Beat(node, now), {})
    case DrawStep(_) => (DrawVersion(node), {})
    case PublishStep(n, k, value) => (AddLocalApplicationState(node, k, value), {})
    case NewGenerationStep(n) => (ForceNewerGeneration(node, n), {})
    case SendSynStep(n, to, order) =>
      (node, {SynMsg(n, to, Syn(node.clusterName, PARTITIONER, MakeDigests(node.states, order)))})
    case DeliverSynStep(msg, list) =>
      var answer := HandleSyn(node, msg.syn, list);
      (node, if answer.Some? then {AckMsg(msg.to, msg.from, answer.value)} else {})
    case DeliverAckStep(msg, order, now) =>
      var r := HandleAck(node, msg.ack, order, now);
      (r.0, if r.1.Some? then {Ack2Msg(msg.from, r.1.value)} else {})
    case DeliverAck2Step(msg, order, now) => (HandleAck2(node, msg.states, order, now), {})
    case HearPartStep(msg, part, now) => (ApplyAll(node, StatesOf(msg), part, now), {})
    case ReplyStep(msg) => (node, {Ack2Msg(msg.from, Replies(node.states, msg.ack.digests))})
    case CheckStep(_, order, convicted, members, now) => (StatusCheck(node, order, convicted, members, now), {})
    case EchoStep(_, ep, answered, now) => (EchoReply(node, ep, answered, now), {})
    case ConvictStep(_, ep, now) => (Convict(node, ep, now), {})
    case RemoveStep(_, ep, now) => (RemoveEndpoint(node, ep, now), {})
    case PopStep(_) => (PopJustAdded(node), {})
  }

  function Record(h: seq<Content>, c: Content): seq<Content> {
    if |h| > 0 && h[|h|-1] == c then h else h + [c]
  }

  /** Node n becomes `node` and sends `sent`; a new own state is recorded. */
  function Replace(c: Cluster, n: Endpoint, node: Node, sent: set<Message>): Cluster
    requires n in c.hist
  {
    Cluster(c.nodes[n := node], c.net + sent,
            if n in node.states then c.hist[n := Record(c.hist[n], node.states[n].content)] else c.hist)
  }

  ghost function Next(c: Cluster, s: Step): Cluster
    requires Enabled(c, s) && Actor(s) in c.hist
  {
    var r := Act(c, s);
    Replace(c, Actor(s), r.0, r.1)
  }

  ghost predicate IsFresh(n: Endpoint, node: Node) {
    && node.self == n && node.enabled && !node.inShadowRound && node.version >= 0
    && node.states.Keys == {n}
    && node.states[n].content.hb.version == 0 && node.states[n].content.apps == map[]
  }

  ghost predicate Init(c: Cluster) {
    && c.net == {}
    && c.hist.Keys == c.nodes.Keys
    && (forall n | n in c.nodes :: IsFresh(n, c.nodes[n]) && c.hist[n] == [Own(c, n)])
  }

  ghost predicate IsRun(cs: seq<Cluster>, steps: seq<Step>) {
    && |cs| == |steps| + 1
    && Init(cs[0])
    && (forall i | 0 <= i < |steps| ::
          && Enabled(cs[i], steps[i]) && Actor(steps[i]) in cs[i].hist
          && cs[i+1] == Next(cs[i], steps[i]))
  }

  /** The check handle_ack_msg does not make before answering a digest: is my copy still of that generation? */
  ghost predicate GenerationsMatch(c: Cluster, s: Step)
    requires Enabled(c, s)
  {
    s.DeliverAckStep? || s.ReplyStep? ==>
      forall d | d in s.msg.ack.digests && d.maxVersion != 0 && d.ep in Act(c, s).0.states ::
        Act(c, s).0.states[d.ep].content.hb.generation == d.generation
  }

  /** The owner does not announce its shutdown, which would make others force its version. */
  predicate NoShutdown(s: Step) {
    s.PublishStep? && s.k == STATUS ==> FirstPiece(s.value) != SHUTDOWN
  }

  ghost predicate IsSafe(c: Cluster, s: Step)
    requires Enabled(c, s)
  {
    GenerationsMatch(c, s) && NoShutdown(s)
  }

  /** A step of a safe run. */
  ghost predicate Leads(c: Cluster, s: Step, c': Cluster) {
    Enabled(c, s) && Actor(s) in c.hist && IsSafe(c, s) && c' == Next(c, s)
  }

  ghost predicate IsSafeRun(cs: seq<Cluster>, steps: seq<Step>) {
    IsRun(cs, steps) && forall i | 0 <= i < |steps| :: IsSafe(cs[i], steps[i])
  }

  // ---------------------------------------------------------------- invariant

  ghost predicate NeverShutDown(h: seq<Content>) {
    forall x | x in h :: !IsShutdownState(x)
  }

  ghost predicate NodeOk(c: Cluster, n: Endpoint)
    requires n in c.nodes && n in c.hist
  {
    var node := c.nodes[n];
    && node.self == n && node.enabled && !node.inShadowRound
    && n in node.states && node.version >= MaxVersion(node.states[n].content) && node.version >= 0
    && IsHistory(c.hist[n])
    && c.hist[n][|c.hist[n]|-1] == node.states[n].content
    && NeverShutDown(c.hist[n])
  }

  ghost predicate CopiesOk(c: Cluster, n: Endpoint)
    requires n in c.nodes
  {
    forall e | e in c.nodes[n].states ::
      && e in c.hist && c.nodes[n].states[e].content in c.hist[e]
      && (e != n ==> MaxVersion(c.nodes[n].states[e].content) >= 1)
  }

  /** Node n stores about e something at least as new as `key`. */
  ghost predicate Reached(c: Cluster, n: Endpoint, e: Endpoint, key: Key) {
    n in c.nodes && e in c.nodes[n].states && Leq(key, KeyOf(c.nodes[n].states[e].content))
  }

  ghost predicate DigestOk(c: Cluster, from: Endpoint, d: Digest) {
    && 0 <= d.maxVersion
    && Reached(c, from, d.ep, Key(d.generation, d.maxVersion))
    && d.ep in c.hist && exists s | s in c.hist[d.ep] :: s.hb.generation == d.generation
  }

  /** x is a cut of a state e had, from a floor that node `to` already covers. */
  ghost predicate CutOk(c: Cluster, to: Endpoint, e: Endpoint, x: Content, s: Content, v: int) {
    && e in c.hist && s in c.hist[e]
    && 0 <= v && Delta(s, v) == Some(x)
    && (v == 0 || Reached(c, to, e, Key(s.hb.generation, v)))
  }

  ghost predicate StatesOk(c: Cluster, to: Endpoint, m: ContentMap) {
    forall e | e in m :: e in c.hist && exists s, v :: CutOk(c, to, e, m[e], s, v)
  }

  ghost predicate MsgOk(c: Cluster, m: Message) {
    match m
    case SynMsg(from, to, syn) => forall d | d in syn.digests :: DigestOk(c, from, d)
    case AckMsg(from, to, ack) =>
      (forall d | d in ack.digests :: d.maxVersion == 0 || DigestOk(c, from, d)) && StatesOk(c, to, ack.states)
    case Ack2Msg(to, states) => StatesOk(c, to, states)
  }

  ghost predicate Inv(c: Cluster) {
    && c.hist.Keys == c.nodes.Keys
    && (forall n | n in c.nodes :: NodeOk(c, n) && CopiesOk(c, n))
    && (forall m | m in c.net :: MsgOk(c, m))
  }

  // ------------------------------------------------------ knowledge only grows

  ghost predicate KnowsMore(node: Node, node': Node) {
    forall e | e in node.states ::
      e in node'.states && Leq(KeyOf(node.states[e].content), KeyOf(node'.states[e].content))
  }

  ghost predicate Grows(c: Cluster, c': Cluster) {
    && c.nodes.Keys == c'.nodes.Keys && c.hist.Keys == c'.hist.Keys
    && (forall e | e in c.hist :: c.hist[e] <= c'.hist[e])
    && (forall n | n in c.nodes :: KnowsMore(c.nodes[n], c'.nodes[n]))
  }

  lemma GrownHistory(c: Cluster, c': Cluster, e: Endpoint, x: Content)
    requires Grows(c, c') && e in c.hist && x in c.hist[e]
    ensures x in c'.hist[e]
  {
    var i :| 0 <= i < |c.hist[e]| && c.hist[e][i] == x;
    assert c'.hist[e][i] == x;
  }

  lemma ReachedStable(c: Cluster, c': Cluster, n: Endpoint, e: Endpoint, key: Key)
    requires Grows(c, c') && Reached(c, n, e, key)
    ensures Reached(c', n, e, key)
  {
  }

  lemma DigestStable(c: Cluster, c': Cluster, from: Endpoint, d: Digest)
    requires Grows(c, c') && DigestOk(c, from, d)
    ensures DigestOk(c', from, d)
  {
    var s :| s in c.hist[d.ep] && s.hb.generation == d.generation;
    GrownHistory(c, c', d.ep, s);
    ReachedStable(c, c', from, d.ep, Key(d.generation, d.maxVersion));
  }

  lemma StatesStable(c: Cluster, c': Cluster, to: Endpoint, m: ContentMap)
    requires Grows(c, c') && StatesOk(c, to, m)
    ensures StatesOk(c', to, m)
  {
    forall e | e in m ensures e in c'.hist && exists s, v :: CutOk(c', to, e, m[e], s, v) {
      var s, v :| CutOk(c, to, e, m[e], s, v);
      GrownHistory(c, c', e, s);
      if v != 0 {
        ReachedStable(c, c', to, e, Key(s.hb.generation, v));
      }
      assert CutOk(c', to, e, m[e], s, v);
    }
  }

  lemma MsgStable(c: Cluster, c': Cluster, m: Message)
    requires Grows(c, c') && MsgOk(c, m)
    ensures MsgOk(c', m)
  {
    match m
    case SynMsg(from, to, syn) =>
      forall d | d in syn.digests ensures DigestOk(c', from, d) { DigestStable(c, c', from, d); }
    case AckMsg(from, to, ack) =>
      forall d | d in ack.digests && d.maxVersion != 0 ensures DigestOk(c', from, d) { DigestStable(c, c', from, d); }
      StatesStable(c, c', to, ack.states);
    case Ack2Msg(to, states) => StatesStable(c, c', to, states);
  }

  /** What a step must guarantee about its acting node for the invariant to survive. */
  ghost predicate GoodChange(c: Cluster, n: Endpoint, node: Node)
    requires n in c.nodes && n in c.hist
    requires NodeOk(c, n)
  {
    && node.self == n && node.enabled && !node.inShadowRound
    && n in node.states && node.version >= MaxVersion(node.states[n].content) && node.version >= 0
    && (node.states[n].content == Own(c, n)
        || (OwnerStep(Own(c, n), node.states[n].content) && Positive(node.states[n].content)))
    && !IsShutdownState(node.states[n].content)
    && KnowsMore(c.nodes[n], node)
    && (forall e | e in node.states && e != n ::
          e in c.hist && node.states[e].content in c.hist[e] && MaxVersion(node.states[e].content) >= 1)
  }

  lemma RecordExtends(h: seq<Content>, x: Content)
    requires IsHistory(h) && NeverShutDown(h) && !IsShutdownState(x)
    requires x == h[|h|-1] || (OwnerStep(h[|h|-1], x) && Positive(x))
    ensures IsHistory(Record(h, x)) && NeverShutDown(Record(h, x)) && h <= Record(h, x)
    ensures Record(h, x)[|Record(h, x)|-1] == x
  {
  }

  /** Only the acting node's history may grow. */
  lemma ReplaceHistory(c: Cluster, n: Endpoint, node: Node, sent: set<Message>)
    requires n in c.nodes && n in c.hist && NodeOk(c, n) && GoodChange(c, n, node)
    ensures var c' := Replace(c, n, node, sent);
      && c'.hist.Keys == c.hist.Keys && (forall e | e in c.hist :: c.hist[e] <= c'.hist[e])
      && IsHistory(c'.hist[n]) && NeverShutDown(c'.hist[n])
      && c'.hist[n][|c'.hist[n]|-1] == node.states[n].content
  {
    hide IsHistory, OwnerStep, Positive, NeverShutDown, KnowsMore, IsShutdownState;
    RecordExtends(c.hist[n], node.states[n].content);
  }

  lemma ReplaceGrows(c: Cluster, n: Endpoint, node: Node, sent: set<Message>)
    requires Inv(c) && n in c.nodes && GoodChange(c, n, node)
    ensures Grows(c, Replace(c, n, node, sent))
    ensures NodeOk(Replace(c, n, node, sent), n)
  {
    hide IsHistory, OwnerStep, Positive, NeverShutDown, CopiesOk, MsgOk, KeyOf, IsShutdownState;
    assert NodeOk(c, n);
    ReplaceHistory(c, n, node, sent);
    hide Replace, Record;
    ReplaceNodes(c, n, node, sent);
  }

  lemma ReplaceNodes(c: Cluster, n: Endpoint, node: Node, sent: set<Message>)
    requires n in c.nodes && n in c.hist && KnowsMore(c.nodes[n], node)
    ensures var c' := Replace(c, n, node, sent);
      && c'.nodes.Keys == c.nodes.Keys && c'.nodes[n] == node
      && (forall p | p in c.nodes && p != n :: c'.nodes[p] == c.nodes[p])
      && (forall p | p in c.nodes :: KnowsMore(c.nodes[p], c'.nodes[p]))
  {
    hide KeyOf;
  }

  lemma OtherNodesKept(c: Cluster, n: Endpoint, node: Node, sent: set<Message>, p: Endpoint)
    requires Inv(c) && n in c.nodes && GoodChange(c, n, node) && p in c.nodes && p != n
    ensures var c' := Replace(c, n, node, sent); p in c'.hist && NodeOk(c', p) && CopiesOk(c', p)
  {
    hide IsHistory, OwnerStep, Positive, NeverShutDown, MsgOk, KeyOf, IsShutdownState;
    var c' := Replace(c, n, node, sent);
    ReplaceGrows(c, n, node, sent);
    assert NodeOk(c, p) && CopiesOk(c, p);
    assert c'.hist[p] == c.hist[p] && c'.nodes[p] == c.nodes[p];
    hide GoodChange, Replace, NodeOk;
    forall e | e in c.nodes[p].states ensures e in c'.hist && c.nodes[p].states[e].content in c'.hist[e] {
      GrownHistory(c, c', e, c.nodes[p].states[e].content);
    }
  }

  lemma ActingNodeKept(c: Cluster, n: Endpoint, node: Node, sent: set<Message>)
    requires Inv(c) && n in c.nodes && GoodChange(c, n, node)
    ensures var c' := Replace(c, n, node, sent); n in c'.hist && NodeOk(c', n) && CopiesOk(c', n)
  {
    var c' := Replace(c, n, node, sent);
    ReplaceGrows(c, n, node, sent);
    var h := c'.hist[n];
    assert h[|h|-1] == node.states[n].content;
    forall e | e in node.states ensures e in c'.hist && node.states[e].content in c'.hist[e] {
      if e != n {
        GrownHistory(c, c', e, node.states[e].content);
      }
    }
  }

  lemma ReplaceCopies(c: Cluster, n: Endpoint, node: Node, sent: set<Message>)
    requires Inv(c) && n in c.nodes && GoodChange(c, n, node)
    ensures var c' := Replace(c, n, node, sent);
            forall p | p in c'.nodes :: p in c'.hist && NodeOk(c', p) && CopiesOk(c', p)
  {
    var c' := Replace(c, n, node, sent);
    forall p | p in c'.nodes ensures p in c'.hist && NodeOk(c', p) && CopiesOk(c', p) {
      if p == n {
        ActingNodeKept(c, n, node, sent);
      } else {
        OtherNodesKept(c, n, node, sent, p);
      }
    }
  }

  lemma ReplaceKeepsInv(c: Cluster, n: Endpoint, node: Node, sent: set<Message>)
    requires Inv(c) && n in c.nodes && GoodChange(c, n, node)
    requires forall m | m in sent :: MsgOk(Replace(c, n, node, sent), m)
    ensures Inv(Replace(c, n, node, sent))
  {
    var c' := Replace(c, n, node, sent);
    ReplaceGrows(c, n, node, sent);
    ReplaceCopies(c, n, node, sent);
    forall m | m in c'.net ensures MsgOk(c', m) {
      if m !in sent {
        MsgStable(c, c', m);
      }
    }
  }

  // ------------------------------------------------------------ the key lemma

  lemma NodeFacts(c: Cluster, n: Endpoint)
    requires Inv(c) && n in c.nodes
    ensures n in c.hist && n in c.nodes[n].states
    ensures c.nodes[n].self == n && c.nodes[n].enabled && !c.nodes[n].inShadowRound
  {
    assert NodeOk(c, n);
  }

  lemma OwnFacts(c: Cluster, n: Endpoint)
    requires Inv(c) && n in c.nodes
    ensures NodeOk(c, n) && Positive(Own(c, n)) && !IsShutdownState(Own(c, n))
  {
    hide OwnerStep, IsShutdownState;
    assert NodeOk(c, n);
    var own := c.hist[n][|c.hist[n]|-1];
    assert own in c.hist[n] && Positive(own);
  }

  lemma CutNotShutdown(s: Content, v: int, x: Content)
    requires Delta(s, v) == Some(x) && !IsShutdownState(s)
    ensures !IsShutdownState(x)
  {
  }

  /** Hearing a cut of an owner's state turns a snapshot into a snapshot, provided the cut's floor is covered. */
  lemma LearnSnapshot(h: seq<Content>, local: Option<Content>, s: Content, v: int, x: Content)
    requires IsHistory(h) && s in h && 0 <= v && Delta(s, v) == Some(x) && !IsShutdownState(s)
    requires local.Some? ==> local.value in h
    requires v == 0 || (local.Some? && Leq(Key(s.hb.generation, v), KeyOf(local.value)))
    ensures Learn(false, local, x) in h
    ensures local.Some? ==> Leq(KeyOf(local.value), KeyOf(Learn(false, local, x)))
    ensures local.None? || MaxVersion(local.value) >= 1 ==> MaxVersion(Learn(false, local, x)) >= 1
  {
    CutNotShutdown(s, v, x);
    hide IsShutdownState;
    DeltaKey(s, v);
    assert Positive(s);
    DeltaFromZero(s);
    if local.Some? && x.hb.generation == local.value.hb.generation && MaxVersion(x) > MaxVersion(local.value) {
      var l := local.value;
      HistoryPrecedes(h, l, s);
      assert Positive(l);
      MergeDelta(l, s, v);
    }
  }

  lemma HeardSnapshot(c: Cluster, n: Endpoint, m: ContentMap, e: Endpoint)
    requires Inv(c) && n in c.nodes && StatesOk(c, n, m)
    ensures var old', new' := ContentAt(c.nodes[n], e), Heard(c.nodes[n], m, e);
      && (new'.Some? ==> e in c.hist && new'.value in c.hist[e] && (e != n ==> MaxVersion(new'.value) >= 1))
      && (old'.Some? ==> new'.Some? && Leq(KeyOf(old'.value), KeyOf(new'.value)))
  {
    hide Learn, IsHistory, IsShutdownState;
    var node := c.nodes[n];
    assert NodeOk(c, n) && CopiesOk(c, n);
    if e in m && !Ignores(node, e) {
      var s, v :| CutOk(c, n, e, m[e], s, v);
      assert e in c.nodes && NodeOk(c, e);
      LearnSnapshot(c.hist[e], ContentAt(node, e), s, v, m[e]);
    }
  }

  /** A node that changed nothing but what it stores of others, each to what it had or what it heard. */
  lemma HeardIsGood(c: Cluster, n: Endpoint, m: ContentMap, node': Node)
    requires Inv(c) && n in c.nodes && StatesOk(c, n, m) && SameFrame(c.nodes[n], node')
    requires forall e :: ContentAt(node', e) == Heard(c.nodes[n], m, e) || ContentAt(node', e) == ContentAt(c.nodes[n], e)
    ensures NodeOk(c, n) && GoodChange(c, n, node')
  {
    hide IsHistory, Learn, KeyOf, StatesOk, IsShutdownState;
    var node := c.nodes[n];
    assert NodeOk(c, n) && CopiesOk(c, n);
    OwnFacts(c, n);
    forall e ensures e in node.states ==> e in node'.states && Leq(KeyOf(node.states[e].content), KeyOf(node'.states[e].content))
             ensures e in node'.states ==> e in c.hist && node'.states[e].content in c.hist[e]
             ensures e in node'.states && e != n ==> MaxVersion(node'.states[e].content) >= 1
    {
      HeardSnapshot(c, n, m, e);
      assert ContentAt(node', e) == Heard(node, m, e) || ContentAt(node', e) == ContentAt(node, e);
    }
    assert Heard(node, m, n) == ContentAt(node, n);
    assert ContentAt(node', n) == ContentAt(node, n);
  }

  lemma HearingIsGood(c: Cluster, n: Endpoint, m: ContentMap, order: seq<Endpoint>, now: int)
    requires Inv(c) && n in c.nodes && StatesOk(c, n, m) && Enumerates(order, m.Keys)
    ensures NodeOk(c, n) && GoodChange(c, n, ApplyMessage(c.nodes[n], m, order, now))
  {
    hide Inv, GoodChange, NodeOk, StatesOk, Heard;
    ApplyMessageEffect(c.nodes[n], m, order, now);
    HeardIsGood(c, n, m, ApplyMessage(c.nodes[n], m, order, now));
  }

  lemma HearingPartIsGood(c: Cluster, n: Endpoint, m: ContentMap, part: seq<Endpoint>, now: int)
    requires Inv(c) && n in c.nodes && StatesOk(c, n, m) && Distinct(part) && forall e | e in part :: e in m
    ensures NodeOk(c, n) && GoodChange(c, n, ApplyAll(c.nodes[n], m, part, now))
  {
    hide Inv, GoodChange, NodeOk, StatesOk, Heard, ApplyAll;
    ApplyAllEffect(c.nodes[n], m, part, now);
    HeardIsGood(c, n, m, ApplyAll(c.nodes[n], m, part, now));
  }

  // ---------------------------------------------------------------- the steps

  /** A node that only changed its own state, by an owner's step with a version from its counter. */
  lemma OwnChangeIsGood(c: Cluster, n: Endpoint, node: Node)
    requires Inv(c) && n in c.nodes && n in c.nodes[n].states
    requires node.self == n && node.enabled && !node.inShadowRound
    requires node.states.Keys == c.nodes[n].states.Keys
    requires forall e | e in node.states && e != n :: node.states[e] == c.nodes[n].states[e]
    requires var own, own' := Own(c, n), node.states[n].content;
      && (own' == own || (OwnerStep(own, own') && Positive(own')))
      && !IsShutdownState(own')
      && node.version >= MaxVersion(own') && node.version >= 0
    ensures NodeOk(c, n) && GoodChange(c, n, node)
  {
    hide IsHistory, Positive, IsShutdownState, OwnerStep;
    assert NodeOk(c, n) && CopiesOk(c, n);
    if node.states[n].content != Own(c, n) {
      OwnerStepAdvances(Own(c, n), node.states[n].content);
    }
  }

  lemma BeatIsGood(c: Cluster, n: Endpoint, now: int)
    requires Inv(c) && n in c.nodes && c.nodes[n].version < INT32_MAX
    ensures NodeOk(c, n) && GoodChange(c, n, Beat(c.nodes[n], now))
  {
    OwnFacts(c, n);
    var v, node' := c.nodes[n].version + 1, Beat(c.nodes[n], now);
    var own' := WithHeartBeatVersion(Own(c, n), v);
    assert node'.states[n].content == own';
    MaxVersionUnique(own', v);
    assert OwnerStep(Own(c, n), own');
    hide Inv, NodeOk, GoodChange;
    OwnChangeIsGood(c, n, node');
  }

  lemma PublishedIsStep(own: Content, k: ApplicationState, x: VersionedValue)
    requires Positive(own) && x.version > MaxVersion(own) && x.version >= 1 && !IsShutdownState(own)
    requires k == STATUS ==> FirstPiece(x.value) != SHUTDOWN
    ensures var own' := WithValue(own, k, x);
      OwnerStep(own, own') && Positive(own') && MaxVersion(own') == x.version && !IsShutdownState(own')
  {
    var own' := WithValue(own, k, x);
    assert own'.apps[k].version == x.version;
    MaxVersionUnique(own', x.version);
  }

  lemma OwnVersion(c: Cluster, n: Endpoint)
    requires Inv(c) && n in c.nodes
    ensures n in c.nodes[n].states && c.nodes[n].version >= MaxVersion(Own(c, n)) && c.nodes[n].version >= 0
  {
    hide IsHistory, MaxVersion;
    assert NodeOk(c, n);
  }

  lemma PublishIsGood(c: Cluster, n: Endpoint, k: ApplicationState, value: string)
    requires Inv(c) && n in c.nodes && c.nodes[n].version < INT32_MAX && c.nodes[n].self in c.nodes[n].states
    requires k == STATUS ==> FirstPiece(value) != SHUTDOWN
    ensures NodeOk(c, n) && GoodChange(c, n, AddLocalApplicationState(c.nodes[n], k, value))
  {
    OwnFacts(c, n);
    NodeFacts(c, n);
    OwnVersion(c, n);
    hide Inv, NodeOk, GoodChange, IsShutdownState, OwnerStep, Positive, MaxVersion, WithValue;
    var node' := AddLocalApplicationState(c.nodes[n], k, value);
    var x := VersionedValue(c.nodes[n].version + 1, value);
    PublishedIsStep(Own(c, n), k, x);
    assert node'.states[n].content == WithValue(Own(c, n), k, x);
    OwnChangeIsGood(c, n, node');
  }

  lemma NewGenerationIsGood(c: Cluster, n: Endpoint)
    requires Inv(c) && n in c.nodes && n in c.nodes[n].states && Own(c, n).hb.generation < INT32_MAX
    ensures NodeOk(c, n) && GoodChange(c, n, ForceNewerGeneration(c.nodes[n], n))
  {
    OwnFacts(c, n);
    var own' := WithGeneration(Own(c, n), Own(c, n).hb.generation + 1);
    assert ForceNewerGeneration(c.nodes[n], n).states[n].content == own';
    MaxVersionUnique(own', MaxVersion(Own(c, n)));
    assert OwnerStep(Own(c, n), own');
    hide Inv, NodeOk, GoodChange;
    OwnChangeIsGood(c, n, ForceNewerGeneration(c.nodes[n], n));
  }

  lemma QuietChangeIsGood(c: Cluster, n: Endpoint, node: Node)
    requires Inv(c) && n in c.nodes
    requires var old' := c.nodes[n];
      && node.self == old'.self && node.enabled == old'.enabled && node.inShadowRound == old'.inShadowRound
      && node.version == old'.version
      && (forall e :: ContentAt(node, e) == ContentAt(old', e))
    ensures NodeOk(c, n) && GoodChange(c, n, node)
  {
    hide IsHistory, IsShutdownState, OwnerStep, KeyOf;
    assert NodeOk(c, n) && CopiesOk(c, n);
    OwnFacts(c, n);
    forall e ensures (e in node.states <==> e in c.nodes[n].states)
             ensures e in node.states ==> node.states[e].content == c.nodes[n].states[e].content
    {
      assert ContentAt(node, e) == ContentAt(c.nodes[n], e);
    }
  }

  lemma NobodyShutDown(c: Cluster, n: Endpoint)
    requires Inv(c) && n in c.nodes
    ensures NoneShutDown(c.nodes[n])
  {
    hide IsHistory, IsShutdownState;
    assert CopiesOk(c, n);
    forall e | e in c.nodes[n].states ensures !IsShutdownState(c.nodes[n].states[e].content) {
      assert e in c.nodes && NodeOk(c, e);
    }
  }

  /** n' keeps every endpoint of n, so it stores what n stored. */
  lemma KeepsAll(n: Node, n': Node)
    requires Keeps(n, n') && n'.states.Keys == n.states.Keys
    ensures forall e :: ContentAt(n', e) == ContentAt(n, e)
  {
  }

  lemma CheckIsGood(c: Cluster, s: Step)
    requires Inv(c) && Enabled(c, s) && s.CheckStep?
    ensures NodeOk(c, Actor(s)) && GoodChange(c, Actor(s), Act(c, s).0)
  {
    var n := s.n;
    NobodyShutDown(c, n);
    CheckAllKeeps(c.nodes[n], s.order, s.convicted, s.members, s.now);
    hide Inv, NodeOk, GoodChange, CheckAll, Enumerates;
    KeepsAll(c.nodes[n], Act(c, s).0);
    QuietChangeIsGood(c, n, Act(c, s).0);
  }

  lemma ConvictIsGood(c: Cluster, n: Endpoint, ep: Endpoint, now: int)
    requires Inv(c) && n in c.nodes
    ensures NodeOk(c, n) && GoodChange(c, n, Convict(c.nodes[n], ep, now))
  {
    NobodyShutDown(c, n);
    ConvictKeeps(c.nodes[n], ep, now);
    hide Inv, NodeOk, GoodChange, Convict;
    KeepsAll(c.nodes[n], Convict(c.nodes[n], ep, now));
    QuietChangeIsGood(c, n, Convict(c.nodes[n], ep, now));
  }

  lemma QuietSteps(c: Cluster, s: Step)
    requires Inv(c) && Enabled(c, s)
    requires s.EchoStep? || s.ConvictStep? || s.RemoveStep? || s.CheckStep? || s.PopStep?
             || s.SendSynStep? || s.DeliverSynStep? || s.ReplyStep?
    ensures NodeOk(c, Actor(s)) && GoodChange(c, Actor(s), Act(c, s).0)
  {
    hide Inv, NodeOk, GoodChange, StatusCheck, Convict, Enumerates, IsExaminedList, Examine, Replies, MakeDigests;
    if s.ConvictStep? {
      ConvictIsGood(c, s.n, s.ep, s.now);
    } else if s.CheckStep? {
      CheckIsGood(c, s);
    } else {
      QuietChangeIsGood(c, Actor(s), Act(c, s).0);
    }
  }

  lemma CopyFacts(c: Cluster, n: Endpoint, e: Endpoint)
    requires Inv(c) && n in c.nodes && e in c.nodes[n].states
    ensures e in c.nodes && e in c.hist && c.nodes[n].states[e].content in c.hist[e]
    ensures Positive(c.nodes[n].states[e].content)
    ensures IsHistory(c.hist[e])
  {
    assert CopiesOk(c, n);
    assert NodeOk(c, e);
  }

  lemma OwnDigestOk(c: Cluster, n: Endpoint, e: Endpoint)
    requires Inv(c) && n in c.nodes && e in c.nodes[n].states
    ensures DigestOk(c, n, DigestOf(c.nodes[n].states, e))
  {
    CopyFacts(c, n, e);
  }

  lemma SynIsOk(c: Cluster, n: Endpoint, order: seq<Endpoint>)
    requires Inv(c) && n in c.nodes
    requires order == [] || Enumerates(order, c.nodes[n].states.Keys)
    ensures forall d | d in MakeDigests(c.nodes[n].states, order) :: DigestOk(c, n, d)
  {
    var ds := MakeDigests(c.nodes[n].states, order);
    forall i | 0 <= i < |ds| ensures DigestOk(c, n, ds[i]) {
      assert order[i] in order;
      OwnDigestOk(c, n, order[i]);
    }
  }

  lemma ExaminedFromDigests(states: StateMap, ds: seq<Digest>, list: seq<Digest>, d: Digest)
    requires IsExaminedList(states, ds, list) && d in list
    ensures d in ds || d.maxVersion == 0
  {
    if ds != [] {
      SortedFromDigests(states, ds, list);
    }
  }

  lemma RequestIsOk(c: Cluster, n: Endpoint, d: Digest, q: Digest)
    requires Inv(c) && n in c.nodes && d.ep == q.ep && ExamineOne(c.nodes[n].states, d) == Request(q) && q.maxVersion != 0
    ensures DigestOk(c, n, q)
  {
    CopyFacts(c, n, q.ep);
    hide Inv, IsHistory, Positive;
  }

  lemma RequestsAreOk(c: Cluster, n: Endpoint, list: seq<Digest>)
    requires Inv(c) && n in c.nodes
    ensures forall q | q in Examine(c.nodes[n].states, list).digests :: q.maxVersion == 0 || DigestOk(c, n, q)
  {
    hide Inv, Examine, DigestOk;
    var states := c.nodes[n].states;
    ExamineEffect(states, list);
    forall q | q in Examine(states, list).digests && q.maxVersion != 0 ensures DigestOk(c, n, q) {
      var d :| d in list && d.ep == q.ep && ExamineOne(states, d) == Request(q);
      RequestIsOk(c, n, d, q);
    }
  }

  lemma CutIsOk(c: Cluster, n: Endpoint, to: Endpoint, d: Digest, x: Content)
    requires n in c.nodes && CopiesOk(c, n) && d.ep in c.nodes[n].states
    requires d.maxVersion != 0 ==> DigestOk(c, to, d)
    requires ExamineOne(c.nodes[n].states, d).Send?
    requires Delta(c.nodes[n].states[d.ep].content, ExamineOne(c.nodes[n].states, d).floor) == Some(x)
    ensures CutOk(c, to, d.ep, x, c.nodes[n].states[d.ep].content, ExamineOne(c.nodes[n].states, d).floor)
  {
  }

  lemma CutsAreOk(c: Cluster, n: Endpoint, to: Endpoint, list: seq<Digest>)
    requires n in c.nodes && CopiesOk(c, n)
    requires forall d | d in list && d.maxVersion != 0 :: DigestOk(c, to, d)
    ensures StatesOk(c, to, Examine(c.nodes[n].states, list).states)
  {
    var states := c.nodes[n].states;
    ExamineEffect(states, list);
    var r := Examine(states, list).states;
    forall e | e in r ensures e in c.hist && exists s, v :: CutOk(c, to, e, r[e], s, v) {
      var d :| d in list && d.ep == e && ExamineOne(states, d).Send?
               && Delta(states[e].content, ExamineOne(states, d).floor) == Some(r[e]);
      CutIsOk(c, n, to, d, r[e]);
    }
  }

  lemma AckIsOk(c: Cluster, s: Step)
    requires Inv(c) && Enabled(c, s) && s.DeliverSynStep?
    ensures forall m | m in Act(c, s).1 :: MsgOk(c, m)
  {
    var n := Actor(s);
    assert MsgOk(c, s.msg) && CopiesOk(c, n);
    forall d | d in s.list && d.maxVersion != 0 ensures DigestOk(c, s.msg.from, d) {
      ExaminedFromDigests(c.nodes[n].states, s.msg.syn.digests, s.list, d);
    }
    RequestsAreOk(c, n, s.list);
    CutsAreOk(c, n, s.msg.from, s.list);
  }

  /** Replies are cuts from a covered floor exactly because the generations match. */
  lemma RepliesAreOk(c: Cluster, n: Endpoint, to: Endpoint, ds: seq<Digest>)
    requires n in c.nodes && CopiesOk(c, n)
    requires forall d | d in ds && d.maxVersion != 0 :: DigestOk(c, to, d)
    requires forall d | d in ds && d.maxVersion != 0 && d.ep in c.nodes[n].states ::
               c.nodes[n].states[d.ep].content.hb.generation == d.generation
    ensures StatesOk(c, to, Replies(c.nodes[n].states, ds))
  {
    var states := c.nodes[n].states;
    RepliesEffect(states, ds);
    var r := Replies(states, ds);
    forall e | e in r ensures e in c.hist && exists s, v :: CutOk(c, to, e, r[e], s, v) {
      var d :| d in ds && d.ep == e && Delta(states[e].content, d.maxVersion) == Some(r[e]);
      assert CutOk(c, to, e, r[e], states[e].content, d.maxVersion);
    }
  }

  lemma DrawIsGood(c: Cluster, n: Endpoint)
    requires Inv(c) && n in c.nodes && c.nodes[n].version < INT32_MAX
    ensures NodeOk(c, n) && GoodChange(c, n, DrawVersion(c.nodes[n]))
  {
    OwnFacts(c, n);
    hide IsShutdownState, GoodChange, Positive, IsHistory;
    OwnChangeIsGood(c, n, DrawVersion(c.nodes[n]));
  }

  /** The states of every message in flight are cuts its receiver can use. */
  lemma NetStatesOk(c: Cluster, msg: Message)
    requires Inv(c) && msg in c.net
    ensures StatesOk(c, msg.to, StatesOf(msg))
  {
    hide NodeOk, CopiesOk, DigestOk;
    assert MsgOk(c, msg);
  }

  lemma DeliveryIsGood(c: Cluster, s: Step)
    requires Inv(c) && Enabled(c, s) && (s.DeliverAckStep? || s.DeliverAck2Step? || s.HearPartStep?)
    ensures NodeOk(c, Actor(s)) && GoodChange(c, Actor(s), Act(c, s).0)
    ensures s.DeliverAckStep? ==> Act(c, s).0 == ApplyMessage(c.nodes[Actor(s)], s.msg.ack.states, s.order, s.now)
    ensures s.DeliverAckStep? ==> Act(c, s).1 == {Ack2Msg(s.msg.from, Replies(Act(c, s).0.states, s.msg.ack.digests))}
  {
    hide Inv, NodeOk, GoodChange, ApplyMessage, ApplyAll, Replies, StatesOk;
    var n, msg := Actor(s), s.msg;
    NodeFacts(c, n);
    NetStatesOk(c, msg);
    if s.HearPartStep? {
      HearingPartIsGood(c, n, StatesOf(msg), s.part, s.now);
    } else {
      HearingIsGood(c, n, StatesOf(msg), s.order, s.now);
      ApplyMessageEffect(c.nodes[n], StatesOf(msg), s.order, s.now);
    }
  }

  /** Every step changes its acting node in a way the invariant survives. */
  lemma GoodSteps(c: Cluster, s: Step)
    requires Inv(c) && Enabled(c, s) && NoShutdown(s)
    ensures NodeOk(c, Actor(s)) && GoodChange(c, Actor(s), Act(c, s).0)
  {
    hide Inv, GoodChange, NodeOk, Enumerates, IsExaminedList, Replies, Examine, HandleAck, HandleAck2, ApplyAll, StatusCheck;
    var n := Actor(s);
    if s.DeliverAckStep? || s.DeliverAck2Step? || s.HearPartStep? {
      DeliveryIsGood(c, s);
    } else {
      match s
      case BeatStep(_, now) => BeatIsGood(c, n, now);
      case DrawStep(_) => DrawIsGood(c, n);
      case PublishStep(_, k, value) => NodeFacts(c, n); PublishIsGood(c, n, k, value);
      case NewGenerationStep(_) => NewGenerationIsGood(c, n);
      case _ => QuietSteps(c, s);
    }
  }

  /** Answers to digests are in order after the step, because the generations match. */
  /** What the step that answers a message's digests sends. */
  lemma AnswerSent(c: Cluster, s: Step)
    requires Inv(c) && Enabled(c, s) && (s.DeliverAckStep? || s.ReplyStep?)
    ensures Act(c, s).1 == {Ack2Msg(s.msg.from, Replies(Act(c, s).0.states, s.msg.ack.digests))}
    ensures forall d | d in s.msg.ack.digests && d.maxVersion != 0 :: DigestOk(c, s.msg.from, d)
  {
    assert MsgOk(c, s.msg);
    hide Inv, DigestOk, StatesOk;
    if s.DeliverAckStep? {
      DeliveryIsGood(c, s);
    }
  }

  lemma AnswerIsOk(c: Cluster, s: Step)
    requires Inv(c) && Enabled(c, s) && IsSafe(c, s) && (s.DeliverAckStep? || s.ReplyStep?)
    ensures Actor(s) in c.hist && forall m | m in Act(c, s).1 :: MsgOk(Next(c, s), m)
  {
    assert Actor(s) in c.nodes;
    NodeFacts(c, Actor(s));
    AnswerSent(c, s);
    GoodSteps(c, s);
    hide Inv, Enabled, Act, Replies, GoodChange, NodeOk, Grows, StatesOk, DigestOk;
    var n, msg := Actor(s), s.msg;
    var c', r := Next(c, s), Act(c, s);
    ReplaceGrows(c, n, r.0, r.1);
    ReplaceCopies(c, n, r.0, r.1);
    forall d | d in msg.ack.digests && d.maxVersion != 0 ensures DigestOk(c', msg.from, d) {
      DigestStable(c, c', msg.from, d);
    }
    RepliesAreOk(c', n, msg.from, msg.ack.digests);
  }

  lemma SentNowIsOk(c: Cluster, s: Step)
    requires Inv(c) && Enabled(c, s) && (s.SendSynStep? || s.DeliverSynStep?)
    ensures forall m | m in Act(c, s).1 :: MsgOk(c, m)
  {
    if s.SendSynStep? {
      hide Inv, DigestOk, StatesOk, MakeDigests, Enumerates;
      SynIsOk(c, s.n, s.order);
    } else {
      AckIsOk(c, s);
      hide Inv, Enabled, Act, MsgOk;
    }
  }

  lemma SentIsOk(c: Cluster, s: Step)
    requires Inv(c) && Enabled(c, s) && IsSafe(c, s)
    ensures Actor(s) in c.hist && forall m | m in Act(c, s).1 :: MsgOk(Next(c, s), m)
  {
    NodeFacts(c, Actor(s));
    if s.DeliverAckStep? || s.ReplyStep? {
      AnswerIsOk(c, s);
    } else if s.SendSynStep? || s.DeliverSynStep? {
      SentNowIsOk(c, s);
      GoodSteps(c, s);
      hide Inv, Enabled, Act, GoodChange, NodeOk, MsgOk, Replace;
      ReplaceGrows(c, Actor(s), Act(c, s).0, Act(c, s).1);
      forall m | m in Act(c, s).1 ensures MsgOk(Next(c, s), m) {
        MsgStable(c, Next(c, s), m);
      }
    } else {
      hide Inv, GoodChange, NodeOk, MsgOk, Replace, Enabled, GenerationsMatch;
    }
  }

  lemma NextKeepsInv(c: Cluster, s: Step)
    requires Inv(c) && Enabled(c, s) && IsSafe(c, s)
    ensures Actor(s) in c.hist && Inv(Next(c, s))
  {
    GoodSteps(c, s);
    SentIsOk(c, s);
    hide Inv, GoodChange, NodeOk, MsgOk, Act;
    ReplaceKeepsInv(c, Actor(s), Act(c, s).0, Act(c, s).1);
  }

  lemma LeadsKeepsInv(c: Cluster, s: Step, c': Cluster)
    requires Inv(c) && Leads(c, s, c')
    ensures Inv(c')
  {
    NextKeepsInv(c, s);
  }

  lemma InitInv(c: Cluster)
    requires Init(c)
    ensures Inv(c)
  {
    forall n | n in c.nodes ensures NodeOk(c, n) && CopiesOk(c, n) {
      var own := Own(c, n);
      assert IsFresh(n, c.nodes[n]);
      MaxVersionUnique(own, 0);
    }
  }

  lemma {:induction false} SafeRunKeepsInv(cs: seq<Cluster>, steps: seq<Step>, i: nat)
    requires IsSafeRun(cs, steps) && i < |cs|
    ensures Inv(cs[i])
  {
    if i == 0 {
      InitInv(cs[0]);
    } else {
      SafeRunKeepsInv(cs, steps, i - 1);
      NextKeepsInv(cs[i-1], steps[i-1]);
    }
  }

  // ------------------------------------------------------------ the theorems

  ghost predicate HadState(c: Cluster, e: Endpoint, x: Content) {
    e in c.nodes && e in c.nodes[e].states && Own(c, e) == x
  }

  /** The recorded history holds nothing but states the owner had earlier in the run. */
  lemma {:induction false} HistoryIsPast(cs: seq<Cluster>, steps: seq<Step>, i: nat, e: Endpoint, x: Content)
    requires IsRun(cs, steps) && i < |cs|
    requires e in cs[i].hist && x in cs[i].hist[e]
    ensures exists j | 0 <= j <= i :: HadState(cs[j], e, x)
  {
    if i == 0 {
      assert IsFresh(e, cs[0].nodes[e]);
      assert HadState(cs[0], e, x);
    } else {
      var n, r := Actor(steps[i-1]), Act(cs[i-1], steps[i-1]);
      assert cs[i] == Replace(cs[i-1], n, r.0, r.1);
      if x in cs[i-1].hist[e] {
        HistoryIsPast(cs, steps, i - 1, e, x);
      } else {
        assert HadState(cs[i], e, x);
      }
    }
  }

  /** Snapshot theorem: in every safe run, every stored copy is a state its owner had at some moment so far. */
  lemma SnapshotTheorem(cs: seq<Cluster>, steps: seq<Step>, i: nat, n: Endpoint, e: Endpoint)
    requires IsSafeRun(cs, steps) && i < |cs|
    requires n in cs[i].nodes && e in cs[i].nodes[n].states
    ensures exists j | 0 <= j <= i :: HadState(cs[j], e, cs[i].nodes[n].states[e].content)
  {
    SafeRunKeepsInv(cs, steps, i);
    assert CopiesOk(cs[i], n);
    HistoryIsPast(cs, steps, i, e, cs[i].nodes[n].states[e].content);
  }

  /** ... so two copies with the same (generation, max version) are identical, wherever they are stored. */
  lemma EqualDigestsEqualCopies(cs: seq<Cluster>, steps: seq<Step>, i: nat, n: Endpoint, p: Endpoint, e: Endpoint)
    requires IsSafeRun(cs, steps) && i < |cs|
    requires n in cs[i].nodes && p in cs[i].nodes && e in cs[i].nodes[n].states && e in cs[i].nodes[p].states
    requires DigestOf(cs[i].nodes[n].states, e) == DigestOf(cs[i].nodes[p].states, e)
    ensures cs[i].nodes[n].states[e].content == cs[i].nodes[p].states[e].content
  {
    SafeRunKeepsInv(cs, steps, i);
    assert CopiesOk(cs[i], n) && CopiesOk(cs[i], p);
    assert e in cs[i].nodes && NodeOk(cs[i], e);
    KeyDeterminesContent(cs[i].hist[e], cs[i].nodes[n].states[e].content, cs[i].nodes[p].states[e].content);
  }

  ghost predicate OneGeneration(c: Cluster) {
    forall e, x, y | e in c.hist && x in c.hist[e] && y in c.hist[e] :: x.hb.generation == y.hb.generation
  }

  /** Only the owner's own steps change what it says about itself. */
  predicate IsOwnUpdate(s: Step) {
    s.BeatStep? || s.PublishStep? || s.NewGenerationStep?
  }

  lemma OwnGenerationKept(c: Cluster, s: Step)
    requires Inv(c) && Enabled(c, s) && NoShutdown(s) && !s.NewGenerationStep?
    ensures Actor(s) in c.hist && Actor(s) in c.nodes[Actor(s)].states && Actor(s) in Act(c, s).0.states
    ensures Act(c, s).0.states[Actor(s)].content.hb.generation == Own(c, Actor(s)).hb.generation
  {
    NodeFacts(c, Actor(s));
    GoodSteps(c, s);
    if s.BeatStep? || s.PublishStep? {
      hide Inv, GoodChange, NodeOk;
      assert Act(c, s).0.states[Actor(s)].content.hb.generation == Own(c, Actor(s)).hb.generation;
    } else {
      OwnKept(c, s);
    }
  }

  /** A node's own state is not among what it learns from others. */
  lemma OwnNotHeard(c: Cluster, s: Step)
    requires Inv(c) && Enabled(c, s) && (s.DeliverAckStep? || s.DeliverAck2Step? || s.HearPartStep?)
    ensures ContentAt(Act(c, s).0, Actor(s)) == ContentAt(c.nodes[Actor(s)], Actor(s))
  {
    var n := Actor(s);
    NodeFacts(c, n);
    hide Inv, Replies, ApplyMessage, ApplyAll, Learn;
    if s.HearPartStep? {
      ApplyAllEffect(c.nodes[n], StatesOf(s.msg), s.part, s.now);
    } else {
      ApplyMessageEffect(c.nodes[n], StatesOf(s.msg), s.order, s.now);
    }
    assert Heard(c.nodes[n], StatesOf(s.msg), n) == ContentAt(c.nodes[n], n);
  }

  lemma OwnKept(c: Cluster, s: Step)
    requires Inv(c) && Enabled(c, s) && NoShutdown(s) && !IsOwnUpdate(s)
    ensures Actor(s) in c.nodes[Actor(s)].states && Actor(s) in Act(c, s).0.states
    ensures Act(c, s).0.states[Actor(s)].content == Own(c, Actor(s))
  {
    var n := Actor(s);
    NodeFacts(c, n);
    if s.DeliverAckStep? || s.DeliverAck2Step? || s.HearPartStep? {
      OwnNotHeard(c, s);
      hide Inv, Enabled, Act;
    } else if s.CheckStep? || s.ConvictStep? {
      NobodyShutDown(c, n);
      hide Inv, CheckAll, Convict, Enumerates;
      if s.CheckStep? {
        CheckAllKeeps(c.nodes[n], s.order, s.convicted, s.members, s.now);
      } else {
        ConvictKeeps(c.nodes[n], s.ep, s.now);
      }
    } else {
      hide Inv, Enumerates, IsExaminedList, Examine, Replies, MakeDigests, HandleSyn;
    }
  }

  lemma RecordedGeneration(c: Cluster, n: Endpoint, node: Node, sent: set<Message>)
    requires OneGeneration(c) && n in c.hist && n in node.states
    requires exists x | x in c.hist[n] :: x.hb.generation == node.states[n].content.hb.generation
    ensures OneGeneration(Replace(c, n, node, sent))
  {
    var c' := Replace(c, n, node, sent);
    var y := node.states[n].content;
    forall e, x | e in c'.hist && x in c'.hist[e]
      ensures e in c.hist && (x in c.hist[e] || (e == n && x == y))
    {
    }
  }

  lemma OneGenerationKept(c: Cluster, s: Step)
    requires Inv(c) && OneGeneration(c) && Enabled(c, s) && NoShutdown(s) && !s.NewGenerationStep?
    ensures Actor(s) in c.hist && OneGeneration(Next(c, s))
  {
    OwnGenerationKept(c, s);
    var n := Actor(s);
    assert NodeOk(c, n);
    var h := c.hist[n];
    assert h[|h|-1] == Own(c, n);
    RecordedGeneration(c, n, Act(c, s).0, Act(c, s).1);
  }

  lemma OneGenerationMatches(c: Cluster, s: Step)
    requires Inv(c) && OneGeneration(c) && Enabled(c, s) && NoShutdown(s)
    ensures GenerationsMatch(c, s)
  {
    if s.DeliverAckStep? || s.ReplyStep? {
      var n := Actor(s);
      var node' := Act(c, s).0;
      assert MsgOk(c, s.msg);
      GoodSteps(c, s);
      OwnKept(c, s);
      NodeFacts(c, n);
      OwnFacts(c, n);
      hide Act, IsHistory, KeyOf, IsShutdownState;
      forall d | d in s.msg.ack.digests && d.maxVersion != 0 && d.ep in node'.states
        ensures node'.states[d.ep].content.hb.generation == d.generation
      {
        assert DigestOk(c, s.msg.from, d);
        assert node'.states[d.ep].content in c.hist[d.ep];
      }
    }
  }

  lemma FixedGenerationStep(c: Cluster, s: Step)
    requires Inv(c) && OneGeneration(c) && Enabled(c, s) && NoShutdown(s) && !s.NewGenerationStep?
    ensures IsSafe(c, s)
    ensures Actor(s) in c.hist && Inv(Next(c, s)) && OneGeneration(Next(c, s))
  {
    hide Inv, OneGeneration, GenerationsMatch;
    OneGenerationMatches(c, s);
    NextKeepsInv(c, s);
    OneGenerationKept(c, s);
  }

  lemma {:induction false} FixedGenerationsInv(cs: seq<Cluster>, steps: seq<Step>, i: nat)
    requires IsRun(cs, steps) && i < |cs|
    requires forall k | 0 <= k < |steps| :: !steps[k].NewGenerationStep? && NoShutdown(steps[k])
    ensures Inv(cs[i]) && OneGeneration(cs[i])
  {
    if i == 0 {
      InitInv(cs[0]);
    } else {
      FixedGenerationsInv(cs, steps, i - 1);
      FixedGenerationStep(cs[i-1], steps[i-1]);
    }
  }

  /** Runs in which no owner changes its generation or announces its shutdown need no proviso. */
  lemma FixedGenerationsAreSafe(cs: seq<Cluster>, steps: seq<Step>)
    requires IsRun(cs, steps)
    requires forall k | 0 <= k < |steps| :: !steps[k].NewGenerationStep? && NoShutdown(steps[k])
    ensures IsSafeRun(cs, steps)
  {
    forall k | 0 <= k < |steps| ensures IsSafe(cs[k], steps[k]) {
      FixedGenerationsInv(cs, steps, k);
      FixedGenerationStep(cs[k], steps[k]);
    }
  }

  lemma SnapshotWithFixedGenerations(cs: seq<Cluster>, steps: seq<Step>, i: nat, n: Endpoint, e: Endpoint)
    requires IsRun(cs, steps) && i < |cs|
    requires forall k | 0 <= k < |steps| :: !steps[k].NewGenerationStep? && NoShutdown(steps[k])
    requires n in cs[i].nodes && e in cs[i].nodes[n].states
    ensures exists j | 0 <= j <= i :: HadState(cs[j], e, cs[i].nodes[n].states[e].content)
  {
    FixedGenerationsAreSafe(cs, steps);
    SnapshotTheorem(cs, steps, i, n, e);
  }

  // ------------------------------------- when an answered digest tears a copy

  /** The versions of s the receiver already has: nothing, unless its copy is of the same generation. */
  ghost function Covered(local: Option<Content>, s: Content): int {
    if local.Some? && local.value.hb.generation == s.hb.generation then MaxVersion(local.value) else 0
  }

  ghost predicate TakesOver(local: Option<Content>, x: Content) {
    local.Some? ==>
      && !TooFarAhead(local.value, x)
      && Leq(KeyOf(local.value), KeyOf(x)) && KeyOf(local.value) != KeyOf(x)
  }

  lemma LearnedKey(h: seq<Content>, local: Option<Content>, s: Content, v: int, x: Content)
    requires IsHistory(h) && s in h && Delta(s, v) == Some(x)
    requires local.Some? ==> local.value in h
    requires TakesOver(local, x) && !(IsMajor(local, s) && IsShutdownState(x))
    ensures KeyOf(Learn(false, local, x)) == KeyOf(s)
  {
    hide IsShutdownState;
    DeltaKey(s, v);
    if local.Some? && local.value.hb.generation == s.hb.generation {
      var m, y := MaxVersion(s), Learn(false, local, x);
      assert y == Merge(local.value, x);
      if m != s.hb.version {
        var k :| k in x.apps && x.apps[k].version == m;
        assert y.apps[k].version == m;
      }
      MaxVersionUnique(y, m);
    }
  }

  lemma CutIsWhole(s: Content, v: int, x: Content)
    requires Delta(s, v) == Some(x)
    ensures x == s <==> forall k | k in s.apps :: s.apps[k].version > v
  {
    assert x == s <==> x.apps == s.apps;
    assert x.apps.Keys <= s.apps.Keys;
  }

  lemma MergeIsWhole(l: Content, s: Content, v: int, x: Content)
    requires Precedes(l, s) && Delta(s, v) == Some(x)
    ensures Merge(l, x) == s <==> forall k | k in s.apps :: !(MaxVersion(l) < s.apps[k].version <= v)
  {
    var y := Merge(l, x);
    forall k | k in s.apps
      ensures (k in y.apps && y.apps[k] == s.apps[k]) <==> !(MaxVersion(l) < s.apps[k].version <= v)
    {
      assert k in x.apps <==> s.apps[k].version > v;
      assert k in l.apps ==> l.apps[k].version <= MaxVersion(l);
    }
    assert y.apps.Keys <= s.apps.Keys;
    assert y == s <==> y.apps == s.apps;
  }

  /**
   Exactly when a delivered cut leaves a snapshot: it may not announce a shutdown to a node that
   takes it over by a major change, and no value of the sender's state may lie above what the
   receiver covers and at or below the floor the cut was made from.
   */
  lemma SnapshotExact(h: seq<Content>, local: Option<Content>, s: Content, v: int, x: Content)
    requires IsHistory(h) && s in h && Delta(s, v) == Some(x)
    requires local.Some? ==> local.value in h
    requires TakesOver(local, x)
    requires forall y | y in h :: y.hb.version < INT32_MAX
    ensures Learn(false, local, x) in h <==>
      && !(IsMajor(local, s) && IsShutdownState(x))
      && forall k | k in s.apps :: !(Covered(local, s) < s.apps[k].version <= v)
  {
    hide IsShutdownState;
    DeltaKey(s, v);
    if IsMajor(local, s) && IsShutdownState(x) {
      assert Learn(false, local, x) == Forced(x);
    } else {
      LearnedKey(h, local, s, v, x);
      if Learn(false, local, x) in h {
        KeyDeterminesContent(h, Learn(false, local, x), s);
      }
      if local.Some? && local.value.hb.generation == s.hb.generation {
        HistoryPrecedes(h, local.value, s);
        MergeIsWhole(local.value, s, v, x);
      } else {
        assert Positive(s);
        CutIsWhole(s, v, x);
      }
    }
  }
}
