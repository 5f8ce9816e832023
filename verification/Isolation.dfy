/**
 Clusters with different names do not mix: a SYN from another cluster is thrown away, and
 therefore no node ever stores an endpoint of a cluster other than its own.
 */
module Isolation {
  import opened Wrappers
  import opened EndpointStates
  import opened GossipNodes
  import opened Snapshots
  import Membership

  /** Exactly when a SYN is answered. */
  lemma SynIsAnswered(n: Node, syn: Syn, list: seq<Digest>)
    ensures HandleSyn(n, syn, list).Some? <==>
      n.enabled && syn.clusterId == n.clusterName && (syn.partitioner == "" || syn.partitioner == PARTITIONER)
  {
  }

  /** Delivering a SYN from another cluster sends nothing and changes no node. */
  lemma ForeignSynIsDropped(c: Cluster, s: Step)
    requires Enabled(c, s) && s.DeliverSynStep? && Actor(s) in c.hist
    requires s.msg.syn.clusterId != c.nodes[Actor(s)].clusterName
    ensures Next(c, s).nodes == c.nodes && Next(c, s).net == c.net
  {
    SynIsAnswered(c.nodes[Actor(s)], s.msg.syn, s.list);
    hide HandleSyn;
    assert c.nodes[Actor(s) := c.nodes[Actor(s)]] == c.nodes;
  }

  // --------------------------------------------------------------- invariant

  function Names(c: Cluster): map<Endpoint, string> {
    map n | n in c.nodes :: c.nodes[n].clusterName
  }

  predicate In(names: map<Endpoint, string>, cluster: string, e: Endpoint) {
    e in names && names[e] == cluster
  }

  ghost predicate NodeApart(names: map<Endpoint, string>, n: Endpoint, node: Node) {
    node.self == n && In(names, node.clusterName, n) && forall e | e in node.states :: In(names, node.clusterName, e)
  }

  ghost predicate MessageApart(names: map<Endpoint, string>, m: Message) {
    match m
    case SynMsg(from, _, syn) => In(names, syn.clusterId, from) && forall d | d in syn.digests :: In(names, syn.clusterId, d.ep)
    case AckMsg(from, to, ack) =>
      && from in names && In(names, names[from], to)
      && (forall d | d in ack.digests :: In(names, names[from], d.ep))
      && (forall e | e in ack.states :: In(names, names[from], e))
    case Ack2Msg(to, states) => to in names && forall e | e in states :: In(names, names[to], e)
  }

  /** Every node, and every message in flight, speaks of one cluster only. */
  ghost predicate Apart(c: Cluster) {
    && (forall n | n in c.nodes :: NodeApart(Names(c), n, c.nodes[n]))
    && (forall m | m in c.net :: MessageApart(Names(c), m))
  }

  lemma {:induction false} CheckAllFrame(n: Node, order: seq<Endpoint>, convicted: set<Endpoint>, members: set<Endpoint>, now: int)
    ensures var n' := CheckAll(n, order, convicted, members, now);
      n'.self == n.self && n'.clusterName == n.clusterName && n'.states.Keys <= n.states.Keys
  {
    if order != [] {
      var ep, n1 := order[|order|-1], CheckAll(n, order[..|order|-1], convicted, members, now);
      CheckAllFrame(n, order[..|order|-1], convicted, members, now);
      Membership.ConvictFrame(n1, ep, now);
      Membership.CheckEndpointAddsNothing(n1, ep, ep in convicted, ep in members, now);
      hide Convict;
    }
  }

  /** A node keeps its names, and learns only of itself and of endpoints it hears about. */
  ghost predicate LearnsAtMost(n: Node, n': Node, heard: set<Endpoint>) {
    n'.self == n.self && n'.clusterName == n.clusterName && n'.states.Keys <= n.states.Keys + {n.self} + heard
  }

  lemma HearingLearns(n: Node, m: ContentMap, order: seq<Endpoint>, now: int)
    requires Enumerates(order, m.Keys)
    ensures LearnsAtMost(n, ApplyMessage(n, m, order, now), m.Keys)
  {
    hide ApplyMessage, Learn;
    ApplyMessageEffect(n, m, order, now);
    var n' := ApplyMessage(n, m, order, now);
    forall e | e in n'.states ensures e in n.states || e in m {
      assert ContentAt(n', e) == Heard(n, m, e);
    }
  }

  lemma HearingPartLearns(n: Node, m: ContentMap, part: seq<Endpoint>, now: int)
    requires Distinct(part) && forall e | e in part :: e in m
    ensures LearnsAtMost(n, ApplyAll(n, m, part, now), m.Keys)
  {
    hide ApplyAll, Learn;
    ApplyAllEffect(n, m, part, now);
    var n' := ApplyAll(n, m, part, now);
    forall e | e in n'.states ensures e in n.states || e in m {
      assert e !in part ==> ContentAt(n', e) == ContentAt(n, e);
    }
  }

  function HeardOf(s: Step): set<Endpoint> {
    if s.DeliverAckStep? || s.DeliverAck2Step? || s.HearPartStep? then StatesOf(s.msg).Keys else {}
  }

  lemma StepLearns(c: Cluster, s: Step)
    requires Enabled(c, s)
    ensures LearnsAtMost(c.nodes[Actor(s)], Act(c, s).0, HeardOf(s))
  {
    var n := c.nodes[Actor(s)];
    hide Examine, Replies, MakeDigests, IsExaminedList, ApplyMessage, ApplyAll, CheckAll, Convict, Enumerates;
    if s.DeliverAckStep? || s.DeliverAck2Step? {
      HearingLearns(n, StatesOf(s.msg), s.order, s.now);
    } else if s.HearPartStep? {
      HearingPartLearns(n, StatesOf(s.msg), s.part, s.now);
    } else if s.CheckStep? {
      CheckAllFrame(n, s.order, s.convicted, s.members, s.now);
    } else if s.ConvictStep? {
      Membership.ConvictFrame(n, s.ep, s.now);
    }
  }

  // ------------------------------------------------------------ what is sent

  lemma ExaminedEndpoints(states: StateMap, ds: seq<Digest>, list: seq<Digest>, d: Digest)
    requires IsExaminedList(states, ds, list) && d in list
    ensures d.ep in states || exists x | x in ds :: x.ep == d.ep
  {
    if ds != [] {
      SortedFromDigests(states, ds, list);
    } else {
      var order :| Enumerates(order, states.Keys) && |list| == |order|
                   && forall i | 0 <= i < |order| :: list[i] == Digest(order[i], 0, 0);
      var i :| 0 <= i < |list| && list[i] == d;
      assert order[i] in order;
    }
  }

  lemma SynIsApart(names: map<Endpoint, string>, n: Endpoint, node: Node, to: Endpoint, order: seq<Endpoint>)
    requires NodeApart(names, n, node) && (order == [] || Enumerates(order, node.states.Keys))
    ensures MessageApart(names, SynMsg(n, to, Syn(node.clusterName, PARTITIONER, MakeDigests(node.states, order))))
  {
    var ds := MakeDigests(node.states, order);
    forall d | d in ds ensures In(names, node.clusterName, d.ep) {
      var i :| 0 <= i < |ds| && ds[i] == d;
      assert order[i] in order;
    }
  }

  lemma RequestedDigest(states: StateMap, list: seq<Digest>, q: Digest) returns (d: Digest)
    requires q in Examine(states, list).digests
    ensures d in list && d.ep == q.ep
  {
    ExamineEffect(states, list);
    d :| d in list && d.ep == q.ep && ExamineOne(states, d) == Request(q);
  }

  lemma AckIsApart(names: map<Endpoint, string>, n: Endpoint, node: Node, msg: Message, list: seq<Digest>)
    requires NodeApart(names, n, node) && msg.SynMsg? && msg.to == n && MessageApart(names, msg)
    requires msg.syn.clusterId == node.clusterName && IsExaminedList(node.states, msg.syn.digests, list)
    ensures MessageApart(names, AckMsg(n, msg.from, Examine(node.states, list)))
  {
    hide Examine, IsExaminedList;
    ExamineEffect(node.states, list);
    forall q | q in Examine(node.states, list).digests ensures In(names, node.clusterName, q.ep) {
      var d := RequestedDigest(node.states, list, q);
      ExaminedEndpoints(node.states, msg.syn.digests, list, d);
    }
  }

  lemma RepliesAreApart(names: map<Endpoint, string>, n: Endpoint, node: Node, to: Endpoint, ds: seq<Digest>)
    requires NodeApart(names, n, node) && In(names, node.clusterName, to)
    ensures MessageApart(names, Ack2Msg(to, Replies(node.states, ds)))
  {
    RepliesEffect(node.states, ds);
  }

  lemma AnswerShape(c: Cluster, s: Step)
    requires Enabled(c, s) && (s.DeliverAckStep? || s.ReplyStep?)
    ensures forall m | m in Act(c, s).1 :: m == Ack2Msg(s.msg.from, Replies(Act(c, s).0.states, s.msg.ack.digests))
  {
    hide ApplyMessage, Replies, Enumerates;
  }

  lemma SentIsApart(c: Cluster, s: Step)
    requires Enabled(c, s) && Apart(c) && NodeApart(Names(c), Actor(s), Act(c, s).0)
    ensures forall m | m in Act(c, s).1 :: MessageApart(Names(c), m)
  {
    var names, n := Names(c), Actor(s);
    if s.SendSynStep? {
      SynIsApart(names, n, c.nodes[n], s.to, s.order);
      hide MessageApart, MakeDigests, Apart;
    } else if s.DeliverSynStep? {
      assert MessageApart(names, s.msg);
      SynIsAnswered(c.nodes[n], s.msg.syn, s.list);
      if s.msg.syn.clusterId == c.nodes[n].clusterName {
        AckIsApart(names, n, c.nodes[n], s.msg, s.list);
      }
      hide MessageApart, Examine, IsExaminedList, Apart;
    } else if s.DeliverAckStep? || s.ReplyStep? {
      AnswerShape(c, s);
      assert MessageApart(names, s.msg);
      RepliesAreApart(names, n, Act(c, s).0, s.msg.from, s.msg.ack.digests);
      hide MessageApart, Act, Enabled;
    }
  }

  lemma ActorIsApart(c: Cluster, s: Step)
    requires Enabled(c, s) && Apart(c)
    ensures NodeApart(Names(c), Actor(s), Act(c, s).0)
  {
    StepLearns(c, s);
    var names, n := Names(c), Actor(s);
    assert NodeApart(names, n, c.nodes[n]);
    if HeardOf(s) != {} {
      assert MessageApart(names, s.msg);
      assert forall e | e in HeardOf(s) :: In(names, c.nodes[n].clusterName, e);
    }
    hide Enabled, Act;
  }

  lemma StepKeepsApart(c: Cluster, s: Step)
    requires Enabled(c, s) && Actor(s) in c.hist && Apart(c)
    ensures Apart(Next(c, s)) && Names(Next(c, s)) == Names(c)
  {
    ActorIsApart(c, s);
    SentIsApart(c, s);
    StepLearns(c, s);
    hide Enabled, Act, MessageApart, NodeApart;
    var c' := Next(c, s);
    assert Names(c') == Names(c);
  }

  lemma InitIsApart(c: Cluster)
    requires Init(c)
    ensures Apart(c)
  {
    forall n | n in c.nodes ensures NodeApart(Names(c), n, c.nodes[n]) {
      assert IsFresh(n, c.nodes[n]);
    }
  }

  lemma {:induction false} RunStaysApart(cs: seq<Cluster>, steps: seq<Step>, i: nat)
    requires IsRun(cs, steps) && i < |cs|
    ensures Apart(cs[i]) && Names(cs[i]) == Names(cs[0])
  {
    if i == 0 {
      InitIsApart(cs[0]);
    } else {
      RunStaysApart(cs, steps, i - 1);
      assert cs[i] == Next(cs[i-1], steps[i-1]);
      hide Apart, Next, Enabled;
      StepKeepsApart(cs[i-1], steps[i-1]);
    }
  }

  /**
   In every run, whatever is delivered to whom, a node stores only endpoints of its own cluster,
   and every cluster name is still what it was at the start.
   */
  lemma ClustersStayApart(cs: seq<Cluster>, steps: seq<Step>, i: nat, n: Endpoint, e: Endpoint)
    requires IsRun(cs, steps) && i < |cs| && n in cs[i].nodes && e in cs[i].nodes[n].states
    ensures e in cs[i].nodes && cs[i].nodes[e].clusterName == cs[i].nodes[n].clusterName
    ensures n in cs[0].nodes && cs[0].nodes[n].clusterName == cs[i].nodes[n].clusterName
  {
    hide IsRun;
    RunStaysApart(cs, steps, i);
    assert NodeApart(Names(cs[i]), n, cs[i].nodes[n]);
    assert n in Names(cs[i]) && n in Names(cs[0]);
  }
}
