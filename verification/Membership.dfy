/**
 What one node keeps true about itself over every run of its operations, whatever the
 messages it receives contain: its membership sets fit together, what it knows about a
 peer never goes back, and a quarantined endpoint stays out.
 */
module Membership {
  import opened Wrappers
  import opened EndpointStates
  import opened GossipNodes

  datatype NodeStep =
    | HearAck(ack: Ack, order: seq<Endpoint>, now: int)
    | HearAck2(m: ContentMap, order: seq<Endpoint>, now: int)
    | Echo(ep: Endpoint, answered: bool, now: int)
    | Conviction(ep: Endpoint, now: int)
    | Shutdown(ep: Endpoint, now: int)
    | Check(order: seq<Endpoint>, convicted: set<Endpoint>, members: set<Endpoint>, now: int)
    | Removal(ep: Endpoint, now: int)
    | Eviction(ep: Endpoint, now: int)
    | Replacement(ep: Endpoint, now: int)
    | Reset
    | AddSaved(ep: Endpoint, now: int)
    | HeartBeatStep(now: int)
    | Publish(k: ApplicationState, value: string)
    | NewerGeneration(ep: Endpoint)
    | GossipToLive
    | ExpireTime(ep: Endpoint, at: int)
    | ShadowRound(on: bool)

  ghost predicate CanDo(n: Node, s: NodeStep) {
    match s
    case HearAck(ack, order, _) => Enumerates(order, ack.states.Keys)
    case HearAck2(m, order, _) => Enumerates(order, m.Keys)
    case Check(order, _, _, _) => Enumerates(order, n.states.Keys)
    case HeartBeatStep(_) => n.version < INT32_MAX
    case Publish(_, _) => n.version < INT32_MAX && n.self in n.states
    case NewerGeneration(ep) => ep in n.states && n.states[ep].content.hb.generation < INT32_MAX
    case _ => true
  }

  ghost function Do(n: Node, s: NodeStep): Node
    requires CanDo(n, s)
  {
    match s
    case HearAck(ack, order, now) => HandleAck(n, ack, order, now).0
    case HearAck2(m, order, now) => HandleAck2(n, m, order, now)
    case Echo(ep, answered, now) => EchoReply(n, ep, answered, now)
    case Conviction(ep, now) => Convict(n, ep, now)
    case Shutdown(ep, now) => MarkAsShutdown(n, ep, now)
    case Check(order, convicted, members, now) => StatusCheck(n, order, convicted, members, now)
    case Removal(ep, now) => RemoveEndpoint(n, ep, now)
    case Eviction(ep, now) => Evict(n, ep, now)
    case Replacement(ep, now) => ReplacedEndpoint(n, ep, now)
    case Reset => ResetEndpointStateMap(n)
    case AddSaved(ep, now) => AddSavedEndpoint(n, ep, now)
    case HeartBeatStep(now) => Beat(n, now)
    case Publish(k, value) => AddLocalApplicationState(n, k, value)
    case NewerGeneration(ep) => ForceNewerGeneration(n, ep)
    case GossipToLive => PopJustAdded(n)
    case ExpireTime(ep, at) => AddExpireTime(n, ep, at)
    case ShadowRound(on) => n.(inShadowRound := on)
  }

  ghost predicate IsNodeRun(ns: seq<Node>, steps: seq<NodeStep>) {
    && |ns| == |steps| + 1
    && forall i | 0 <= i < |steps| :: CanDo(ns[i], steps[i]) && ns[i+1] == Do(ns[i], steps[i])
  }

  // ------------------------------------------------------------- conviction

  lemma ConvictFrame(n: Node, ep: Endpoint, now: int)
    ensures SameFrame(n, Convict(n, ep, now)) && Convict(n, ep, now).states.Keys == n.states.Keys
    ensures SameFrame(n, MarkAsShutdown(n, ep, now)) && MarkAsShutdown(n, ep, now).states.Keys == n.states.Keys
  {
    if ep in n.states {
      ShutdownStops(n, ep, now);
    }
  }

  // ------------------------------------------------- the membership invariant

  ghost predicate Members(n: Node) {
    && n.live !! n.unreachable.Keys
    && Distinct(n.justAdded)
    && (forall x | x in n.justAdded :: x in n.live)
    && n.unreachable.Keys <= n.states.Keys
  }

  lemma {:induction false} WithoutDistinct(s: seq<Endpoint>, ep: Endpoint)
    requires Distinct(s)
    ensures Distinct(Without(s, ep))
  {
    if s != [] {
      WithoutDistinct(s[1..], ep);
      assert s[0] !in s[1..];
    }
  }

  lemma MarkAliveMembers(n: Node, ep: Endpoint)
    requires Members(n) && ep in n.states
    ensures Members(MarkAlive(n, ep))
  {
  }

  lemma MarkDeadMembers(n: Node, ep: Endpoint, now: int)
    requires ep in n.states && n.unreachable.Keys <= n.states.Keys && n.live !! n.unreachable.Keys
    requires Distinct(n.justAdded) && forall x | x in n.justAdded :: x in n.live
    ensures Members(MarkDead(n, ep, now))
  {
    WithoutDistinct(n.justAdded, ep);
  }

  lemma EchoMembers(n: Node, ep: Endpoint, answered: bool, now: int)
    requires Members(n)
    ensures Members(EchoReply(n, ep, answered, now))
  {
  }

  lemma RemoveMembers(n: Node, ep: Endpoint, now: int)
    requires Members(n)
    ensures Members(RemoveEndpoint(n, ep, now))
  {
    WithoutDistinct(n.justAdded, ep);
  }

  lemma EvictMembers(n: Node, ep: Endpoint, now: int)
    requires Members(n)
    ensures Members(Evict(n, ep, now))
  {
  }

  lemma ConvictMembers(n: Node, ep: Endpoint, now: int)
    requires Members(n)
    ensures Members(Convict(n, ep, now)) && Members(MarkAsShutdown(n, ep, now))
  {
    if ep in n.states {
      ShutdownStops(n, ep, now);
      MarkDeadMembers(n, ep, now);
      MarkDeadMembers(ForceVersion(n, ep), ep, now);
    }
  }

  lemma MajorMembers(n: Node, ep: Endpoint, c: Content, now: int)
    requires Members(n)
    ensures Members(HandleMajorStateChange(n, ep, c, now))
  {
    var n1 := n.(states := n.states[ep := EndpointState(c, now, true)]);
    assert Members(n1);
    MarkAliveMembers(n1, ep);
    MarkDeadMembers(n1, ep, now);
    ConvictMembers(n1, ep, now);
  }

  lemma ApplyEntryMembers(n: Node, ep: Endpoint, remote: Content, now: int)
    requires Members(n)
    ensures Members(ApplyEntry(n, ep, remote, now))
  {
    MajorMembers(n, ep, remote, now);
    if ep in n.states {
      var n1 := Absorb(n, ep, remote, now);
      assert Members(n1);
      MarkAliveMembers(n1, ep);
    }
  }

  lemma {:induction false} ApplyAllMembers(n: Node, m: ContentMap, order: seq<Endpoint>, now: int)
    requires Members(n) && forall x | x in order :: x in m
    ensures Members(ApplyAll(n, m, order, now))
  {
    hide Members, ApplyEntry;
    if order != [] {
      var last := order[|order|-1];
      ApplyAllMembers(n, m, order[..|order|-1], now);
      ApplyEntryMembers(ApplyAll(n, m, order[..|order|-1], now), last, m[last], now);
    }
  }

  lemma HearMembers(n: Node, m: ContentMap, order: seq<Endpoint>, now: int)
    requires Members(n) && Enumerates(order, m.Keys)
    ensures Members(ApplyMessage(n, m, order, now))
  {
    var n1 := NotifyFailureDetector(n, m, now);
    assert n1.states.Keys == n.states.Keys;
    ApplyAllMembers(n1, m, order, now);
  }

  lemma CheckEndpointMembers(n: Node, ep: Endpoint, convicted: bool, isMember: bool, now: int)
    requires Members(n)
    ensures Members(CheckEndpoint(n, ep, convicted, isMember, now))
  {
    hide Members, Convict, RemoveEndpoint, Evict;
    ConvictMembers(n, ep, now);
    var n1 := if convicted then Convict(n, ep, now) else n;
    RemoveMembers(n1, ep, now);
    var n2 := RemoveEndpoint(n1, ep, now);
    EvictMembers(n1, ep, now);
    EvictMembers(n2, ep, now);
    EvictMembers(Evict(n2, ep, now), ep, now);
  }

  lemma {:induction false} CheckAllMembers(n: Node, order: seq<Endpoint>, convicted: set<Endpoint>, members: set<Endpoint>, now: int)
    requires Members(n)
    ensures Members(CheckAll(n, order, convicted, members, now))
  {
    hide Members, CheckEndpoint;
    if order != [] {
      var ep := order[|order|-1];
      CheckAllMembers(n, order[..|order|-1], convicted, members, now);
      CheckEndpointMembers(CheckAll(n, order[..|order|-1], convicted, members, now), ep, ep in convicted, ep in members, now);
    }
  }

  /** add_saved_endpoint keeps the invariant exactly when the endpoint is not currently live. */
  lemma AddSavedMembers(n: Node, ep: Endpoint, now: int)
    requires Members(n)
    ensures Members(AddSavedEndpoint(n, ep, now)) <==> ep == n.self || ep !in n.live
  {
    var n' := AddSavedEndpoint(n, ep, now);
    if ep != n.self {
      assert ep in n'.unreachable.Keys;
    }
  }

  /** Every operation keeps live and unreachable apart, just-added within live, and unreachable within the known. */
  lemma StepKeepsMembers(n: Node, s: NodeStep)
    requires Members(n) && CanDo(n, s)
    requires s.AddSaved? ==> s.ep == n.self || s.ep !in n.live
    ensures Members(Do(n, s))
  {
    match s
    case HearAck(ack, order, now) => HearMembers(n, ack.states, order, now);
    case HearAck2(m, order, now) => HearMembers(n, m, order, now);
    case Echo(ep, answered, now) => EchoMembers(n, ep, answered, now);
    case Conviction(ep, now) => ConvictMembers(n, ep, now);
    case Shutdown(ep, now) => ConvictMembers(n, ep, now);
    case Check(order, convicted, members, now) => CheckAllMembers(n, order, convicted, members, now);
    case Removal(ep, now) => RemoveMembers(n, ep, now);
    case Eviction(ep, now) => EvictMembers(n, ep, now);
    case Replacement(ep, now) => RemoveMembers(n, ep, now); EvictMembers(RemoveEndpoint(n, ep, now), ep, now);
    case AddSaved(ep, now) => AddSavedMembers(n, ep, now);
    case _ =>
  }

  /** ... so it holds after every run from a node that starts with it. */
  lemma {:induction false} MembershipInvariant(ns: seq<Node>, steps: seq<NodeStep>, i: nat)
    requires IsNodeRun(ns, steps) && i < |ns| && Members(ns[0])
    requires forall k | 0 <= k < |steps| && steps[k].AddSaved? :: steps[k].ep == ns[k].self || steps[k].ep !in ns[k].live
    ensures Members(ns[i])
  {
    hide Members, Do, CanDo;
    if i > 0 {
      MembershipInvariant(ns, steps, i - 1);
      StepKeepsMembers(ns[i-1], steps[i-1]);
    }
  }

  // --------------------------------------------------------- monotone knowledge

  ghost predicate NoOlder(x: Option<Content>, y: Option<Content>) {
    x.Some? ==> y.Some? && Leq(KeyOf(x.value), KeyOf(y.value))
  }

  lemma ForcedVersionKey(c: Content)
    ensures Leq(KeyOf(c), KeyOf(Forced(c)))
  {
    MaxVersionUnique(Forced(c), INT32_MAX);
  }

  /** Learning never lowers the key, whatever was received. */
  lemma LearnNeverOlder(shadow: bool, local: Option<Content>, remote: Content)
    ensures NoOlder(local, Some(Learn(shadow, local, remote)))
  {
    if local.Some? {
      ForcedVersionKey(remote);
      var l := local.value;
      var y := Merge(l, remote);
      if MaxVersion(remote) != remote.hb.version {
        var k :| k in remote.apps && remote.apps[k].version == MaxVersion(remote);
        assert y.apps[k].version == MaxVersion(remote);
      }
      assert MaxVersion(y) >= MaxVersion(remote);
    }
  }

  /** The heartbeat version alone can go back: it travels along with newer values. */
  lemma HeartBeatMayGoBack()
    ensures exists l, r :: Learn(false, Some(l), r).hb.version < l.hb.version && NoOlder(Some(l), Some(Learn(false, Some(l), r)))
  {
    var l := Content(HeartBeat(1, 5), map[]);
    var r := Content(HeartBeat(1, 3), map[LOAD := VersionedValue(7, "x")]);
    MaxVersionUnique(l, 5);
    assert r.apps[LOAD].version == 7;
    MaxVersionUnique(r, 7);
    LearnNeverOlder(false, Some(l), r);
    assert Learn(false, Some(l), r).hb.version < l.hb.version;
  }

  lemma HearingNeverOlder(n: Node, m: ContentMap, order: seq<Endpoint>, now: int, ep: Endpoint)
    requires Enumerates(order, m.Keys)
    ensures NoOlder(ContentAt(n, ep), ContentAt(ApplyMessage(n, m, order, now), ep))
  {
    ApplyMessageEffect(n, m, order, now);
    assert ContentAt(ApplyMessage(n, m, order, now), ep) == Heard(n, m, ep);
    if ep in m {
      LearnNeverOlder(n.inShadowRound, ContentAt(n, ep), m[ep]);
    }
  }

  lemma ConvictNeverOlder(n: Node, target: Endpoint, now: int, ep: Endpoint)
    ensures NoOlder(ContentAt(n, ep), ContentAt(Convict(n, target, now), ep))
    ensures NoOlder(ContentAt(n, ep), ContentAt(MarkAsShutdown(n, target, now), ep))
  {
    hide KeyOf;
    if target in n.states {
      ShutdownStops(n, target, now);
      ForcedVersionKey(n.states[target].content);
    }
  }

  /** Status checks may forget ep, but whatever they keep about it is no older. */
  lemma CheckEndpointNeverOlder(n: Node, target: Endpoint, convicted: bool, isMember: bool, now: int, ep: Endpoint)
    requires ep in CheckEndpoint(n, target, convicted, isMember, now).states
    ensures NoOlder(ContentAt(n, ep), ContentAt(CheckEndpoint(n, target, convicted, isMember, now), ep))
  {
    hide KeyOf, Convict, MarkAsShutdown;
    ConvictNeverOlder(n, target, now, ep);
  }

  lemma CheckEndpointAddsNothing(n: Node, target: Endpoint, convicted: bool, isMember: bool, now: int)
    ensures CheckEndpoint(n, target, convicted, isMember, now).states.Keys <= n.states.Keys
  {
    hide Convict;
    ConvictFrame(n, target, now);
  }

  lemma {:induction false} CheckAllNeverOlder(n: Node, order: seq<Endpoint>, convicted: set<Endpoint>, members: set<Endpoint>, now: int, ep: Endpoint)
    requires ep in CheckAll(n, order, convicted, members, now).states
    ensures NoOlder(ContentAt(n, ep), ContentAt(CheckAll(n, order, convicted, members, now), ep))
  {
    hide CheckEndpoint, KeyOf;
    if order != [] {
      var t := order[|order|-1];
      var n1 := CheckAll(n, order[..|order|-1], convicted, members, now);
      CheckEndpointAddsNothing(n1, t, t in convicted, t in members, now);
      CheckEndpointNeverOlder(n1, t, t in convicted, t in members, now, ep);
      CheckAllNeverOlder(n, order[..|order|-1], convicted, members, now, ep);
    }
  }

  /** The steps that can make a node forget ep, or write its saved placeholder over it. */
  predicate MayForget(s: NodeStep, ep: Endpoint) {
    || s.Check? || s.Reset?
    || ((s.Eviction? || s.Replacement? || s.AddSaved?) && s.ep == ep)
  }

  /** Everything else keeps ep known, with a (generation, max version) that never decreases. */
  lemma StepNeverOlder(n: Node, s: NodeStep, ep: Endpoint)
    requires CanDo(n, s) && ep != n.self
    requires MayForget(s, ep) ==> s.Check? && ep in Do(n, s).states
    ensures NoOlder(ContentAt(n, ep), ContentAt(Do(n, s), ep))
  {
    hide KeyOf, Convict, MarkAsShutdown, ApplyMessage, CheckAll, Replies, Enumerates;
    match s
    case HearAck(ack, order, now) => HearingNeverOlder(n, ack.states, order, now, ep);
    case HearAck2(m, order, now) => HearingNeverOlder(n, m, order, now, ep);
    case Conviction(target, now) => ConvictNeverOlder(n, target, now, ep);
    case Shutdown(target, now) => ConvictNeverOlder(n, target, now, ep);
    case Check(order, convicted, members, now) => CheckAllNeverOlder(n, order, convicted, members, now, ep);
    case NewerGeneration(target) => GenerationKey(n.states[target].content);
    case _ =>
  }

  lemma GenerationKey(c: Content)
    requires c.hb.generation < INT32_MAX
    ensures Leq(KeyOf(c), KeyOf(WithGeneration(c, c.hb.generation + 1)))
  {
  }

  /** Monotone knowledge over runs: as long as ep is not forgotten, its key never decreases. */
  lemma {:induction false} MonotoneKnowledge(ns: seq<Node>, steps: seq<NodeStep>, i: nat, j: nat, ep: Endpoint)
    requires IsNodeRun(ns, steps) && i <= j < |ns|
    requires forall k | i <= k <= j :: ep != ns[k].self && ep in ns[k].states
    requires forall k | i <= k < j :: MayForget(steps[k], ep) ==> steps[k].Check?
    ensures Leq(KeyOf(ns[i].states[ep].content), KeyOf(ns[j].states[ep].content))
    decreases j - i
  {
    hide Do, CanDo, KeyOf, MayForget;
    if i < j {
      MonotoneKnowledge(ns, steps, i, j - 1, ep);
      assert CanDo(ns[j-1], steps[j-1]) && ns[j] == Do(ns[j-1], steps[j-1]);
      assert ep in Do(ns[j-1], steps[j-1]).states;
      StepNeverOlder(ns[j-1], steps[j-1], ep);
    }
  }

  // ---------------------------------------------------------------- quarantine

  /** ep is unknown and its quarantine runs from time t or later. */
  ghost predicate Quarantined(n: Node, ep: Endpoint, t: int) {
    ep != n.self && ep !in n.states && ep in n.justRemoved && n.justRemoved[ep] >= t
  }

  /** The steps that restart ep's quarantine, with the time they write. */
  predicate Requarantines(s: NodeStep, ep: Endpoint) {
    (s.Removal? || s.Eviction? || s.Replacement?) && s.ep == ep
  }

  lemma CheckEndpointQuarantine(n: Node, target: Endpoint, convicted: bool, isMember: bool, now: int, ep: Endpoint, t: int)
    requires Quarantined(n, ep, t)
    ensures Quarantined(CheckEndpoint(n, target, convicted, isMember, now), ep, t)
    ensures CheckEndpoint(n, target, convicted, isMember, now).justRemoved[ep] == n.justRemoved[ep]
  {
    hide Convict;
    ConvictFrame(n, target, now);
  }

  lemma {:induction false} CheckAllQuarantine(n: Node, order: seq<Endpoint>, convicted: set<Endpoint>, members: set<Endpoint>, now: int, ep: Endpoint, t: int)
    requires Quarantined(n, ep, t)
    ensures Quarantined(CheckAll(n, order, convicted, members, now), ep, t)
    ensures CheckAll(n, order, convicted, members, now).justRemoved[ep] == n.justRemoved[ep]
  {
    hide CheckEndpoint;
    if order != [] {
      var x := order[|order|-1];
      CheckAllQuarantine(n, order[..|order|-1], convicted, members, now, ep, t);
      CheckEndpointQuarantine(CheckAll(n, order[..|order|-1], convicted, members, now), x, x in convicted, x in members, now, ep, t);
    }
  }

  /** A status check lifts the quarantine exactly when more than the delay has passed. */
  lemma CheckLiftsQuarantine(n: Node, order: seq<Endpoint>, convicted: set<Endpoint>, members: set<Endpoint>, now: int, ep: Endpoint)
    requires ep in n.justRemoved && Quarantined(n, ep, n.justRemoved[ep])
    ensures ep in StatusCheck(n, order, convicted, members, now).justRemoved <==> now <= n.justRemoved[ep] + QUARANTINE_DELAY
    ensures ep !in StatusCheck(n, order, convicted, members, now).states
  {
    CheckAllQuarantine(n, order, convicted, members, now, ep, n.justRemoved[ep]);
  }

  lemma StepKeepsQuarantine(n: Node, s: NodeStep, ep: Endpoint, t: int)
    requires Quarantined(n, ep, t) && CanDo(n, s)
    requires !(s.AddSaved? && s.ep == ep)
    requires Requarantines(s, ep) ==> s.now >= t
    requires s.Check? ==> s.now <= t + QUARANTINE_DELAY
    ensures Quarantined(Do(n, s), ep, t)
  {
    hide Convict, MarkAsShutdown, ApplyMessage, CheckAll, Replies, Enumerates;
    match s
    case HearAck(ack, order, now) => HearQuarantined(n, ack.states, order, now, ep);
    case HearAck2(m, order, now) => HearQuarantined(n, m, order, now, ep);
    case Check(order, convicted, members, now) => CheckAllQuarantine(n, order, convicted, members, now, ep, t);
    case Conviction(target, now) => ConvictFrame(n, target, now);
    case Shutdown(target, now) => ConvictFrame(n, target, now);
    case _ =>
  }

  /** No message puts a quarantined endpoint back. */
  lemma HearQuarantined(n: Node, m: ContentMap, order: seq<Endpoint>, now: int, ep: Endpoint)
    requires ep in n.justRemoved && ep !in n.states && Enumerates(order, m.Keys)
    ensures ep !in ApplyMessage(n, m, order, now).states
    ensures SameFrame(n, ApplyMessage(n, m, order, now))
  {
    ApplyMessageEffect(n, m, order, now);
    assert ContentAt(ApplyMessage(n, m, order, now), ep) == Heard(n, m, ep);
  }

  /**
   Quarantine safety: once ep is quarantined from t on, it stays out of the endpoint map through
   every run until a status check later than t + QUARANTINE_DELAY, provided removals of ep
   are not dated before t and nobody adds it back by hand.
   */
  lemma {:induction false} QuarantineSafety(ns: seq<Node>, steps: seq<NodeStep>, i: nat, j: nat, ep: Endpoint, t: int)
    requires IsNodeRun(ns, steps) && i <= j < |ns| && Quarantined(ns[i], ep, t)
    requires forall k | i <= k < j ::
      && !(steps[k].AddSaved? && steps[k].ep == ep)
      && (Requarantines(steps[k], ep) ==> steps[k].now >= t)
      && (steps[k].Check? ==> steps[k].now <= t + QUARANTINE_DELAY)
    ensures Quarantined(ns[j], ep, t)
    decreases j - i
  {
    hide Do, CanDo, Quarantined;
    if i < j {
      QuarantineSafety(ns, steps, i, j - 1, ep, t);
      StepKeepsQuarantine(ns[j-1], steps[j-1], ep, t);
    }
  }

  /** An evicted endpoint is quarantined from now on; a replaced one from now + QUARANTINE_DELAY on. */
  lemma RemovalQuarantines(n: Node, ep: Endpoint, now: int)
    requires ep != n.self
    ensures Quarantined(Evict(n, ep, now), ep, now)
    ensures Quarantined(ReplacedEndpoint(n, ep, now), ep, now + QUARANTINE_DELAY)
  {
  }

  /**
   The doubled quarantine of a replaced endpoint does not survive a later removal of the same
   endpoint: the quarantine then runs from that removal, which is earlier iff the removal comes
   before the first delay has passed.
   */
  lemma RemovalShortensReplacement(n: Node, ep: Endpoint, t: int, t': int)
    requires ep != n.self
    ensures var n' := RemoveEndpoint(ReplacedEndpoint(n, ep, t), ep, t');
      && Quarantined(n', ep, t')
      && (Quarantined(n', ep, t + QUARANTINE_DELAY) <==> t' >= t + QUARANTINE_DELAY)
  {
  }

  lemma ReturnsWhenHeard(n: Node, ep: Endpoint, c: Content, now: int)
    requires n.enabled && ep != n.self && ep !in n.justRemoved
    ensures ContentAt(HandleAck2(n, map[ep := c], [ep], now), ep).Some?
  {
    var m: ContentMap := map[ep := c];
    assert Enumerates([ep], m.Keys);
    ApplyMessageEffect(n, m, [ep], now);
    assert ContentAt(ApplyMessage(n, m, [ep], now), ep) == Heard(n, m, ep);
  }

  lemma {:induction false} CheckAllEnabled(n: Node, order: seq<Endpoint>, convicted: set<Endpoint>, members: set<Endpoint>, now: int)
    ensures CheckAll(n, order, convicted, members, now).enabled == n.enabled
    ensures CheckAll(n, order, convicted, members, now).self == n.self
  {
    if order != [] {
      var ep := order[|order|-1];
      CheckAllEnabled(n, order[..|order|-1], convicted, members, now);
      var n1 := CheckAll(n, order[..|order|-1], convicted, members, now);
      ConvictFrame(n1, ep, now);
      hide Convict;
    }
  }

  lemma RemovedAfterReplacement(n: Node, ep: Endpoint, t: int, t': int)
    requires ep != n.self
    ensures var n2 := RemoveEndpoint(ReplacedEndpoint(n, ep, t), ep, t');
      && n2.self == n.self && n2.enabled == n.enabled && n2.states.Keys == n.states.Keys - {ep}
      && ep in n2.justRemoved && n2.justRemoved[ep] == t' && Quarantined(n2, ep, t')
  {
  }

  /** A status check after the delay, and then a message about ep. */
  lemma CheckedThenHeard(n: Node, ep: Endpoint, order: seq<Endpoint>, now: int, c: Content)
    requires n.enabled && ep in n.justRemoved && Quarantined(n, ep, n.justRemoved[ep])
    requires n.justRemoved[ep] + QUARANTINE_DELAY < now && Enumerates(order, n.states.Keys)
    ensures ContentAt(HandleAck2(StatusCheck(n, order, {}, {}, now), map[ep := c], [ep], now), ep).Some?
  {
    CheckLiftsQuarantine(n, order, {}, {}, now, ep);
    CheckAllEnabled(n, order, {}, {}, now);
    var n' := StatusCheck(n, order, {}, {}, now);
    assert n'.enabled && n'.self == n.self;
    hide StatusCheck, HandleAck2;
    ReturnsWhenHeard(n', ep, c, now);
  }

  /**
   The same as a run: replaced at t, removed at t', checked more than one delay after that but
   within two delays of the replacement, and the next message brings the endpoint back.
   */
  lemma ReplacedReturnsEarly(n: Node, ep: Endpoint, t: int, t': int, check: int, order: seq<Endpoint>, c: Content)
    returns (ns: seq<Node>, steps: seq<NodeStep>)
    requires n.enabled && ep != n.self && t' + QUARANTINE_DELAY < check <= t + 2 * QUARANTINE_DELAY
    requires Enumerates(order, n.states.Keys - {ep})
    ensures IsNodeRun(ns, steps) && ns[0] == n
    ensures steps == [Replacement(ep, t), Removal(ep, t'), Check(order, {}, {}, check), HearAck2(map[ep := c], [ep], check)]
    ensures ep in ns[4].states
  {
    hide StatusCheck, HandleAck2, ReplacedEndpoint, RemoveEndpoint, Quarantined;
    RemovedAfterReplacement(n, ep, t, t');
    var n1 := ReplacedEndpoint(n, ep, t);
    var n2 := RemoveEndpoint(n1, ep, t');
    CheckedThenHeard(n2, ep, order, check, c);
    var n3 := StatusCheck(n2, order, {}, {}, check);
    var m: ContentMap := map[ep := c];
    assert Enumerates([ep], m.Keys);
    var n4 := HandleAck2(n3, m, [ep], check);
    ns := [n, n1, n2, n3, n4];
    steps := [Replacement(ep, t), Removal(ep, t'), Check(order, {}, {}, check), HearAck2(m, [ep], check)];
  }

  /** A node with one live peer: saving that peer leaves it both live and unreachable. */
  lemma SavingALivePeer()
    ensures var peer := EndpointState(Content(HeartBeat(1, 1), map[]), 0, true);
      var n := Node(1, "c", true, false, map[2 := peer], {2}, [2], {}, map[], map[], map[], 0);
      var n' := AddSavedEndpoint(n, 2, 5);
      Members(n) && 2 in n'.live && 2 in n'.unreachable && !Members(n')
  {
    var peer := EndpointState(Content(HeartBeat(1, 1), map[]), 0, true);
    var n := Node(1, "c", true, false, map[2 := peer], {2}, [2], {}, map[], map[], map[], 0);
    assert 2 in n.states;
    AddSavedMembers(n, 2, 5);
  }
}
