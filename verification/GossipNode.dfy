/**
 One gossiper as a value, and each of its atomic steps as a function on that value.
 The class Gossiper (Gossiper.dfy) implements these steps on mutable fields; the
 theorems about runs are stated over these functions.  (gms/gossiper.cc, gms/gossiper.hh)

 A step that waits for the network is cut at the wait: marking a node alive is
 MarkAlive up to the echo request and EchoReply from the answer on.
 */
module GossipNodes {
  import opened Wrappers
  import opened EndpointStates

  const MAX_GENERATION_DIFFERENCE: int := 86400 * 365
  const QUARANTINE_DELAY: int := 1000
  const FAT_CLIENT_TIMEOUT: int := QUARANTINE_DELAY / 2
  const A_VERY_LONG_TIME: int := 24 * 3 * 3600 * 1000
  const PARTITIONER: string := "partitioner"

  type StateMap = map<Endpoint, EndpointState>
  type ContentMap = map<Endpoint, Content>

  datatype Syn = Syn(clusterId: string, partitioner: string, digests: seq<Digest>)
  datatype Ack = Ack(digests: seq<Digest>, states: ContentMap)

  /** The gossiper of one process; `version` is the process-wide version counter. */
  datatype Node = Node(
    self: Endpoint,
    clusterName: string,
    enabled: bool,
    inShadowRound: bool,
    states: StateMap,
    live: set<Endpoint>,
    justAdded: seq<Endpoint>,
    pending: set<Endpoint>,
    unreachable: map<Endpoint, int>,
    justRemoved: map<Endpoint, int>,
    expireTimes: map<Endpoint, int>,
    version: int32)

  ghost predicate Distinct<T>(s: seq<T>) {
    forall i, j | 0 <= i < j < |s| :: s[i] != s[j]
  }

  /** `order` lists the elements of `all`, each once. */
  ghost predicate Enumerates<T(!new)>(order: seq<T>, all: set<T>) {
    && Distinct(order)
    && (forall x :: x in order <==> x in all)
  }

  lemma SomeEndpoint(s: set<Endpoint>)
    ensures s == {} || exists e :: e in s
  {
    if forall e :: e !in s {
      assert s == {};
    }
  }

  lemma EnumeratesMore<T(!new)>(order: seq<T>, all: set<T>, x: T)
    requires Enumerates(order, all) && x !in all
    ensures Enumerates(order + [x], all + {x})
  {
  }

  /** Whatever order a container is walked in, there is one. */
  lemma {:induction false} EnumerationExists(all: set<Endpoint>) returns (order: seq<Endpoint>)
    ensures Enumerates(order, all)
    decreases all
  {
    if all == {} {
      order := [];
    } else {
      SomeEndpoint(all);
      var x :| x in all;
      var rest := EnumerationExists(all - {x});
      EnumeratesMore(rest, all - {x}, x);
      assert all - {x} + {x} == all;
      order := rest + [x];
    }
  }

  // ----------------------------------------------------------- live and dead

  function Without(s: seq<Endpoint>, ep: Endpoint): (r: seq<Endpoint>)
    ensures forall x :: x in r <==> x in s && x != ep
  {
    if s == [] then [] else (if s[0] == ep then [] else [s[0]]) + Without(s[1..], ep)
  }

  /** mark_alive up to the echo request. */
  function MarkAlive(n: Node, ep: Endpoint): Node
    requires ep in n.states
  {
    if ep in n.pending then n
    else n.(pending := n.pending + {ep}, states := n.states[ep := n.states[ep].(alive := false)])
  }

  function RealMarkAlive(n: Node, ep: Endpoint, now: int): Node
    requires ep in n.states
  {
    n.(states := n.states[ep := n.states[ep].(alive := true, timestamp := now)],
       live := n.live + {ep},
       justAdded := if ep in n.justAdded then n.justAdded else n.justAdded + [ep],
       unreachable := n.unreachable - {ep},
       expireTimes := n.expireTimes - {ep})
  }

  /** The rest of mark_alive, once the echo was answered or failed. */
  function EchoReply(n: Node, ep: Endpoint, answered: bool, now: int): Node {
    var n1 := if answered && ep in n.states then RealMarkAlive(n, ep, now) else n;
    n1.(pending := n1.pending - {ep})
  }

  function MarkDead(n: Node, ep: Endpoint, now: int): Node
    requires ep in n.states
  {
    n.(states := n.states[ep := n.states[ep].(alive := false)],
       live := n.live - {ep},
       justAdded := Without(n.justAdded, ep),
       unreachable := n.unreachable[ep := now])
  }

  /** do_gossip_to_live_member takes a newly added node first. */
  function PopJustAdded(n: Node): Node {
    if n.live == {} || n.justAdded == [] then n else n.(justAdded := n.justAdded[1..])
  }

  // -------------------------------------------------------------- conviction

  function ForceVersion(n: Node, ep: Endpoint): Node
    requires ep in n.states
  {
    n.(states := n.states[ep := n.states[ep].(content := Forced(n.states[ep].content))])
  }

  /** convict and mark_as_shutdown call each other through the failure detector; the alive flag stops them. */
  function Convict(n: Node, ep: Endpoint, now: int): Node
    decreases if ep in n.states && n.states[ep].alive then 2 else 0
  {
    if ep !in n.states || !n.states[ep].alive then n
    else if IsShutdownState(n.states[ep].content) then MarkAsShutdown(n, ep, now)
    else MarkDead(n, ep, now)
  }

  function MarkAsShutdown(n: Node, ep: Endpoint, now: int): Node
    decreases 1
  {
    if ep !in n.states then n else Convict(MarkDead(ForceVersion(n, ep), ep, now), ep, now)
  }

  // ------------------------------------------------------- applying messages

  /**
   A new endpoint or a newer generation.  A shutdown status is acted on at the end, when the echo
   of mark_alive is over; its answer then makes no difference to the endpoint (ShutdownAfterEcho).
   */
  function HandleMajorStateChange(n: Node, ep: Endpoint, c: Content, now: int): Node {
    var n1 := n.(states := n.states[ep := EndpointState(c, now, true)]);
    if n.inShadowRound then n1
    else if IsDeadState(c) then MarkDead(n1, ep, now)
    else if IsShutdownState(c) then MarkAsShutdown(n1, ep, now)
    else MarkAlive(n1, ep)
  }

  predicate TooFarAhead(local: Content, remote: Content) {
    local.hb.generation != 0 && remote.hb.generation > local.hb.generation + MAX_GENERATION_DIFFERENCE
  }

  /** The gossip this node does not listen to: about itself, and about a quarantined endpoint. */
  predicate Ignores(n: Node, ep: Endpoint) {
    (ep == n.self && !n.inShadowRound) || ep in n.justRemoved
  }

  /** The same-generation case: newer values are taken over, anything else is dropped. */
  ghost function Absorb(n: Node, ep: Endpoint, remote: Content, now: int): Node
    requires ep in n.states
  {
    var local := n.states[ep].content;
    if MaxVersion(remote) > MaxVersion(local)
    then n.(states := n.states[ep := n.states[ep].(content := Merge(local, remote), timestamp := now)])
    else n
  }

  function Revive(n: Node, ep: Endpoint): Node
    requires ep in n.states
  {
    if !n.states[ep].alive && !IsDeadState(n.states[ep].content) then MarkAlive(n, ep) else n
  }

  /** One iteration of apply_state_locally. */
  ghost function ApplyEntry(n: Node, ep: Endpoint, remote: Content, now: int): Node {
    if Ignores(n, ep) then n
    else if ep !in n.states then HandleMajorStateChange(n, ep, remote, now)
    else
      var local := n.states[ep].content;
      if TooFarAhead(local, remote) then n
      else if remote.hb.generation > local.hb.generation then HandleMajorStateChange(n, ep, remote, now)
      else if remote.hb.generation < local.hb.generation then n
      else Revive(Absorb(n, ep, remote, now), ep)
  }

  ghost function ApplyAll(n: Node, m: ContentMap, order: seq<Endpoint>, now: int): Node
    requires forall x | x in order :: x in m
  {
    if order == [] then n
    else
      var last := order[|order|-1];
      ApplyEntry(ApplyAll(n, m, order[..|order|-1], now), last, m[last], now)
  }

  /** Does notify_failure_detector count this as news about a known endpoint? */
  ghost predicate IsNews(local: Content, remote: Content) {
    || remote.hb.generation > local.hb.generation
    || (remote.hb.generation == local.hb.generation && remote.hb.version > MaxVersion(local))
  }

  ghost function NotifyFailureDetector(n: Node, m: ContentMap, now: int): Node {
    n.(states := map e | e in n.states ::
                   if e in m && IsNews(n.states[e].content, m[e]) then n.states[e].(timestamp := now) else n.states[e])
  }

  // ---------------------------------------------------------------- handlers

  ghost function DigestOf(states: StateMap, ep: Endpoint): Digest
    requires ep in states
  {
    Digest(ep, states[ep].content.hb.generation, MaxVersion(states[ep].content))
  }

  ghost function MakeDigests(states: StateMap, order: seq<Endpoint>): (ds: seq<Digest>)
    requires forall e | e in order :: e in states
    ensures |ds| == |order|
    ensures forall i | 0 <= i < |order| :: ds[i] == DigestOf(states, order[i])
  {
    seq(|order|, i requires 0 <= i < |order| => DigestOf(states, order[i]))
  }

  ghost predicate UniqueEndpoints(ds: seq<Digest>) {
    forall d, d' | d in ds && d' in ds && d.ep == d'.ep :: d == d'
  }

  lemma DigestsOfStates(states: StateMap, order: seq<Endpoint>)
    requires Enumerates(order, states.Keys)
    ensures UniqueEndpoints(MakeDigests(states, order))
    ensures forall d :: d in MakeDigests(states, order) <==> d.ep in states && d == DigestOf(states, d.ep)
  {
    var ds := MakeDigests(states, order);
    forall d ensures d in ds <==> d.ep in states && d == DigestOf(states, d.ep) {
      if d in ds {
        var i :| 0 <= i < |ds| && ds[i] == d;
        assert order[i] in order;
      }
      if d.ep in states && d == DigestOf(states, d.ep) {
        var i :| 0 <= i < |order| && order[i] == d.ep;
        assert ds[i] == d;
      }
    }
  }

  /** What examine_gossiper decides about one digest. */
  datatype Verdict = InSync | Request(digest: Digest) | Send(floor: int)

  ghost function ExamineOne(states: StateMap, d: Digest): Verdict {
    if d.ep !in states then Request(Digest(d.ep, d.generation, 0))
    else
      var local := states[d.ep].content;
      var max := MaxVersion(local);
      if d.generation > local.hb.generation then Request(Digest(d.ep, d.generation, 0))
      else if d.generation < local.hb.generation then Send(0)
      else if d.maxVersion > max then Request(Digest(d.ep, d.generation, max))
      else if d.maxVersion < max then Send(d.maxVersion)
      else InSync
  }

  ghost function Examine(states: StateMap, ds: seq<Digest>): Ack {
    if ds == [] then Ack([], map[])
    else
      var d := ds[|ds|-1];
      var r := Examine(states, ds[..|ds|-1]);
      match ExamineOne(states, d)
      case InSync => r
      case Request(q) => r.(digests := r.digests + [q])
      case Send(v) =>
        if d.ep in states && Delta(states[d.ep].content, v).Some?
        then r.(states := r.states[d.ep := Delta(states[d.ep].content, v).value])
        else r
  }

  /** The states an ACK2 carries: the first digest of an endpoint that has an answer wins. */
  function Replies(states: StateMap, ds: seq<Digest>): ContentMap {
    if ds == [] then map[]
    else
      var d := ds[|ds|-1];
      var r := Replies(states, ds[..|ds|-1]);
      if d.ep !in r && d.ep in states && Delta(states[d.ep].content, d.maxVersion).Some?
      then r[d.ep := Delta(states[d.ep].content, d.maxVersion).value]
      else r
  }

  function FirstFor(ds: seq<Digest>, ep: Endpoint): (d: Digest)
    requires exists x | x in ds :: x.ep == ep
    ensures d in ds && d.ep == ep
  {
    if ds[0].ep == ep then ds[0] else FirstFor(ds[1..], ep)
  }

  function Abs(x: int): int { if x < 0 then -x else x }

  /** How far a digest is from what this node stores: do_sort's sort key. */
  ghost function Gap(states: StateMap, d: Digest): Key {
    Key(d.generation, Abs((if d.ep in states then MaxVersion(states[d.ep].content) else 0) - d.maxVersion))
  }

  ghost predicate Descending(states: StateMap, p: seq<Digest>) {
    forall i, j | 0 <= i < j < |p| :: Leq(Gap(states, p[j]), Gap(states, p[i]))
  }

  /** `list` is p, a permutation of ds, with each digest replaced by the first one of its endpoint. */
  ghost predicate FirstsOf(ds: seq<Digest>, p: seq<Digest>, list: seq<Digest>) {
    && multiset(p) == multiset(ds)
    && |list| == |p|
    && (forall i | 0 <= i < |p| :: p[i] in ds && list[i] == FirstFor(ds, p[i].ep))
  }

  /** do_sort: the digests by descending gap, each replaced by the first digest of its endpoint. */
  ghost predicate IsSorted(states: StateMap, ds: seq<Digest>, list: seq<Digest>) {
    exists p :: FirstsOf(ds, p, list) && Descending(states, p)
  }

  /** The list handle_syn_msg examines; an empty SYN asks for everything. */
  ghost predicate IsExaminedList(states: StateMap, ds: seq<Digest>, list: seq<Digest>) {
    if ds == [] then
      exists order :: Enumerates(order, states.Keys) && |list| == |order|
                      && forall i | 0 <= i < |order| :: list[i] == Digest(order[i], 0, 0)
    else IsSorted(states, ds, list)
  }

  predicate Accepts(n: Node, syn: Syn) {
    n.enabled && syn.clusterId == n.clusterName && (syn.partitioner == "" || syn.partitioner == PARTITIONER)
  }

  ghost function HandleSyn(n: Node, syn: Syn, list: seq<Digest>): Option<Ack> {
    if Accepts(n, syn) then Some(Examine(n.states, list)) else None
  }

  ghost function ApplyMessage(n: Node, m: ContentMap, order: seq<Endpoint>, now: int): Node
    requires forall x | x in order :: x in m
  {
    ApplyAll(NotifyFailureDetector(n, m, now), m, order, now)
  }

  ghost function HandleAck(n: Node, ack: Ack, order: seq<Endpoint>, now: int): (r: (Node, Option<ContentMap>))
    requires forall x | x in order :: x in ack.states
  {
    if !n.enabled && !n.inShadowRound then (n, None)
    else
      var n1 := ApplyMessage(n, ack.states, order, now);
      if n1.inShadowRound then (n1.(inShadowRound := false), None)
      else (n1, Some(Replies(n1.states, ack.digests)))
  }

  ghost function HandleAck2(n: Node, m: ContentMap, order: seq<Endpoint>, now: int): Node
    requires forall x | x in order :: x in m
  {
    if n.enabled then ApplyMessage(n, m, order, now) else n
  }

  // ------------------------------------------------------------ own updates

  /** run(): a fresh version for the own heartbeat. */
  function Beat(n: Node, now: int): Node
    requires n.version < INT32_MAX
  {
    var mine := if n.self in n.states then n.states[n.self]
                else EndpointState(Content(HeartBeat(0, 0), map[]), now, true);
    n.(version := n.version + 1,
       states := n.states[n.self := mine.(content := WithHeartBeatVersion(mine.content, n.version + 1))])
  }

  /** Constructing a versioned value draws a version whether or not the value is published. */
  function DrawVersion(n: Node): Node
    requires n.version < INT32_MAX
  {
    n.(version := n.version + 1)
  }

  /** add_local_application_state, with the version drawn again just before publishing. */
  function AddLocalApplicationState(n: Node, k: ApplicationState, value: string): Node
    requires n.version < INT32_MAX && n.self in n.states
  {
    var mine := n.states[n.self];
    n.(version := n.version + 1,
       states := n.states[n.self := mine.(content := WithValue(mine.content, k, VersionedValue(n.version + 1, value)))])
  }

  function ForceNewerGeneration(n: Node, ep: Endpoint): Node
    requires ep in n.states && n.states[ep].content.hb.generation < INT32_MAX
  {
    var s := n.states[ep];
    n.(states := n.states[ep := s.(content := WithGeneration(s.content, s.content.hb.generation + 1))])
  }

  // ---------------------------------------------------------------- removal

  function Quarantine(n: Node, ep: Endpoint, until: int): Node {
    n.(justRemoved := n.justRemoved[ep := until])
  }

  function RemoveEndpoint(n: Node, ep: Endpoint, now: int): Node {
    Quarantine(n.(live := n.live - {ep}, justAdded := Without(n.justAdded, ep), unreachable := n.unreachable - {ep}),
               ep, now)
  }

  function Evict(n: Node, ep: Endpoint, now: int): Node {
    Quarantine(n.(unreachable := n.unreachable - {ep}, states := n.states - {ep}, expireTimes := n.expireTimes - {ep}),
               ep, now)
  }

  function ReplacedEndpoint(n: Node, ep: Endpoint, now: int): Node {
    Quarantine(Evict(RemoveEndpoint(n, ep, now), ep, now), ep, now + QUARANTINE_DELAY)
  }

  function ResetEndpointStateMap(n: Node): Node {
    n.(states := map[], unreachable := map[], live := {}, justAdded := [])
  }

  function AddSavedEndpoint(n: Node, ep: Endpoint, now: int): Node {
    if ep == n.self then n
    else
      var apps := if ep in n.states then n.states[ep].content.apps else map[];
      n.(states := n.states[ep := EndpointState(Content(HeartBeat(0, 0), apps), now, false)],
         unreachable := n.unreachable[ep := now])
  }

  function AddExpireTime(n: Node, ep: Endpoint, at: int): Node {
    n.(expireTimes := n.expireTimes[ep := at])
  }

  // ------------------------------------------------------------ status check

  /** The part of do_status_check about one endpoint; `convicted` is the failure detector's answer. */
  function CheckEndpoint(n: Node, ep: Endpoint, convicted: bool, isMember: bool, now: int): Node {
    if ep == n.self || ep !in n.states then n
    else
      var wasAlive := n.states[ep].alive;
      var n1 := if convicted then Convict(n, ep, now) else n;
      var isFatClient := ep in n1.states && !IsDeadState(n1.states[ep].content) && !isMember;
      var n2 := if isFatClient && ep !in n1.justRemoved && now - n1.states[ep].timestamp > FAT_CLIENT_TIMEOUT
                then Evict(RemoveEndpoint(n1, ep, now), ep, now)
                else n1;
      var expire := if ep in n2.expireTimes then n2.expireTimes[ep] else now + A_VERY_LONG_TIME;
      if !wasAlive && now > expire && isMember then Evict(n2, ep, now) else n2
  }

  function CheckAll(n: Node, order: seq<Endpoint>, convicted: set<Endpoint>, members: set<Endpoint>, now: int): Node {
    if order == [] then n
    else
      var ep := order[|order|-1];
      CheckEndpoint(CheckAll(n, order[..|order|-1], convicted, members, now), ep, ep in convicted, ep in members, now)
  }

  function StatusCheck(n: Node, order: seq<Endpoint>, convicted: set<Endpoint>, members: set<Endpoint>, now: int): Node {
    var n1 := CheckAll(n, order, convicted, members, now);
    n1.(justRemoved := map e | e in n1.justRemoved && now - n1.justRemoved[e] <= QUARANTINE_DELAY :: n1.justRemoved[e])
  }

  // ------------------------------------------- the effect on stored contents

  /** What a major state change stores: a shutdown status forces the heartbeat version, except in a shadow round. */
  function Joined(shadow: bool, c: Content): Content {
    if !shadow && IsShutdownState(c) then Forced(c) else c
  }

  /** A node that stores l hears of c as a new endpoint or in another generation. */
  predicate IsMajor(l: Option<Content>, c: Content) {
    l.None? || l.value.hb.generation != c.hb.generation
  }

  /** What a node stores about ep after hearing `remote`, as one expression. */
  ghost function Learn(shadow: bool, local: Option<Content>, remote: Content): Content {
    match local
    case None => Joined(shadow, remote)
    case Some(l) =>
      if TooFarAhead(l, remote) then l
      else if remote.hb.generation > l.hb.generation then Joined(shadow, remote)
      else if remote.hb.generation == l.hb.generation && MaxVersion(remote) > MaxVersion(l) then Merge(l, remote)
      else l
  }

  function ContentAt(n: Node, ep: Endpoint): Option<Content> {
    if ep in n.states then Some(n.states[ep].content) else None
  }

  ghost function Heard(n: Node, m: ContentMap, ep: Endpoint): Option<Content> {
    if ep in m && !Ignores(n, ep) then Some(Learn(n.inShadowRound, ContentAt(n, ep), m[ep])) else ContentAt(n, ep)
  }

  ghost predicate SameFrame(n: Node, n': Node) {
    && n'.self == n.self && n'.clusterName == n.clusterName
    && n'.enabled == n.enabled && n'.inShadowRound == n.inShadowRound
    && n'.justRemoved == n.justRemoved && n'.version == n.version
  }

  ghost predicate SameContents(n: Node, n': Node) {
    SameFrame(n, n') && forall e :: ContentAt(n', e) == ContentAt(n, e)
  }

  /** Only the content stored for ep changed, to c. */
  ghost predicate OnlyAt(n: Node, n': Node, ep: Endpoint, c: Content) {
    SameFrame(n, n') && forall e :: ContentAt(n', e) == if e == ep then Some(c) else ContentAt(n, e)
  }

  lemma MarkAliveEffect(n: Node, ep: Endpoint)
    requires ep in n.states
    ensures SameContents(n, MarkAlive(n, ep))
  {
  }

  lemma MarkDeadEffect(n: Node, ep: Endpoint, now: int)
    requires ep in n.states
    ensures SameContents(n, MarkDead(n, ep, now))
  {
  }

  /** convict and mark_as_shutdown terminate: the forced conviction finds the alive flag already cleared. */
  lemma ShutdownStops(n: Node, ep: Endpoint, now: int)
    requires ep in n.states
    ensures MarkAsShutdown(n, ep, now) == MarkDead(ForceVersion(n, ep), ep, now)
  {
  }

  lemma MajorEffect(n: Node, ep: Endpoint, c: Content, now: int)
    ensures OnlyAt(n, HandleMajorStateChange(n, ep, c, now), ep, Joined(n.inShadowRound, c))
  {
    var n1 := n.(states := n.states[ep := EndpointState(c, now, true)]);
    var n2 := ForceVersion(n1, ep);
    ShutdownStops(n1, ep, now);
    hide MarkAlive, MarkDead, MarkAsShutdown;
    MarkAliveEffect(n1, ep);
    MarkDeadEffect(n1, ep, now);
    MarkDeadEffect(n2, ep, now);
    assert OnlyAt(n, n1, ep, c) && OnlyAt(n, n2, ep, Forced(c));
  }

  /**
   Exactly when a major state change stores what was received: in a shadow round, or when the
   status is not shutdown, or when the version is the highest one anyway.
   */
  lemma MajorChangeKeepsContent(n: Node, ep: Endpoint, c: Content, now: int)
    ensures ContentAt(HandleMajorStateChange(n, ep, c, now), ep) == Some(c) <==>
            n.inShadowRound || !IsShutdownState(c) || c.hb.version == INT32_MAX
  {
    MajorEffect(n, ep, c, now);
  }

  lemma {:induction false} WithoutAppended(s: seq<Endpoint>, ep: Endpoint)
    ensures Without(s + [ep], ep) == Without(s, ep)
  {
    if s == [] {
      assert s + [ep] == [ep];
    } else {
      assert (s + [ep])[1..] == s[1..] + [ep];
      WithoutAppended(s[1..], ep);
    }
  }

  lemma EchoOver(n: Node, ep: Endpoint, answered: bool, now: int)
    requires ep in n.states && ep !in n.pending
    ensures EchoReply(MarkAlive(n, ep), ep, answered, now) ==
      if answered then RealMarkAlive(n, ep, now) else n.(states := n.states[ep := n.states[ep].(alive := false)])
  {
    assert n.pending + {ep} - {ep} == n.pending;
    var dead := n.states[ep := n.states[ep].(alive := false)];
    assert dead[ep := dead[ep].(alive := true, timestamp := now)] == n.states[ep := n.states[ep].(alive := true, timestamp := now)];
  }

  lemma DeadAfterAlive(n: Node, ep: Endpoint, now: int)
    requires ep in n.states && n.states[ep].timestamp == now
    ensures MarkDead(RealMarkAlive(n, ep, now), ep, now) == MarkDead(n, ep, now).(expireTimes := n.expireTimes - {ep})
  {
    WithoutAppended(n.justAdded, ep);
    assert (n.unreachable - {ep})[ep := now] == n.unreachable[ep := now];
    assert n.live + {ep} - {ep} == n.live - {ep};
    var s := n.states[ep];
    assert n.states[ep := s.(alive := true, timestamp := now)][ep := s.(alive := false)] == n.states[ep := s.(alive := false)];
  }

  lemma ForceAfterAlive(n: Node, ep: Endpoint, now: int)
    requires ep in n.states
    ensures ForceVersion(RealMarkAlive(n, ep, now), ep) == RealMarkAlive(ForceVersion(n, ep), ep, now)
    ensures ForceVersion(n, ep).states[ep].timestamp == n.states[ep].timestamp
    ensures MarkDead(ForceVersion(n, ep), ep, now).expireTimes == ForceVersion(n, ep).expireTimes == n.expireTimes
  {
  }

  lemma ForceAfterFailure(n: Node, ep: Endpoint, now: int)
    requires ep in n.states
    ensures var m := n.(states := n.states[ep := n.states[ep].(alive := false)]);
      MarkDead(ForceVersion(m, ep), ep, now) == MarkDead(ForceVersion(n, ep), ep, now)
  {
    var m := n.(states := n.states[ep := n.states[ep].(alive := false)]);
    assert MarkDead(ForceVersion(m, ep), ep, now).states == MarkDead(ForceVersion(n, ep), ep, now).states;
  }

  /**
   The order in which the source does it: mark_alive, the echo, its answer or failure, and then
   the shutdown.  Only the expiry entry can tell whether the echo was answered.
   */
  lemma ShutdownAfterEcho(n: Node, ep: Endpoint, answered: bool, now: int)
    requires ep in n.states && n.states[ep].timestamp == now && ep !in n.pending
    ensures var n1, n2 := MarkAsShutdown(n, ep, now), MarkAsShutdown(EchoReply(MarkAlive(n, ep), ep, answered, now), ep, now);
      n2 == if answered then n1.(expireTimes := n1.expireTimes - {ep}) else n1
  {
    var m := EchoReply(MarkAlive(n, ep), ep, answered, now);
    EchoOver(n, ep, answered, now);
    ShutdownStops(n, ep, now);
    ShutdownStops(m, ep, now);
    assert ep in ForceVersion(n, ep).states && ep in ForceVersion(m, ep).states;
    hide MarkAsShutdown, EchoReply, MarkAlive, MarkDead, RealMarkAlive, ForceVersion;
    if answered {
      ForceAfterAlive(n, ep, now);
      DeadAfterAlive(ForceVersion(n, ep), ep, now);
    } else {
      ForceAfterFailure(n, ep, now);
    }
  }

  lemma AbsorbEffect(n: Node, ep: Endpoint, remote: Content, now: int)
    requires ep in n.states && remote.hb.generation == n.states[ep].content.hb.generation
    ensures OnlyAt(n, Absorb(n, ep, remote, now), ep, Learn(n.inShadowRound, Some(n.states[ep].content), remote))
  {
  }

  lemma ApplyEntryEffect(n: Node, ep: Endpoint, remote: Content, now: int)
    ensures Ignores(n, ep) ==> ApplyEntry(n, ep, remote, now) == n
    ensures !Ignores(n, ep) ==> OnlyAt(n, ApplyEntry(n, ep, remote, now), ep, Learn(n.inShadowRound, ContentAt(n, ep), remote))
  {
    if !Ignores(n, ep) {
      if ep !in n.states || remote.hb.generation != n.states[ep].content.hb.generation {
        MajorEffect(n, ep, remote, now);
      } else {
        AbsorbEffect(n, ep, remote, now);
        MarkAliveEffect(Absorb(n, ep, remote, now), ep);
      }
    }
  }

  /** Hearing a message changes every stored content independently of the order of its entries. */
  lemma {:induction false} ApplyAllEffect(n: Node, m: ContentMap, order: seq<Endpoint>, now: int)
    requires Distinct(order) && forall x | x in order :: x in m
    ensures SameFrame(n, ApplyAll(n, m, order, now))
    ensures forall e | e in order :: ContentAt(ApplyAll(n, m, order, now), e) == Heard(n, m, e)
    ensures forall e | e !in order :: ContentAt(ApplyAll(n, m, order, now), e) == ContentAt(n, e)
  {
    hide ApplyEntry, Learn;
    if order != [] {
      var front, last := order[..|order|-1], order[|order|-1];
      ApplyAllEffect(n, m, front, now);
      assert last !in front;
      ApplyEntryEffect(ApplyAll(n, m, front, now), last, m[last], now);
      assert order == front + [last];
      assert forall e :: e in order <==> e in front || e == last;
    }
  }

  lemma ApplyMessageEffect(n: Node, m: ContentMap, order: seq<Endpoint>, now: int)
    requires Enumerates(order, m.Keys)
    ensures SameFrame(n, ApplyMessage(n, m, order, now))
    ensures forall e :: ContentAt(ApplyMessage(n, m, order, now), e) == Heard(n, m, e)
  {
    var n1 := NotifyFailureDetector(n, m, now);
    ApplyAllEffect(n1, m, order, now);
    assert forall e :: ContentAt(n1, e) == ContentAt(n, e);
  }

  // ------------------------------------------------- what a status check leaves

  /** n' has forgotten some endpoints of n at most, and stores the same about the others. */
  ghost predicate Keeps(n: Node, n': Node) {
    && n'.self == n.self && n'.clusterName == n.clusterName && n'.version == n.version
    && n'.enabled == n.enabled && n'.inShadowRound == n.inShadowRound
    && (forall e | e in n'.states :: e in n.states && n'.states[e].content == n.states[e].content)
  }

  ghost predicate NoneShutDown(n: Node) {
    forall e | e in n.states :: !IsShutdownState(n.states[e].content)
  }

  lemma ConvictKeeps(n: Node, ep: Endpoint, now: int)
    requires ep in n.states ==> !IsShutdownState(n.states[ep].content)
    ensures Keeps(n, Convict(n, ep, now)) && Convict(n, ep, now).states.Keys == n.states.Keys
  {
  }

  lemma EvictKeeps(n: Node, ep: Endpoint, now: int)
    ensures Keeps(n, Evict(n, ep, now)) && Keeps(n, RemoveEndpoint(n, ep, now))
  {
  }

  lemma CheckEndpointKeeps(n: Node, ep: Endpoint, convicted: bool, isMember: bool, now: int)
    requires NoneShutDown(n)
    ensures Keeps(n, CheckEndpoint(n, ep, convicted, isMember, now))
  {
    hide Convict, Evict, RemoveEndpoint;
    ConvictKeeps(n, ep, now);
    var n1 := if convicted then Convict(n, ep, now) else n;
    EvictKeeps(n1, ep, now);
    EvictKeeps(RemoveEndpoint(n1, ep, now), ep, now);
    EvictKeeps(Evict(RemoveEndpoint(n1, ep, now), ep, now), ep, now);
  }

  /** Without shutdown statuses a status check rewrites nothing; it can only forget. */
  lemma {:induction false} CheckAllKeeps(n: Node, order: seq<Endpoint>, convicted: set<Endpoint>, members: set<Endpoint>, now: int)
    requires NoneShutDown(n)
    ensures Keeps(n, CheckAll(n, order, convicted, members, now))
  {
    hide CheckEndpoint;
    if order != [] {
      var ep := order[|order|-1];
      CheckAllKeeps(n, order[..|order|-1], convicted, members, now);
      CheckEndpointKeeps(CheckAll(n, order[..|order|-1], convicted, members, now), ep, ep in convicted, ep in members, now);
    }
  }

  // ------------------------------------------------ what handlers put in messages

  /** Where the entries of an ACK come from. */
  lemma {:induction false} ExamineEffect(states: StateMap, ds: seq<Digest>)
    ensures var r := Examine(states, ds);
      && (forall q | q in r.digests :: exists d | d in ds :: d.ep == q.ep && ExamineOne(states, d) == Request(q))
      && (forall e | e in r.states :: e in states && exists d | d in ds ::
            d.ep == e && ExamineOne(states, d).Send?
            && Delta(states[e].content, ExamineOne(states, d).floor) == Some(r.states[e]))
  {
    if ds != [] {
      ExamineEffect(states, ds[..|ds|-1]);
      assert ds == ds[..|ds|-1] + [ds[|ds|-1]];
    }
  }

  lemma {:induction false} RepliesEffect(states: StateMap, ds: seq<Digest>)
    ensures forall e | e in Replies(states, ds) :: e in states && exists d | d in ds ::
              d.ep == e && Delta(states[e].content, d.maxVersion) == Some(Replies(states, ds)[e])
  {
    if ds != [] {
      RepliesEffect(states, ds[..|ds|-1]);
      assert ds == ds[..|ds|-1] + [ds[|ds|-1]];
    }
  }

  lemma SortedFromDigests(states: StateMap, ds: seq<Digest>, list: seq<Digest>)
    requires IsSorted(states, ds, list)
    ensures forall d | d in list :: d in ds
  {
  }
}
