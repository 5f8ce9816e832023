/**
 Who is taken for alive and who for gone: what messages, echoes, convictions and status checks
 do to one endpoint, in terms of the status text it announces.  Every one of these operations
 treats endpoints independently, so the effect on one does not depend on the others.
 */
module Liveness {
  import opened Wrappers
  import opened EndpointStates
  import opened GossipNodes

  /** Everything a node keeps about one endpoint. */
  datatype Standing = Standing(
    state: Option<EndpointState>, live: bool, justAdded: bool, pending: bool,
    unreachable: Option<int>, removed: Option<int>, expires: Option<int>)

  function Lookup<T>(m: map<Endpoint, T>, e: Endpoint): Option<T> {
    if e in m then Some(m[e]) else None
  }

  function StandingOf(n: Node, e: Endpoint): Standing {
    Standing(Lookup(n.states, e), e in n.live, e in n.justAdded, e in n.pending,
             Lookup(n.unreachable, e), Lookup(n.justRemoved, e), Lookup(n.expireTimes, e))
  }

  predicate SameNode(n: Node, n': Node) {
    n.self == n'.self && n.inShadowRound == n'.inShadowRound
  }

  /** n and n' are the same node and keep the same about e. */
  predicate Alike(n: Node, n': Node, e: Endpoint) {
    SameNode(n, n') && StandingOf(n, e) == StandingOf(n', e)
  }

  // ------------------------------------------------------------ independence

  lemma MarkAliveElsewhere(n: Node, ep: Endpoint, e: Endpoint)
    requires ep in n.states && e != ep
    ensures Alike(n, MarkAlive(n, ep), e)
  {
  }

  lemma MarkDeadElsewhere(n: Node, ep: Endpoint, now: int, e: Endpoint)
    requires ep in n.states && e != ep
    ensures Alike(n, MarkDead(n, ep, now), e)
  {
  }

  lemma ShutdownElsewhere(n: Node, ep: Endpoint, now: int, e: Endpoint)
    requires e != ep
    ensures Alike(n, MarkAsShutdown(n, ep, now), e) && Alike(n, Convict(n, ep, now), e)
  {
    if ep in n.states {
      ShutdownStops(n, ep, now);
      MarkDeadElsewhere(ForceVersion(n, ep), ep, now, e);
      MarkDeadElsewhere(n, ep, now, e);
      assert Alike(n, ForceVersion(n, ep), e);
    }
  }

  lemma StoredElsewhere(n: Node, ep: Endpoint, x: EndpointState, e: Endpoint)
    requires e != ep
    ensures Alike(n, n.(states := n.states[ep := x]), e)
  {
  }

  lemma EntryElsewhere(n: Node, ep: Endpoint, c: Content, now: int, e: Endpoint)
    requires e != ep
    ensures Alike(n, ApplyEntry(n, ep, c, now), e)
  {
    hide MarkAlive, MarkDead, MarkAsShutdown, IsDeadState, IsShutdownState, StandingOf, MaxVersion;
    var x := EndpointState(c, now, true);
    var n1 := n.(states := n.states[ep := x]);
    StoredElsewhere(n, ep, x, e);
    MarkAliveElsewhere(n1, ep, e);
    MarkDeadElsewhere(n1, ep, now, e);
    ShutdownElsewhere(n1, ep, now, e);
    if ep in n.states {
      var n2 := Absorb(n, ep, c, now);
      StoredElsewhere(n, ep, n.states[ep].(content := Merge(n.states[ep].content, c), timestamp := now), e);
      MarkAliveElsewhere(n2, ep, e);
    }
  }

  /** What marking alive and dead do to what is kept about the endpoint. */
  function Marked(s: Standing): Standing
    requires s.state.Some?
  {
    if s.pending then s else s.(pending := true, state := Some(s.state.value.(alive := false)))
  }

  function Dead(s: Standing, now: int): Standing
    requires s.state.Some?
  {
    s.(state := Some(s.state.value.(alive := false)), live := false, justAdded := false, unreachable := Some(now))
  }

  lemma MarkedAt(n: Node, ep: Endpoint)
    requires ep in n.states
    ensures SameNode(n, MarkAlive(n, ep)) && StandingOf(MarkAlive(n, ep), ep) == Marked(StandingOf(n, ep))
  {
  }

  lemma DeadAt(n: Node, ep: Endpoint, now: int)
    requires ep in n.states
    ensures SameNode(n, MarkDead(n, ep, now)) && StandingOf(MarkDead(n, ep, now), ep) == Dead(StandingOf(n, ep), now)
  {
  }

  lemma AlikeMarked(n: Node, n': Node, ep: Endpoint, now: int)
    requires Alike(n, n', ep) && ep in n.states
    ensures ep in n'.states && n'.states[ep] == n.states[ep]
    ensures Alike(MarkAlive(n, ep), MarkAlive(n', ep), ep)
    ensures Alike(MarkDead(n, ep, now), MarkDead(n', ep, now), ep)
  {
    assert StandingOf(n', ep).state == Some(n.states[ep]);
    hide MarkAlive, MarkDead, StandingOf;
    MarkedAt(n, ep);
    MarkedAt(n', ep);
    DeadAt(n, ep, now);
    DeadAt(n', ep, now);
  }

  lemma StoredAlike(n: Node, n': Node, ep: Endpoint, x: EndpointState)
    requires Alike(n, n', ep)
    ensures Alike(n.(states := n.states[ep := x]), n'.(states := n'.states[ep := x]), ep)
  {
    assert StandingOf(n.(states := n.states[ep := x]), ep) == StandingOf(n, ep).(state := Some(x));
    assert StandingOf(n'.(states := n'.states[ep := x]), ep) == StandingOf(n', ep).(state := Some(x));
  }

  lemma ShutdownAlike(n: Node, n': Node, ep: Endpoint, now: int)
    requires Alike(n, n', ep)
    ensures Alike(MarkAsShutdown(n, ep, now), MarkAsShutdown(n', ep, now), ep)
    ensures Alike(Convict(n, ep, now), Convict(n', ep, now), ep)
  {
    if ep in n.states {
      AlikeMarked(n, n', ep, now);
      ShutdownStops(n, ep, now);
      ShutdownStops(n', ep, now);
      StoredAlike(n, n', ep, n.states[ep].(content := Forced(n.states[ep].content)));
      AlikeMarked(ForceVersion(n, ep), ForceVersion(n', ep), ep, now);
      hide MarkDead, StandingOf, IsShutdownState;
    }
  }

  lemma MajorAlike(n: Node, n': Node, ep: Endpoint, c: Content, now: int)
    requires Alike(n, n', ep)
    ensures Alike(HandleMajorStateChange(n, ep, c, now), HandleMajorStateChange(n', ep, c, now), ep)
  {
    hide MarkAlive, MarkDead, MarkAsShutdown, IsDeadState, IsShutdownState, StandingOf;
    var x := EndpointState(c, now, true);
    StoredAlike(n, n', ep, x);
    var n1, n1' := n.(states := n.states[ep := x]), n'.(states := n'.states[ep := x]);
    AlikeMarked(n1, n1', ep, now);
    ShutdownAlike(n1, n1', ep, now);
  }

  lemma NewsAlike(n: Node, n': Node, ep: Endpoint, c: Content, now: int)
    requires Alike(n, n', ep) && ep in n.states && ep in n'.states && n'.states[ep] == n.states[ep]
    ensures Alike(Revive(Absorb(n, ep, c, now), ep), Revive(Absorb(n', ep, c, now), ep), ep)
  {
    hide MarkAlive, MarkDead, IsDeadState, StandingOf, MaxVersion;
    var x := n.states[ep].(content := Merge(n.states[ep].content, c), timestamp := now);
    StoredAlike(n, n', ep, x);
    AlikeMarked(Absorb(n, ep, c, now), Absorb(n', ep, c, now), ep, now);
  }

  /** What an entry does to its endpoint depends on what the node keeps about that endpoint only. */
  lemma EntryAlike(n: Node, n': Node, ep: Endpoint, c: Content, now: int)
    requires Alike(n, n', ep)
    ensures Alike(ApplyEntry(n, ep, c, now), ApplyEntry(n', ep, c, now), ep)
  {
    assert Ignores(n, ep) <==> Ignores(n', ep);
    assert ep in n.states <==> ep in n'.states;
    hide HandleMajorStateChange, Revive, Absorb, Ignores, StandingOf;
    MajorAlike(n, n', ep, c, now);
    if ep in n.states {
      AlikeMarked(n, n', ep, now);
      NewsAlike(n, n', ep, c, now);
    }
  }

  lemma {:induction false} ApplyAllAt(n: Node, m: ContentMap, order: seq<Endpoint>, now: int, e: Endpoint)
    requires Distinct(order) && forall x | x in order :: x in m
    ensures Alike(if e in order then ApplyEntry(n, e, m[e], now) else n, ApplyAll(n, m, order, now), e)
  {
    hide ApplyEntry, StandingOf;
    if order != [] {
      var front, last := order[..|order|-1], order[|order|-1];
      assert order == front + [last] && last !in front;
      ApplyAllAt(n, m, front, now, e);
      var n1 := ApplyAll(n, m, front, now);
      if e == last {
        EntryAlike(n, n1, e, m[e], now);
      } else {
        EntryElsewhere(n1, last, m[last], now, e);
      }
    }
  }

  /** A stamp is the only trace notify_failure_detector leaves. */
  lemma NotifiedAt(n: Node, m: ContentMap, now: int, e: Endpoint)
    ensures var n1 := NotifyFailureDetector(n, m, now);
      && SameNode(n, n1) && (e in n1.states <==> e in n.states)
      && (e in n.states ==> n1.states[e].content == n.states[e].content && n1.states[e].alive == n.states[e].alive)
      && StandingOf(n1, e) == StandingOf(n, e).(state := Lookup(n1.states, e))
  {
  }

  // ---------------------------------------------------------------- messages

  /** Generations are start times in seconds; one more than a year ahead is absurd. */
  const YEAR: int := 31_536_000

  /** ep is heard of as new, or in a newer generation that is not absurd, and not ignored. */
  predicate Joins(n: Node, ep: Endpoint, c: Content) {
    && ep != n.self && ep !in n.justRemoved
    && (ep in n.states ==>
          var g := n.states[ep].content.hb.generation;
          g < c.hb.generation && (g == 0 || c.hb.generation <= g + YEAR))
  }

  const LEFT: string := "LEFT"
  const HIBERNATE: string := "hibernate"

  /** Not live, not waiting to be gossiped to, and unreachable since `now`. */
  predicate IsDown(n: Node, ep: Endpoint, now: int) {
    && ep in n.states && !n.states[ep].alive && ep !in n.live && ep !in n.justAdded
    && ep in n.unreachable && n.unreachable[ep] == now
  }

  predicate IsUp(n: Node, ep: Endpoint) {
    ep in n.states && n.states[ep].alive && ep in n.live && ep in n.justAdded && ep !in n.unreachable && ep !in n.pending
  }

  lemma EntryJoins(n: Node, ep: Endpoint, c: Content, now: int)
    requires Joins(n, ep, c) && !n.inShadowRound
    ensures var n', status := ApplyEntry(n, ep, c, now), GossipStatus(c);
      if status == LEFT || status == HIBERNATE || status == SHUTDOWN
      then IsDown(n', ep, now) && (ep in n'.pending <==> ep in n.pending)
      else ep in n'.pending && ep in n'.states && (ep in n'.live <==> ep in n.live)
  {
    hide FirstPiece;
    var n1 := n.(states := n.states[ep := EndpointState(c, now, true)]);
    ShutdownStops(n1, ep, now);
  }

  /** Alike nodes agree on everything said about ep here. */
  lemma AlikeFacts(n: Node, n': Node, ep: Endpoint, now: int)
    requires Alike(n, n', ep)
    ensures IsDown(n, ep, now) <==> IsDown(n', ep, now)
    ensures IsUp(n, ep) <==> IsUp(n', ep)
    ensures (ep in n.pending <==> ep in n'.pending) && (ep in n.live <==> ep in n'.live)
    ensures (ep in n.states <==> ep in n'.states) && (ep in n.states ==> n.states[ep] == n'.states[ep])
    ensures (ep in n.unreachable <==> ep in n'.unreachable) && (ep in n.justAdded <==> ep in n'.justAdded)
  {
  }

  /** The three handlers that hear states hear them in the same way. */
  lemma HandlersApply(n: Node, m: ContentMap, ds: seq<Digest>, order: seq<Endpoint>, now: int)
    requires Enumerates(order, m.Keys) && n.enabled && !n.inShadowRound
    ensures HandleAck2(n, m, order, now) == ApplyMessage(n, m, order, now)
    ensures HandleAck(n, Ack(ds, m), order, now).0 == ApplyMessage(n, m, order, now)
  {
    ApplyMessageEffect(n, m, order, now);
  }

  /**
   An endpoint heard of as new or restarted is down if its status says it left, hibernates or
   has shut down; otherwise it waits for an echo, and an answered echo brings it up.
   */
  lemma JoiningEndpoint(n: Node, m: ContentMap, order: seq<Endpoint>, now: int, ep: Endpoint, later: int)
    requires Enumerates(order, m.Keys) && n.enabled && !n.inShadowRound && ep in m && Joins(n, ep, m[ep])
    ensures var n', status := HandleAck2(n, m, order, now), GossipStatus(m[ep]);
      if status == LEFT || status == HIBERNATE || status == SHUTDOWN
      then IsDown(n', ep, now)
      else ep in n'.pending && IsUp(EchoReply(n', ep, true, later), ep)
  {
    HandlersApply(n, m, [], order, now);
    hide HandleAck2, ApplyEntry, ApplyAll, IsDown, IsUp, GossipStatus, EchoReply;
    var n1 := NotifyFailureDetector(n, m, now);
    NotifiedAt(n, m, now, ep);
    ApplyAllAt(n1, m, order, now, ep);
    EntryJoins(n1, ep, m[ep], now);
    var n' := ApplyAll(n1, m, order, now);
    AlikeFacts(ApplyEntry(n1, ep, m[ep], now), n', ep, now);
    if ep in n'.states {
      AnsweredEcho(n', ep, later);
    }
  }

  lemma AnsweredEcho(n: Node, ep: Endpoint, now: int)
    requires ep in n.states
    ensures var n' := EchoReply(n, ep, true, now);
      IsUp(n', ep) && n'.states[ep] == EndpointState(n.states[ep].content, now, true) && ep !in n'.expireTimes
    ensures forall e | e != ep :: StandingOf(EchoReply(n, ep, true, now), e) == StandingOf(n, e)
  {
  }

  /** A failed echo, or one about an endpoint forgotten meanwhile, only ends the waiting. */
  lemma FailedEcho(n: Node, ep: Endpoint, answered: bool, now: int)
    requires !answered || ep !in n.states
    ensures EchoReply(n, ep, answered, now) == n.(pending := n.pending - {ep})
  {
  }

  lemma ReviveExact(n: Node, ep: Endpoint)
    requires ep in n.states
    ensures var n' := Revive(n, ep);
      && ep in n'.states && n'.states[ep] == n.states[ep]
      && (ep in n'.pending <==>
            ep in n.pending
            || (!n.states[ep].alive && GossipStatus(n.states[ep].content) != LEFT && GossipStatus(n.states[ep].content) != HIBERNATE))
      && n'.live == n.live && n'.unreachable == n.unreachable && n'.justAdded == n.justAdded
  {
    hide FirstPiece;
  }

  lemma EntrySameGeneration(n: Node, ep: Endpoint, c: Content, now: int)
    requires !Ignores(n, ep) && ep in n.states && n.states[ep].content.hb.generation == c.hb.generation
    ensures var n' := ApplyEntry(n, ep, c, now);
      && ep in n'.states && n'.states[ep].content == Learn(n.inShadowRound, Some(n.states[ep].content), c)
      && (ep in n'.pending <==>
            ep in n.pending
            || (!n.states[ep].alive && GossipStatus(n'.states[ep].content) != LEFT && GossipStatus(n'.states[ep].content) != HIBERNATE))
      && n'.states[ep].alive == n.states[ep].alive
      && (ep in n'.live <==> ep in n.live) && (ep in n'.unreachable <==> ep in n.unreachable)
  {
    hide Revive, GossipStatus, MaxVersion;
    ReviveExact(Absorb(n, ep, c, now), ep);
  }

  /**
   News within a generation: a dead copy is revived, that is, waits for an echo, exactly if its
   status then is not one of a node that left or hibernates; an endpoint taken for alive stays so.
   */
  lemma KnownEndpoint(n: Node, m: ContentMap, order: seq<Endpoint>, now: int, ep: Endpoint)
    requires Enumerates(order, m.Keys) && n.enabled && !n.inShadowRound && ep in m
    requires ep != n.self && ep !in n.justRemoved && ep in n.states
    requires n.states[ep].content.hb.generation == m[ep].hb.generation
    ensures var n' := HandleAck2(n, m, order, now);
      && ep in n'.states && n'.states[ep].alive == n.states[ep].alive
      && (ep in n'.live <==> ep in n.live) && (ep in n'.unreachable <==> ep in n.unreachable)
      && var status := GossipStatus(n'.states[ep].content);
         ep in n'.pending <==> ep in n.pending || (!n.states[ep].alive && status != LEFT && status != HIBERNATE)
  {
    HandlersApply(n, m, [], order, now);
    hide HandleAck2, ApplyEntry, ApplyAll, GossipStatus, Learn;
    var n1 := NotifyFailureDetector(n, m, now);
    NotifiedAt(n, m, now, ep);
    ApplyAllAt(n1, m, order, now, ep);
    EntrySameGeneration(n1, ep, m[ep], now);
    AlikeFacts(ApplyEntry(n1, ep, m[ep], now), ApplyAll(n1, m, order, now), ep, now);
  }

  /** Who is not mentioned, or ignored, keeps its standing, except for the stamp of news. */
  lemma UnmentionedEndpoint(n: Node, m: ContentMap, order: seq<Endpoint>, now: int, ep: Endpoint)
    requires Enumerates(order, m.Keys) && (ep !in m || Ignores(n, ep))
    ensures StandingOf(ApplyMessage(n, m, order, now), ep) ==
            StandingOf(n, ep).(state := Lookup(NotifyFailureDetector(n, m, now).states, ep))
  {
    var n1 := NotifyFailureDetector(n, m, now);
    NotifiedAt(n, m, now, ep);
    ApplyAllAt(n1, m, order, now, ep);
  }

  /** In a shadow round a state is stored and nothing else happens. */
  lemma ShadowRoundOnlyStores(n: Node, ep: Endpoint, c: Content, now: int)
    requires n.inShadowRound && ep !in n.justRemoved && ep !in n.states
    ensures ApplyEntry(n, ep, c, now) == n.(states := n.states[ep := EndpointState(c, now, true)])
  {
  }

  /** An absurd generation is not believed. */
  lemma FarGenerationIsRefused(n: Node, ep: Endpoint, c: Content, now: int)
    requires ep in n.states && n.states[ep].content.hb.generation != 0
    requires c.hb.generation > n.states[ep].content.hb.generation + YEAR
    ensures ApplyEntry(n, ep, c, now) == n
  {
  }

  lemma MajorStamp(n: Node, ep: Endpoint, c: Content, now: int)
    ensures var n' := HandleMajorStateChange(n, ep, c, now); ep in n'.states && n'.states[ep].timestamp == now
  {
    hide IsDeadState, IsShutdownState;
    ShutdownStops(n.(states := n.states[ep := EndpointState(c, now, true)]), ep, now);
  }

  lemma EntryStamp(n: Node, ep: Endpoint, c: Content, now: int)
    requires ep in n.states
    ensures var n', local := ApplyEntry(n, ep, c, now), n.states[ep].content;
      && ep in n'.states
      && n'.states[ep].timestamp ==
         if !Ignores(n, ep) && !TooFarAhead(local, c) && Leq(KeyOf(local), KeyOf(c)) && KeyOf(local) != KeyOf(c)
         then now else n.states[ep].timestamp
  {
    hide MaxVersion, HandleMajorStateChange, Revive, GossipStatus, Ignores;
    MajorStamp(n, ep, c, now);
    ReviveExact(Absorb(n, ep, c, now), ep);
  }

  /**
   When a message counts as a sign of life of a known endpoint: if it speaks of a newer generation,
   believed or not, or of something newer in the same one; of an endpoint the node does not listen
   about, only the heartbeat counts.
   */
  lemma LastNewsExact(n: Node, m: ContentMap, order: seq<Endpoint>, now: int, ep: Endpoint)
    requires Enumerates(order, m.Keys) && ep in n.states
    ensures var n', local := ApplyMessage(n, m, order, now), n.states[ep].content;
      && ep in n'.states
      && n'.states[ep].timestamp ==
         if ep in m && (|| m[ep].hb.generation > local.hb.generation
                        || (m[ep].hb.generation == local.hb.generation
                            && (if Ignores(n, ep) then m[ep].hb.version else MaxVersion(m[ep])) > MaxVersion(local)))
         then now else n.states[ep].timestamp
  {
    hide ApplyEntry, ApplyAll;
    var n1 := NotifyFailureDetector(n, m, now);
    ApplyAllAt(n1, m, order, now, ep);
    if ep in m {
      EntryStamp(n1, ep, m[ep], now);
      AlikeFacts(ApplyEntry(n1, ep, m[ep], now), ApplyAll(n1, m, order, now), ep, now);
    } else {
      AlikeFacts(n1, ApplyAll(n1, m, order, now), ep, now);
    }
  }

  /** Endpoints that just came up are gossiped to one after the other, in the order they came up. */
  function AfterRounds(n: Node, rounds: nat): Node {
    if rounds == 0 then n else PopJustAdded(AfterRounds(n, rounds - 1))
  }

  lemma {:induction false} NewcomersInTurn(n: Node, rounds: nat)
    requires n.live != {} && rounds <= |n.justAdded|
    ensures AfterRounds(n, rounds) == n.(justAdded := n.justAdded[rounds..])
  {
    if rounds > 0 {
      NewcomersInTurn(n, rounds - 1);
      assert n.justAdded[rounds-1..][1..] == n.justAdded[rounds..];
    } else {
      assert n.justAdded[0..] == n.justAdded;
    }
  }

  // ----------------------------------------------------------------- answers

  /** How far what a digest says is from what the node stores. */
  ghost function Distance(states: StateMap, d: Digest): int {
    var mine := if d.ep in states then MaxVersion(states[d.ep].content) else 0;
    if mine < d.maxVersion then d.maxVersion - mine else mine - d.maxVersion
  }

  /** A SYN's digests are examined newest generation first, and within one those first whose versions differ most. */
  lemma FarthestFirst(states: StateMap, ds: seq<Digest>, list: seq<Digest>, i: nat, j: nat)
    requires UniqueEndpoints(ds) && IsSorted(states, ds, list) && i < j < |list|
    ensures list[i].generation >= list[j].generation
    ensures list[i].generation == list[j].generation ==> Distance(states, list[i]) >= Distance(states, list[j])
  {
    hide MaxVersion;
    var p: seq<Digest> :| FirstsOf(ds, p, list) && Descending(states, p);
    assert p[i] in ds && p[j] in ds && list[i] == FirstFor(ds, p[i].ep) && list[j] == FirstFor(ds, p[j].ep);
    hide FirstsOf, FirstFor;
    assert list[i] == p[i] && list[j] == p[j];
    assert Leq(Gap(states, p[j]), Gap(states, p[i]));
  }

  /** The digest asks for something the node has. */
  predicate HasAnswer(states: StateMap, d: Digest) {
    d.ep in states && Delta(states[d.ep].content, d.maxVersion).Some?
  }

  /** The first digest of an endpoint that asks for something the node has decides what is sent, and without one nothing is. */
  lemma {:induction false} RepliesExact(states: StateMap, ds: seq<Digest>, ep: Endpoint)
    ensures ep in Replies(states, ds) <==> exists i | 0 <= i < |ds| :: ds[i].ep == ep && HasAnswer(states, ds[i])
    ensures forall i | 0 <= i < |ds| && ds[i].ep == ep && HasAnswer(states, ds[i])
                       && (forall j | 0 <= j < i :: ds[j].ep != ep || !HasAnswer(states, ds[j])) ::
      Replies(states, ds)[ep] == Delta(states[ep].content, ds[i].maxVersion).value
  {
    hide Delta;
    if ds != [] {
      var n := |ds| - 1;
      RepliesExact(states, ds[..n], ep);
      assert forall i | 0 <= i < n :: ds[..n][i] == ds[i];
    }
  }

  /** An ACK ends a shadow round without an answer; otherwise it is answered exactly by an enabled node. */
  lemma AckIsAnswered(n: Node, ack: Ack, order: seq<Endpoint>, now: int)
    requires Enumerates(order, ack.states.Keys)
    ensures var (n', answer) := HandleAck(n, ack, order, now);
      && !n'.inShadowRound
      && (answer.Some? <==> n.enabled && !n.inShadowRound)
      && (answer.Some? ==> answer.value == Replies(n'.states, ack.digests))
      && (!n.enabled && !n.inShadowRound ==> n' == n)
  {
    hide ApplyMessage;
    ApplyMessageEffect(n, ack.states, order, now);
  }

  // -------------------------------------------------------------- conviction

  /** A conviction takes an endpoint that is taken for alive down, and leaves any other alone. */
  lemma ConvictionTakesDown(n: Node, ep: Endpoint, now: int)
    ensures var n' := Convict(n, ep, now);
      if ep in n.states && n.states[ep].alive then
        && IsDown(n', ep, now)
        && n'.states[ep].content ==
           if GossipStatus(n.states[ep].content) == SHUTDOWN then Forced(n.states[ep].content) else n.states[ep].content
      else n' == n
    ensures forall e | e != ep :: StandingOf(Convict(n, ep, now), e) == StandingOf(n, e)
  {
    if ep in n.states {
      ShutdownStops(n, ep, now);
    }
    forall e | e != ep ensures StandingOf(Convict(n, ep, now), e) == StandingOf(n, e) {
      ShutdownElsewhere(n, ep, now, e);
    }
  }

  // ------------------------------------------------------------ status check

  lemma EvictElsewhere(n: Node, ep: Endpoint, now: int, e: Endpoint)
    requires e != ep
    ensures Alike(n, Evict(n, ep, now), e) && Alike(n, RemoveEndpoint(n, ep, now), e)
  {
  }

  lemma EvictAlike(n: Node, n': Node, ep: Endpoint, now: int)
    requires Alike(n, n', ep)
    ensures Alike(Evict(n, ep, now), Evict(n', ep, now), ep)
    ensures Alike(RemoveEndpoint(n, ep, now), RemoveEndpoint(n', ep, now), ep)
  {
    EvictedAt(n, ep, now);
    EvictedAt(n', ep, now);
    hide Evict, RemoveEndpoint, StandingOf;
  }

  lemma EvictedAt(n: Node, ep: Endpoint, now: int)
    ensures SameNode(n, Evict(n, ep, now)) && SameNode(n, RemoveEndpoint(n, ep, now))
    ensures StandingOf(Evict(n, ep, now), ep) ==
            StandingOf(n, ep).(state := None, unreachable := None, expires := None, removed := Some(now))
    ensures StandingOf(RemoveEndpoint(n, ep, now), ep) ==
            StandingOf(n, ep).(live := false, justAdded := false, unreachable := None, removed := Some(now))
  {
  }

  lemma CheckElsewhere(n: Node, ep: Endpoint, convicted: bool, isMember: bool, now: int, e: Endpoint)
    requires e != ep
    ensures Alike(n, CheckEndpoint(n, ep, convicted, isMember, now), e)
  {
    hide Convict, Evict, RemoveEndpoint, IsDeadState;
    ShutdownElsewhere(n, ep, now, e);
    var n1 := if convicted then Convict(n, ep, now) else n;
    EvictElsewhere(n1, ep, now, e);
    var n2 := RemoveEndpoint(n1, ep, now);
    EvictElsewhere(n2, ep, now, e);
    EvictElsewhere(Evict(n2, ep, now), ep, now, e);
  }

  lemma AlikeParts(n: Node, n': Node, ep: Endpoint)
    requires Alike(n, n', ep)
    ensures (ep == n.self <==> ep == n'.self) && (ep in n.states <==> ep in n'.states)
    ensures ep in n.states ==> n'.states[ep] == n.states[ep]
    ensures (ep in n.justRemoved <==> ep in n'.justRemoved) && (ep in n.expireTimes <==> ep in n'.expireTimes)
    ensures ep in n.expireTimes ==> n'.expireTimes[ep] == n.expireTimes[ep]
  {
    assert Lookup(n.states, ep) == Lookup(n'.states, ep);
    assert Lookup(n.expireTimes, ep) == Lookup(n'.expireTimes, ep);
    assert Lookup(n.justRemoved, ep) == Lookup(n'.justRemoved, ep);
  }

  lemma CheckAlike(n: Node, n': Node, ep: Endpoint, convicted: bool, isMember: bool, now: int)
    requires Alike(n, n', ep)
    ensures Alike(CheckEndpoint(n, ep, convicted, isMember, now), CheckEndpoint(n', ep, convicted, isMember, now), ep)
  {
    hide Convict, Evict, RemoveEndpoint, IsDeadState, StandingOf;
    AlikeParts(n, n', ep);
    ShutdownAlike(n, n', ep, now);
    var n1 := if convicted then Convict(n, ep, now) else n;
    var n1' := if convicted then Convict(n', ep, now) else n';
    AlikeParts(n1, n1', ep);
    EvictAlike(n1, n1', ep, now);
    var n2, n2' := RemoveEndpoint(n1, ep, now), RemoveEndpoint(n1', ep, now);
    EvictAlike(n2, n2', ep, now);
    var n3, n3' := Evict(n2, ep, now), Evict(n2', ep, now);
    AlikeParts(n3, n3', ep);
    EvictAlike(n3, n3', ep, now);
  }

  lemma {:induction false} CheckAllAt(n: Node, order: seq<Endpoint>, convicted: set<Endpoint>, members: set<Endpoint>, now: int, e: Endpoint)
    requires Distinct(order)
    ensures Alike(if e in order then CheckEndpoint(n, e, e in convicted, e in members, now) else n,
                  CheckAll(n, order, convicted, members, now), e)
  {
    hide CheckEndpoint, StandingOf;
    if order != [] {
      var front, last := order[..|order|-1], order[|order|-1];
      assert order == front + [last] && last !in front;
      CheckAllAt(n, front, convicted, members, now, e);
      var n1 := CheckAll(n, front, convicted, members, now);
      if e == last {
        CheckAlike(n, n1, e, e in convicted, e in members, now);
      } else {
        CheckElsewhere(n1, last, last in convicted, last in members, now, e);
      }
    }
  }

  /** A client that is no ring member and has been silent for more than half a second. */
  predicate IsSilentClient(n: Node, ep: Endpoint, isMember: bool, now: int)
    requires ep in n.states
  {
    var status := GossipStatus(n.states[ep].content);
    !isMember && status != LEFT && status != HIBERNATE && ep !in n.justRemoved
    && now - n.states[ep].timestamp > 500
  }

  /** A ring member that is not alive and past its expiry. */
  predicate IsExpiredMember(n: Node, ep: Endpoint, isMember: bool, now: int)
    requires ep in n.states
  {
    isMember && !n.states[ep].alive && ep in n.expireTimes && now > n.expireTimes[ep]
  }

  lemma CheckEndpointForgets(n: Node, ep: Endpoint, convicted: bool, isMember: bool, now: int)
    requires ep != n.self && ep in n.states
    ensures var n' := CheckEndpoint(n, ep, convicted, isMember, now);
      && (ep !in n'.states <==> IsSilentClient(n, ep, isMember, now) || IsExpiredMember(n, ep, isMember, now))
      && (ep !in n'.states ==> ep in n'.justRemoved && n'.justRemoved[ep] == now && ep !in n'.unreachable && ep !in n'.expireTimes)
      && (ep in n'.states ==> Lookup(n'.justRemoved, ep) == Lookup(n.justRemoved, ep))
      && (convicted && n.states[ep].alive ==> ep !in n'.live)
      && (ep in n'.states ==>
            if convicted && n.states[ep].alive then IsDown(n', ep, now)
            else n'.states[ep] == n.states[ep] && (ep in n'.live <==> ep in n.live) && Lookup(n'.unreachable, ep) == Lookup(n.unreachable, ep))
  {
    hide FirstPiece;
    ConvictionTakesDown(n, ep, now);
    ConvictionKeepsRest(n, ep, now);
    hide Convict;
  }

  lemma ConvictionKeepsRest(n: Node, ep: Endpoint, now: int)
    ensures var n' := Convict(n, ep, now);
      && n'.justRemoved == n.justRemoved && n'.expireTimes == n.expireTimes && n'.self == n.self
      && (ep in n'.states <==> ep in n.states)
      && (ep in n.states ==>
            && n'.states[ep].timestamp == n.states[ep].timestamp
            && GossipStatus(n'.states[ep].content) == GossipStatus(n.states[ep].content))
  {
    hide FirstPiece;
    if ep in n.states {
      ShutdownStops(n, ep, now);
    }
  }

  /**
   What a status check does to each endpoint, whatever the order: it forgets exactly the silent
   clients and the expired members, quarantining them from now on, and takes down exactly the
   convicted endpoints that were taken for alive.
   */
  lemma StatusCheckExact(n: Node, order: seq<Endpoint>, convicted: set<Endpoint>, members: set<Endpoint>, now: int, ep: Endpoint)
    requires Enumerates(order, n.states.Keys) && ep != n.self && ep in n.states
    ensures var n' := StatusCheck(n, order, convicted, members, now);
      && (ep !in n'.states <==> IsSilentClient(n, ep, ep in members, now) || IsExpiredMember(n, ep, ep in members, now))
      && (ep !in n'.states ==> ep in n'.justRemoved && n'.justRemoved[ep] == now && ep !in n'.unreachable)
      && (ep in convicted && n.states[ep].alive ==> ep !in n'.live)
      && (ep in n'.states ==>
            if ep in convicted && n.states[ep].alive then IsDown(n', ep, now)
            else n'.states[ep] == n.states[ep] && (ep in n'.live <==> ep in n.live))
  {
    hide CheckEndpoint, CheckAll, IsSilentClient, IsExpiredMember;
    CheckAllAt(n, order, convicted, members, now, ep);
    CheckEndpointForgets(n, ep, ep in convicted, ep in members, now);
    var n1, n2 := CheckEndpoint(n, ep, ep in convicted, ep in members, now), CheckAll(n, order, convicted, members, now);
    AlikeFacts(n1, n2, ep, now);
    assert StandingOf(n1, ep) == StandingOf(n2, ep);
    assert Lookup(n1.justRemoved, ep) == Lookup(n2.justRemoved, ep);
  }

  /** A status check never touches the node's own standing, nor adds an endpoint. */
  lemma StatusCheckSparesSelf(n: Node, order: seq<Endpoint>, convicted: set<Endpoint>, members: set<Endpoint>, now: int, ep: Endpoint)
    requires Enumerates(order, n.states.Keys) && (ep == n.self || ep !in n.states)
    ensures var n' := StatusCheck(n, order, convicted, members, now);
      StandingOf(n', ep).(removed := None) == StandingOf(n, ep).(removed := None)
  {
    hide CheckAll;
    CheckAllAt(n, order, convicted, members, now, ep);
    assert CheckEndpoint(n, ep, ep in convicted, ep in members, now) == n;
  }

  // ---------------------------------------------------- operators' commands

  /** A dead member with an expiry time is forgotten by a status check exactly if it comes later than that time. */
  lemma ExpiryForgets(n: Node, ep: Endpoint, at: int, order: seq<Endpoint>, convicted: set<Endpoint>, members: set<Endpoint>, now: int)
    requires Enumerates(order, n.states.Keys) && ep != n.self && ep in n.states && !n.states[ep].alive && ep in members
    ensures ep !in StatusCheck(AddExpireTime(n, ep, at), order, convicted, members, now).states <==> now > at
  {
    hide StatusCheck, Enumerates;
    StatusCheckExact(AddExpireTime(n, ep, at), order, convicted, members, now, ep);
  }

  /** Removing an endpoint leaves its state, and nothing else but the quarantine. */
  lemma RemovedEndpoint(n: Node, ep: Endpoint, now: int)
    ensures var n' := RemoveEndpoint(n, ep, now);
      && ep !in n'.live && ep !in n'.justAdded && ep !in n'.unreachable && ep in n'.justRemoved
      && n'.states == n.states && n'.expireTimes == n.expireTimes && n'.pending == n.pending
    ensures forall e | e != ep :: StandingOf(RemoveEndpoint(n, ep, now), e) == StandingOf(n, e)
  {
  }

  /** After a reset the node knows nobody, and keeps its quarantines. */
  lemma ResetKnowsNobody(n: Node, e: Endpoint)
    ensures var s := StandingOf(ResetEndpointStateMap(n), e);
      s == StandingOf(n, e).(state := None, live := false, justAdded := false, unreachable := None)
  {
  }

  /**
   A saved endpoint is down, with the values that were known of it, and its placeholder gives way to
   any real generation, however far ahead.
   */
  lemma SavedGivesWay(n: Node, ep: Endpoint, now: int, c: Content)
    requires ep != n.self && ep !in n.justRemoved && c.hb.generation > 0
    ensures var n' := AddSavedEndpoint(n, ep, now);
      && ep in n'.states && !n'.states[ep].alive && ep in n'.unreachable && n'.unreachable[ep] == now
      && n'.states[ep].content.apps == (if ep in n.states then n.states[ep].content.apps else map[])
      && Joins(n', ep, c)
  {
  }
}
