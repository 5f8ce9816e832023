/**
 The gossiper as an object: mutable fields and the loops of gms/gossiper.cc, each method
 proved to carry out the corresponding step of GossipNodes on the abstract value State().
 Containers whose iteration order the source does not fix are visited in an arbitrary
 order, reported as a ghost result.
 */
module Gossipers {
  import opened Wrappers
  import opened EndpointStates
  import opened GossipNodes

  /** get_max_endpoint_state_version */
  method GetMaxVersion(c: Content) returns (m: int32)
    ensures m == MaxVersion(c)
  {
    m := c.hb.version;
    var keys := c.apps.Keys;
    while keys != {}
      invariant keys <= c.apps.Keys
      invariant c.hb.version <= m
      invariant forall k | k in c.apps && k !in keys :: c.apps[k].version <= m
      invariant m == c.hb.version || exists k | k in c.apps :: c.apps[k].version == m
      decreases |keys|
    {
      var k :| k in keys;
      if c.apps[k].version > m {
        m := c.apps[k].version;
      }
      keys := keys - {k};
    }
    MaxVersionUnique(c, m);
  }

  /** get_state_for_version_bigger_than, for a known endpoint */
  method GetStateAbove(c: Content, v: int) returns (r: Option<Content>)
    ensures r == Delta(c, v)
  {
    r := None;
    if c.hb.version > v {
      r := Some(Content(c.hb, map[]));
    }
    var keys := c.apps.Keys;
    while keys != {}
      invariant keys <= c.apps.Keys
      invariant r.None? ==> c.hb.version <= v && forall k | k in c.apps && k !in keys :: c.apps[k].version <= v
      invariant r.Some? ==> r.value.hb == c.hb
      invariant r.Some? ==> r.value.apps == map k | k in c.apps && k !in keys && c.apps[k].version > v :: c.apps[k]
      invariant r.Some? ==> c.hb.version > v || r.value.apps != map[]
      decreases |keys|
    {
      var k :| k in keys;
      if c.apps[k].version > v {
        var apps := if r.Some? then r.value.apps else map[];
        r := Some(Content(c.hb, apps[k := c.apps[k]]));
        assert k in r.value.apps;
      }
      keys := keys - {k};
    }
    if r.Some? {
      assert r.value.apps == AppsAbove(c.apps, v);
    } else {
      assert AppsAbove(c.apps, v) == map[];
    }
  }

  lemma {:induction false} FirstForAt(ds: seq<Digest>, k: nat)
    requires k < |ds| && forall i | 0 <= i < k :: ds[i].ep != ds[k].ep
    ensures FirstFor(ds, ds[k].ep) == ds[k]
  {
    if k > 0 {
      assert ds[1..][k-1] == ds[k];
      FirstForAt(ds[1..], k - 1);
    }
  }

  function Backwards(p: seq<Digest>): (r: seq<Digest>)
    ensures |r| == |p| && multiset(r) == multiset(p)
    ensures forall i | 0 <= i < |p| :: r[i] == p[|p|-1-i]
  {
    if p == [] then []
    else
      var k := |p| - 1;
      assert p == p[..k] + [p[k]];
      [p[k]] + Backwards(p[..k])
  }

  class Gossiper {
    const self: Endpoint
    const clusterName: string
    var enabled: bool
    var inShadowRound: bool
    var states: StateMap
    var live: set<Endpoint>
    var justAdded: seq<Endpoint>
    var pending: set<Endpoint>
    var unreachable: map<Endpoint, int>
    var justRemoved: map<Endpoint, int>
    var expireTimes: map<Endpoint, int>
    var version: int32

    ghost function State(): Node
      reads this
    {
      Node(self, clusterName, enabled, inShadowRound, states, live, justAdded, pending,
           unreachable, justRemoved, expireTimes, version)
    }

    constructor (self: Endpoint, clusterName: string)
      ensures State() == Node(self, clusterName, false, false, map[], {}, [], {}, map[], map[], map[], 0)
    {
      this.self, this.clusterName := self, clusterName;
      enabled, inShadowRound, states, live, justAdded := false, false, map[], {}, [];
      pending, unreachable, justRemoved, expireTimes, version := {}, map[], map[], map[], 0;
    }

    // ------------------------------------------------------------ digests

    method MakeRandomDigests() returns (ds: seq<Digest>, ghost order: seq<Endpoint>)
      ensures Enumerates(order, states.Keys)
      ensures ds == MakeDigests(states, order) && UniqueEndpoints(ds)
      ensures forall d :: d in ds <==> d.ep in states && d == DigestOf(states, d.ep)
    {
      hide DigestOf;
      ds, order := [], [];
      var keys := states.Keys;
      while keys != {}
        invariant keys <= states.Keys
        invariant Enumerates(order, states.Keys - keys)
        invariant |ds| == |order|
        invariant forall i | 0 <= i < |order| :: order[i] in states && ds[i] == DigestOf(states, order[i])
        decreases |keys|
      {
        SomeEndpoint(keys);
        var ep :| ep in keys;
        var d := DigestFor(ep);
        ds := ds + [d];
        EnumeratesMore(order, states.Keys - keys, ep);
        order := order + [ep];
        assert states.Keys - (keys - {ep}) == states.Keys - keys + {ep};
        keys := keys - {ep};
      }
      DigestsOfStates(states, order);
    }

    method DigestFor(ep: Endpoint) returns (d: Digest)
      requires ep in states
      ensures d == DigestOf(states, ep)
    {
      var max := GetMaxVersion(states[ep].content);
      d := Digest(ep, states[ep].content.hb.generation, max);
    }

    method GapTo(d: Digest) returns (gap: Key)
      ensures gap == Gap(states, d)
    {
      var max: int32 := 0;
      if d.ep in states {
        max := GetMaxVersion(states[d.ep].content);
      }
      gap := Key(d.generation, Abs(max - d.maxVersion));
    }

    /** The digests ordered by ascending gap; std::sort fixes no order among equals. */
    method SortByGap(ds: seq<Digest>) returns (p: seq<Digest>)
      ensures multiset(p) == multiset(ds)
      ensures forall i, j | 0 <= i < j < |p| :: Leq(Gap(states, p[i]), Gap(states, p[j]))
    {
      p := [];
      var k := 0;
      while k < |ds|
        invariant 0 <= k <= |ds|
        invariant multiset(p) == multiset(ds[..k])
        invariant forall i, j | 0 <= i < j < |p| :: Leq(Gap(states, p[i]), Gap(states, p[j]))
      {
        p := InsertByGap(p, ds[k]);
        assert ds[..k+1] == ds[..k] + [ds[k]];
        k := k + 1;
      }
      assert ds[..|ds|] == ds;
    }

    method InsertByGap(p: seq<Digest>, d: Digest) returns (q: seq<Digest>)
      requires forall i, j | 0 <= i < j < |p| :: Leq(Gap(states, p[i]), Gap(states, p[j]))
      ensures multiset(q) == multiset(p) + multiset{d}
      ensures forall i, j | 0 <= i < j < |q| :: Leq(Gap(states, q[i]), Gap(states, q[j]))
    {
      hide Gap;
      var gap := GapTo(d);
      var k := 0;
      var done := false;
      while k < |p| && !done
        invariant 0 <= k <= |p|
        invariant forall i | 0 <= i < k :: Leq(Gap(states, p[i]), gap)
        invariant done ==> k < |p| && Leq(gap, Gap(states, p[k]))
        decreases |p| - k, !done
      {
        var g := GapTo(p[k]);
        if Leq(g, gap) {
          k := k + 1;
        } else {
          done := true;
        }
      }
      q := p[..k] + [d] + p[k..];
      assert p == p[..k] + p[k..];
      InsertedInOrder(states, p, d, k);
    }

    static lemma InsertedInOrder(states: StateMap, p: seq<Digest>, d: Digest, k: nat)
      requires k <= |p|
      requires forall i, j | 0 <= i < j < |p| :: Leq(Gap(states, p[i]), Gap(states, p[j]))
      requires forall i | 0 <= i < k :: Leq(Gap(states, p[i]), Gap(states, d))
      requires k < |p| ==> Leq(Gap(states, d), Gap(states, p[k]))
      ensures var q := p[..k] + [d] + p[k..];
        forall i, j | 0 <= i < j < |q| :: Leq(Gap(states, q[i]), Gap(states, q[j]))
    {
      hide Gap;
      var q := p[..k] + [d] + p[k..];
      forall i, j | 0 <= i < j < |q| ensures Leq(Gap(states, q[i]), Gap(states, q[j])) {
        var pi := if i < k then p[i] else if i == k then d else p[i-1];
        var pj := if j < k then p[j] else if j == k then d else p[j-1];
        assert q[i] == pi && q[j] == pj;
      }
    }

    method FirstDigests(ds: seq<Digest>) returns (m: map<Endpoint, Digest>)
      ensures forall d | d in ds :: d.ep in m && m[d.ep] == FirstFor(ds, d.ep)
    {
      m := map[];
      for k := 0 to |ds|
        invariant forall e | e in m :: exists i | 0 <= i < k :: ds[i].ep == e
        invariant forall i | 0 <= i < k :: ds[i].ep in m && m[ds[i].ep] == FirstFor(ds, ds[i].ep)
      {
        if ds[k].ep !in m {
          FirstForAt(ds, k);
          m := m[ds[k].ep := ds[k]];
        }
      }
    }

    /** do_sort */
    method DoSort(ds: seq<Digest>) returns (list: seq<Digest>)
      ensures IsSorted(states, ds, list)
    {
      hide Gap, IsSorted;
      var first := FirstDigests(ds);
      var p := SortByGap(ds);
      SameElements(p, ds);
      list := [];
      var k := |p|;
      while k > 0
        invariant 0 <= k <= |p| && |list| == |p| - k
        invariant forall i | 0 <= i < |list| :: p[|p|-1-i] in ds && list[i] == FirstFor(ds, p[|p|-1-i].ep)
      {
        k := k - 1;
        assert p[k] in ds;
        list := list + [first[p[k].ep]];
      }
      BackwardsIsSorted(states, ds, p, list);
    }

    static lemma SameElements(p: seq<Digest>, ds: seq<Digest>)
      requires multiset(p) == multiset(ds)
      ensures forall d | d in p :: d in ds
    {
      forall d | d in p ensures d in ds {
        assert d in multiset(p);
      }
    }

    static lemma BackwardsIsSorted(states: StateMap, ds: seq<Digest>, p: seq<Digest>, list: seq<Digest>)
      requires multiset(p) == multiset(ds) && |list| == |p|
      requires forall i, j | 0 <= i < j < |p| :: Leq(Gap(states, p[i]), Gap(states, p[j]))
      requires forall i | 0 <= i < |list| :: p[|p|-1-i] in ds && list[i] == FirstFor(ds, p[|p|-1-i].ep)
      ensures IsSorted(states, ds, list)
    {
      hide Gap;
      SameElements(p, ds);
      var r := Backwards(p);
      forall i | 0 <= i < |r| ensures r[i] in ds && list[i] == FirstFor(ds, r[i].ep) {
        assert r[i] == p[|p|-1-i] && r[i] in p;
        assert list[i] == FirstFor(ds, p[|p|-1-i].ep);
      }
      assert FirstsOf(ds, r, list);
      assert Descending(states, r);
    }

    method ExamineDigests(list: seq<Digest>) returns (ack: Ack)
      ensures ack == Examine(states, list)
    {
      hide Examine, ExamineOne, Delta;
      var requests, deltas := [], map[];
      ExamineEmpty(states);
      assert list[..0] == [];
      for k := 0 to |list|
        invariant Ack(requests, deltas) == Examine(states, list[..k])
      {
        var d := list[k];
        assert list[..k+1][..k] == list[..k];
        var verdict := ExamineDigest(d);
        var cut := None;
        if verdict.Send? && d.ep in states {
          cut := GetStateAbove(states[d.ep].content, verdict.floor);
        }
        ExamineUnfold(states, list[..k+1]);
        match verdict
        case InSync =>
        case Request(q) => requests := requests + [q];
        case Send(v) => if cut.Some? { deltas := deltas[d.ep := cut.value]; }
      }
      assert list[..|list|] == list;
      return Ack(requests, deltas);
    }

    static lemma ExamineEmpty(states: StateMap)
      ensures Examine(states, []) == Ack([], map[])
    {
    }

    static lemma ExamineUnfold(states: StateMap, ds: seq<Digest>)
      requires ds != []
      ensures var d, r := ds[|ds|-1], Examine(states, ds[..|ds|-1]);
        Examine(states, ds) ==
        match ExamineOne(states, d)
        case InSync => r
        case Request(q) => r.(digests := r.digests + [q])
        case Send(v) =>
          if d.ep in states && Delta(states[d.ep].content, v).Some?
          then r.(states := r.states[d.ep := Delta(states[d.ep].content, v).value])
          else r
    {
    }

    /** The body of examine_gossiper's loop. */
    method ExamineDigest(d: Digest) returns (verdict: Verdict)
      ensures verdict == ExamineOne(states, d)
    {
      if d.ep !in states {
        return Request(Digest(d.ep, d.generation, 0));
      }
      var local := states[d.ep].content;
      var max := GetMaxVersion(local);
      if d.generation == local.hb.generation && d.maxVersion == max {
        return InSync;
      }
      if d.generation > local.hb.generation {
        return Request(Digest(d.ep, d.generation, 0));
      } else if d.generation < local.hb.generation {
        return Send(0);
      } else if d.maxVersion > max {
        return Request(Digest(d.ep, d.generation, max));
      } else {
        return Send(d.maxVersion);
      }
    }

    method ShadowDigests() returns (list: seq<Digest>, ghost order: seq<Endpoint>)
      ensures Enumerates(order, states.Keys) && |list| == |order|
      ensures forall i | 0 <= i < |order| :: list[i] == Digest(order[i], 0, 0)
    {
      list, order := [], [];
      var keys := states.Keys;
      while keys != {}
        invariant keys <= states.Keys
        invariant Enumerates(order, states.Keys - keys) && |list| == |order|
        invariant forall i | 0 <= i < |order| :: list[i] == Digest(order[i], 0, 0)
        decreases |keys|
      {
        SomeEndpoint(keys);
        var ep :| ep in keys;
        list := list + [Digest(ep, 0, 0)];
        EnumeratesMore(order, states.Keys - keys, ep);
        order := order + [ep];
        assert states.Keys - (keys - {ep}) == states.Keys - keys + {ep};
        keys := keys - {ep};
      }
    }

    method HandleSynMsg(syn: Syn) returns (answer: Option<Ack>, ghost list: seq<Digest>)
      ensures Accepts(State(), syn) ==> IsExaminedList(states, syn.digests, list)
      ensures answer == HandleSyn(State(), syn, list)
      ensures answer.Some? <==> Accepts(State(), syn)
    {
      hide IsSorted, Examine, Enumerates;
      list := [];
      if !enabled || syn.clusterId != clusterName || (syn.partitioner != "" && syn.partitioner != PARTITIONER) {
        return None, list;
      }
      var examined := DoSort(syn.digests);
      if syn.digests == [] {
        ghost var order;
        examined, order := ShadowDigests();
      }
      list := examined;
      var ack := ExamineDigests(examined);
      answer := Some(ack);
    }

    // ------------------------------------------------------ live and dead

    method MarkAlivePending(ep: Endpoint)
      requires ep in states
      modifies this
      ensures State() == MarkAlive(old(State()), ep)
    {
      if ep in pending {
        return;
      }
      pending := pending + {ep};
      states := states[ep := states[ep].(alive := false)];
    }

    method RealMarkAliveNow(ep: Endpoint, now: int)
      requires ep in states
      modifies this
      ensures State() == RealMarkAlive(old(State()), ep, now)
    {
      states := states[ep := states[ep].(alive := true, timestamp := now)];
      live := live + {ep};
      if ep !in justAdded {
        justAdded := justAdded + [ep];
      }
      unreachable := unreachable - {ep};
      expireTimes := expireTimes - {ep};
    }

    method EchoAnswered(ep: Endpoint, answered: bool, now: int)
      modifies this
      ensures State() == EchoReply(old(State()), ep, answered, now)
    {
      if answered && ep in states {
        RealMarkAliveNow(ep, now);
      }
      pending := pending - {ep};
    }

    /** std::list::remove */
    method DropJustAdded(ep: Endpoint)
      modifies this
      ensures State() == old(State()).(justAdded := Without(old(justAdded), ep))
    {
      var kept := [];
      var k := |justAdded|;
      while k > 0
        invariant 0 <= k <= |justAdded|
        invariant State() == old(State())
        invariant kept == Without(justAdded[k..], ep)
      {
        k := k - 1;
        assert justAdded[k..][1..] == justAdded[k+1..];
        kept := (if justAdded[k] == ep then [] else [justAdded[k]]) + kept;
      }
      assert justAdded[0..] == justAdded;
      justAdded := kept;
    }

    method MarkDeadNow(ep: Endpoint, now: int)
      requires ep in states
      modifies this
      ensures State() == MarkDead(old(State()), ep, now)
    {
      states := states[ep := states[ep].(alive := false)];
      live := live - {ep};
      DropJustAdded(ep);
      unreachable := unreachable[ep := now];
    }

    /** do_gossip_to_live_member: the endpoints of which one gets the SYN; a newly added node is favoured. */
    method GossipToLiveMember() returns (candidates: set<Endpoint>)
      modifies this
      ensures State() == PopJustAdded(old(State()))
      ensures candidates == if old(live) == {} || old(justAdded) == [] then old(live) else {old(justAdded)[0]}
    {
      candidates := live;
      if live != {} && justAdded != [] {
        candidates := {justAdded[0]};
        justAdded := justAdded[1..];
      }
    }

    // -------------------------------------------------- applying messages

    method MajorStateChange(ep: Endpoint, c: Content, now: int)
      modifies this
      ensures State() == HandleMajorStateChange(old(State()), ep, c, now)
    {
      states := states[ep := EndpointState(c, now, true)];
      if inShadowRound {
        return;
      }
      if IsDeadState(c) {
        MarkDeadNow(ep, now);
      } else if !IsShutdownState(c) {
        MarkAlivePending(ep);
      }
      if IsShutdownState(c) {
        Shutdown(ep, now);
      }
    }

    /** What apply_new_states has built when the values under `left` are still to come. */
    static ghost function Overlaid(local: Content, remote: Content, left: set<ApplicationState>): Content {
      Content(remote.hb, local.apps + (map k | k in remote.apps && k !in left :: remote.apps[k]))
    }

    static lemma OverlayEnds(local: Content, remote: Content)
      ensures Overlaid(local, remote, remote.apps.Keys) == Content(remote.hb, local.apps)
      ensures Overlaid(local, remote, {}) == Merge(local, remote)
    {
      assert Overlaid(local, remote, remote.apps.Keys).apps == local.apps;
      assert Overlaid(local, remote, {}).apps == local.apps + remote.apps;
    }

    static lemma OverlayOne(local: Content, remote: Content, left: set<ApplicationState>, k: ApplicationState)
      requires k in left && left <= remote.apps.Keys
      ensures var c := Overlaid(local, remote, left);
        Overlaid(local, remote, left - {k}) == c.(apps := c.apps[k := remote.apps[k]])
    {
    }

    /** apply_new_states; `threw` is its generation-mismatch exception, which cannot happen. */
    method ApplyNewStates(ep: Endpoint, remote: Content, now: int) returns (threw: bool)
      requires ep in states
      modifies this
      ensures !threw
      ensures State() == old(State()).(states := old(states)[ep :=
                old(states)[ep].(content := Merge(old(states)[ep].content, remote), timestamp := now)])
    {
      threw := false;
      var local := states[ep];
      var content := Content(remote.hb, local.content.apps);
      var keys := remote.apps.Keys;
      OverlayEnds(local.content, remote);
      while keys != {}
        invariant State() == old(State()) && !threw && keys <= remote.apps.Keys
        invariant content.hb == remote.hb && content == Overlaid(local.content, remote, keys)
        decreases |keys|
      {
        hide Overlaid;
        var k :| k in keys;
        if remote.hb.generation != content.hb.generation {
          return true;
        }
        OverlayOne(local.content, remote, keys, k);
        content := content.(apps := content.apps[k := remote.apps[k]]);
        keys := keys - {k};
      }
      states := states[ep := local.(content := content, timestamp := now)];
    }

    method ApplyEntryLocally(ep: Endpoint, remote: Content, now: int)
      modifies this
      ensures State() == ApplyEntry(old(State()), ep, remote, now)
    {
      if (ep == self && !inShadowRound) || ep in justRemoved {
        return;
      }
      if ep !in states {
        MajorStateChange(ep, remote, now);
        return;
      }
      var local := states[ep].content;
      if local.hb.generation != 0 && remote.hb.generation > local.hb.generation + MAX_GENERATION_DIFFERENCE {
        return;
      }
      if remote.hb.generation > local.hb.generation {
        MajorStateChange(ep, remote, now);
      } else if remote.hb.generation == local.hb.generation {
        var localMax := GetMaxVersion(local);
        var remoteMax := GetMaxVersion(remote);
        if remoteMax > localMax {
          var threw := ApplyNewStates(ep, remote, now);
        }
        assert State() == Absorb(old(State()), ep, remote, now);
        if !states[ep].alive && !IsDeadState(states[ep].content) {
          MarkAlivePending(ep);
        }
      }
    }

    method ApplyStateLocally(m: ContentMap, now: int) returns (ghost order: seq<Endpoint>)
      modifies this
      ensures Enumerates(order, m.Keys)
      ensures State() == ApplyAll(old(State()), m, order, now)
    {
      hide ApplyEntry;
      order := [];
      var keys := m.Keys;
      while keys != {}
        invariant keys <= m.Keys
        invariant Enumerates(order, m.Keys - keys)
        invariant State() == ApplyAll(old(State()), m, order, now)
        decreases |keys|
      {
        SomeEndpoint(keys);
        var ep :| ep in keys;
        ApplyEntryLocally(ep, m[ep], now);
        EnumeratesMore(order, m.Keys - keys, ep);
        ghost var more := order + [ep];
        assert more[..|more|-1] == order;
        order := more;
        assert m.Keys - (keys - {ep}) == m.Keys - keys + {ep};
        keys := keys - {ep};
      }
    }

    /** The states after the entries of `done` were looked at. */
    static ghost function Stamped(states: StateMap, m: ContentMap, done: set<Endpoint>, now: int): StateMap {
      map e | e in states ::
        if e in m && e in done && IsNews(states[e].content, m[e]) then states[e].(timestamp := now) else states[e]
    }

    static lemma StampOne(states: StateMap, m: ContentMap, done: set<Endpoint>, ep: Endpoint, now: int)
      requires ep in m && ep !in done
      ensures ep in Stamped(states, m, done, now) <==> ep in states
      ensures ep in states ==> Stamped(states, m, done, now)[ep] == states[ep]
      ensures Stamped(states, m, done + {ep}, now) ==
        if ep in states && IsNews(states[ep].content, m[ep])
        then Stamped(states, m, done, now)[ep := states[ep].(timestamp := now)]
        else Stamped(states, m, done, now)
    {
    }

    static lemma StampEnds(states: StateMap, m: ContentMap, now: int)
      ensures Stamped(states, m, {}, now) == states
      ensures forall n: Node | n.states == states ::
                NotifyFailureDetector(n, m, now) == n.(states := Stamped(states, m, m.Keys, now))
    {
      forall n: Node | n.states == states
        ensures NotifyFailureDetector(n, m, now) == n.(states := Stamped(states, m, m.Keys, now))
      {
        assert NotifyFailureDetector(n, m, now).states == Stamped(states, m, m.Keys, now);
      }
    }

    /** The known endpoints among `done` with news; those of them that were dead and restarted. */
    static ghost function Reported(states: StateMap, m: ContentMap, done: set<Endpoint>): set<Endpoint> {
      set e | e in done && e in m && e in states && IsNews(states[e].content, m[e])
    }

    static ghost function Cleared(states: StateMap, m: ContentMap, done: set<Endpoint>): set<Endpoint> {
      set e | e in done && e in m && e in states && !states[e].alive
              && m[e].hb.generation > states[e].content.hb.generation
    }

    static lemma ReportOne(states: StateMap, m: ContentMap, done: set<Endpoint>, ep: Endpoint)
      requires ep in m && ep !in done
      ensures Reported(states, m, done + {ep}) ==
        Reported(states, m, done) + if ep in states && IsNews(states[ep].content, m[ep]) then {ep} else {}
      ensures Cleared(states, m, done + {ep}) ==
        Cleared(states, m, done) +
        if ep in states && !states[ep].alive && m[ep].hb.generation > states[ep].content.hb.generation then {ep} else {}
    {
    }

    /** notify_failure_detector, with the endpoints it clears from and reports to the failure detector. */
    method NotifyDetector(m: ContentMap, now: int) returns (reported: set<Endpoint>, cleared: set<Endpoint>)
      modifies this
      ensures State() == NotifyFailureDetector(old(State()), m, now)
      ensures reported == Reported(old(states), m, m.Keys) && cleared == Cleared(old(states), m, m.Keys)
    {
      reported, cleared := {}, {};
      assert reported == Reported(old(states), m, {}) && cleared == Cleared(old(states), m, {});
      hide Stamped, NotifyFailureDetector, Reported, Cleared;
      var keys := m.Keys;
      StampEnds(states, m, now);
      assert m.Keys - keys == {};
      while keys != {}
        invariant keys <= m.Keys
        invariant State() == old(State()).(states := Stamped(old(states), m, m.Keys - keys, now))
        invariant reported == Reported(old(states), m, m.Keys - keys)
        invariant cleared == Cleared(old(states), m, m.Keys - keys)
        decreases |keys|
      {
        SomeEndpoint(keys);
        var ep :| ep in keys;
        StampOne(old(states), m, m.Keys - keys, ep, now);
        ReportOne(old(states), m, m.Keys - keys, ep);
        assert m.Keys - (keys - {ep}) == m.Keys - keys + {ep};
        if ep in states {
          var news, restarted := NotifyOne(ep, m[ep], now);
          if restarted {
            cleared := cleared + {ep};
          }
          if news {
            reported := reported + {ep};
          }
        }
        keys := keys - {ep};
      }
      assert m.Keys - keys == m.Keys;
    }

    /** The part about one known endpoint. */
    method NotifyOne(ep: Endpoint, remote: Content, now: int) returns (news: bool, restarted: bool)
      requires ep in states
      modifies this
      ensures news <==> IsNews(old(states)[ep].content, remote)
      ensures restarted <==> !old(states)[ep].alive && remote.hb.generation > old(states)[ep].content.hb.generation
      ensures State() == old(State()).(states :=
                if news then old(states)[ep := old(states)[ep].(timestamp := now)] else old(states))
    {
      var local := states[ep].content;
      news, restarted := false, false;
      if remote.hb.generation > local.hb.generation {
        news, restarted := true, !states[ep].alive;
        states := states[ep := states[ep].(timestamp := now)];
        return;
      }
      if remote.hb.generation == local.hb.generation {
        var max := GetMaxVersion(local);
        if remote.hb.version > max {
          news := true;
          states := states[ep := states[ep].(timestamp := now)];
        }
      }
    }

    method ReplyDeltas(ds: seq<Digest>) returns (r: ContentMap)
      ensures r == Replies(states, ds)
    {
      hide Delta;
      r := map[];
      for k := 0 to |ds|
        invariant r == Replies(states, ds[..k])
      {
        var d := ds[k];
        assert ds[..k+1][..k] == ds[..k];
        if d.ep in states {
          var cut := GetStateAbove(states[d.ep].content, d.maxVersion);
          if cut.Some? && d.ep !in r {
            r := r[d.ep := cut.value];
          }
        }
      }
      assert ds[..|ds|] == ds;
    }

    method HandleAckMsg(ack: Ack, now: int) returns (reply: Option<ContentMap>, ghost order: seq<Endpoint>)
      modifies this
      ensures Enumerates(order, ack.states.Keys)
      ensures (State(), reply) == HandleAck(old(State()), ack, order, now)
    {
      hide ApplyAll, Replies, NotifyFailureDetector;
      reply := None;
      if !enabled && !inShadowRound {
        order := EnumerateKeys(ack.states);
        return;
      }
      var reported, cleared := NotifyDetector(ack.states, now);
      order := ApplyStateLocally(ack.states, now);
      if inShadowRound {
        inShadowRound := false;
        return;
      }
      var r := ReplyDeltas(ack.digests);
      reply := Some(r);
    }

    ghost method EnumerateKeys(m: ContentMap) returns (order: seq<Endpoint>)
      ensures Enumerates(order, m.Keys)
    {
      order := [];
      var keys := m.Keys;
      while keys != {}
        invariant keys <= m.Keys && Enumerates(order, m.Keys - keys)
        decreases |keys|
      {
        SomeEndpoint(keys);
        var ep :| ep in keys;
        EnumeratesMore(order, m.Keys - keys, ep);
        order := order + [ep];
        assert m.Keys - (keys - {ep}) == m.Keys - keys + {ep};
        keys := keys - {ep};
      }
    }

    method HandleAck2Msg(m: ContentMap, now: int) returns (ghost order: seq<Endpoint>)
      modifies this
      ensures Enumerates(order, m.Keys)
      ensures State() == HandleAck2(old(State()), m, order, now)
    {
      hide ApplyAll, NotifyFailureDetector;
      if !enabled {
        order := EnumerateKeys(m);
        return;
      }
      var reported, cleared := NotifyDetector(m, now);
      order := ApplyStateLocally(m, now);
    }

    // ------------------------------------------------------- own updates

    method UpdateHeartBeat(now: int)
      requires version < INT32_MAX
      modifies this
      ensures State() == Beat(old(State()), now)
    {
      if self !in states {
        states := states[self := EndpointState(Content(HeartBeat(0, 0), map[]), now, true)];
      }
      version := version + 1;
      var s := states[self];
      states := states[self := s.(content := s.content.(hb := s.content.hb.(version := version)))];
    }

    /** False stands for the exception thrown when the node has no state of its own yet. */
    method AddLocalState(k: ApplicationState, value: string) returns (ok: bool)
      requires version < INT32_MAX
      modifies this
      ensures ok <==> old(self in states)
      ensures State() == if ok then AddLocalApplicationState(old(State()), k, value) else old(State())
    {
      ok := self in states;
      if ok {
        version := version + 1;
        var s := states[self];
        var apps := s.content.apps[k := VersionedValue(version, value)];
        states := states[self := s.(content := s.content.(apps := apps))];
      }
    }

    // ----------------------------------------------------------- removal

    method Remove(ep: Endpoint, now: int)
      modifies this
      ensures State() == RemoveEndpoint(old(State()), ep, now)
    {
      live := live - {ep};
      DropJustAdded(ep);
      unreachable := unreachable - {ep};
      justRemoved := justRemoved[ep := now];
    }

    method EvictFromMembership(ep: Endpoint, now: int)
      modifies this
      ensures State() == Evict(old(State()), ep, now)
    {
      unreachable := unreachable - {ep};
      states := states - {ep};
      expireTimes := expireTimes - {ep};
      justRemoved := justRemoved[ep := now];
    }

    method Replaced(ep: Endpoint, now: int)
      modifies this
      ensures State() == ReplacedEndpoint(old(State()), ep, now)
    {
      Remove(ep, now);
      EvictFromMembership(ep, now);
      justRemoved := justRemoved[ep := now + QUARANTINE_DELAY];
    }

    method AddExpireTimeFor(ep: Endpoint, at: int)
      modifies this
      ensures State() == AddExpireTime(old(State()), ep, at)
    {
      expireTimes := expireTimes[ep := at];
    }

    method AddSaved(ep: Endpoint, now: int)
      modifies this
      ensures State() == AddSavedEndpoint(old(State()), ep, now)
    {
      if ep == self {
        return;
      }
      var s := EndpointState(Content(HeartBeat(0, 0), map[]), now, true);
      if ep in states {
        s := states[ep];
        s := s.(content := s.content.(hb := HeartBeat(0, 0)), timestamp := now);
      }
      states := states[ep := s.(alive := false)];
      unreachable := unreachable[ep := now];
    }

    // -------------------------------------------- conviction and status check

    /** convict, called back by the failure detector */
    method ConvictEndpoint(ep: Endpoint, now: int)
      modifies this
      ensures State() == Convict(old(State()), ep, now)
      decreases if ep in states && states[ep].alive then 2 else 0
    {
      if ep !in states || !states[ep].alive {
        return;
      }
      if IsShutdownState(states[ep].content) {
        Shutdown(ep, now);
      } else {
        MarkDeadNow(ep, now);
      }
    }

    /** mark_as_shutdown; force_conviction convicts at once */
    method Shutdown(ep: Endpoint, now: int)
      modifies this
      ensures State() == MarkAsShutdown(old(State()), ep, now)
      decreases 1
    {
      if ep in states {
        var s := states[ep];
        states := states[ep := s.(content := s.content.(hb := s.content.hb.(version := INT32_MAX)))];
        MarkDeadNow(ep, now);
        ConvictEndpoint(ep, now);
      }
    }

    /** The loop body of do_status_check */
    method CheckOne(ep: Endpoint, convicted: bool, isMember: bool, now: int)
      modifies this
      ensures State() == CheckEndpoint(old(State()), ep, convicted, isMember, now)
    {
      if ep !in states || ep == self {
        return;
      }
      var wasAlive := states[ep].alive;
      if convicted {
        ConvictEndpoint(ep, now);
      }
      if ep in states && !IsDeadState(states[ep].content) && !isMember
         && ep !in justRemoved && now - states[ep].timestamp > FAT_CLIENT_TIMEOUT {
        Remove(ep, now);
        EvictFromMembership(ep, now);
      }
      var expire := if ep in expireTimes then expireTimes[ep] else now + A_VERY_LONG_TIME;
      if !wasAlive && now > expire && isMember {
        EvictFromMembership(ep, now);
      }
    }

    method DoStatusCheck(convicted: set<Endpoint>, members: set<Endpoint>, now: int)
      returns (ghost order: seq<Endpoint>)
      modifies this
      ensures Enumerates(order, old(states).Keys)
      ensures State() == StatusCheck(old(State()), order, convicted, members, now)
    {
      order := CheckEach(convicted, members, now);
      LiftQuarantines(now);
    }

    method CheckEach(convicted: set<Endpoint>, members: set<Endpoint>, now: int)
      returns (ghost order: seq<Endpoint>)
      modifies this
      ensures Enumerates(order, old(states).Keys)
      ensures State() == CheckAll(old(State()), order, convicted, members, now)
    {
      hide CheckEndpoint;
      order := [];
      var all := states.Keys;
      var keys := all;
      while keys != {}
        invariant keys <= all && Enumerates(order, all - keys)
        invariant State() == CheckAll(old(State()), order, convicted, members, now)
        decreases |keys|
      {
        SomeEndpoint(keys);
        var ep :| ep in keys;
        CheckOne(ep, ep in convicted, ep in members, now);
        EnumeratesMore(order, all - keys, ep);
        ghost var more := order + [ep];
        assert more[..|more|-1] == order;
        order := more;
        assert all - (keys - {ep}) == all - keys + {ep};
        keys := keys - {ep};
      }
    }

    method LiftQuarantines(now: int)
      modifies this
      ensures State() == old(State()).(justRemoved :=
                map e | e in old(justRemoved) && now - old(justRemoved)[e] <= QUARANTINE_DELAY :: old(justRemoved)[e])
    {
      var keys := justRemoved.Keys;
      while keys != {}
        invariant keys <= old(justRemoved).Keys
        invariant State() == old(State()).(justRemoved := justRemoved)
        invariant justRemoved == map e | e in old(justRemoved)
                    && (e in keys || now - old(justRemoved)[e] <= QUARANTINE_DELAY) :: old(justRemoved)[e]
        decreases |keys|
      {
        SomeEndpoint(keys);
        var ep :| ep in keys;
        if now - justRemoved[ep] > QUARANTINE_DELAY {
          justRemoved := justRemoved - {ep};
        }
        keys := keys - {ep};
      }
    }
  }
}
