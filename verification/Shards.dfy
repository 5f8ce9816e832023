/**
 Copying the gossiper's state from CPU 0 to the other shards (gms/gossiper.cc, end of run):
 only the parts that differ from CPU 0's shadow copies travel, and a heartbeat of the node
 itself never counts as a difference.
 */
module Shards {
  import opened EndpointStates

  /** The replicated fields of a gossiper. */
  datatype View = View(states: map<Endpoint, EndpointState>, live: set<Endpoint>, unreachable: map<Endpoint, int>)

  const NOTHING: View := View(map[], {}, map[])

  datatype State = State(self: Endpoint, primary: View, shadow: View, others: seq<View>)

  /** A default-constructed endpoint_state. */
  function Blank(now: int): EndpointState {
    EndpointState(Content(HeartBeat(0, 0), map[]), now, true)
  }

  function WithHeartBeat(v: View, ep: Endpoint, hb: HeartBeat, now: int): View {
    var e := if ep in v.states then v.states[ep] else Blank(now);
    v.(states := v.states[ep := e.(content := e.content.(hb := hb))])
  }

  /** The start of run: a new heartbeat version, written to the map and to its shadow. */
  function Beat(s: State, version: int32, now: int): State {
    var e := if s.self in s.primary.states then s.primary.states[s.self] else Blank(now);
    var hb := e.content.hb.(version := version);
    s.(primary := WithHeartBeat(s.primary, s.self, hb, now), shadow := WithHeartBeat(s.shadow, s.self, hb, now))
  }

  /** What one shard takes over from the shadow copies. */
  function Receive(v: View, shadow: View, states: bool, live: bool, unreachable: bool): View {
    View(if states then shadow.states else v.states,
         if live then shadow.live else v.live,
         if unreachable then shadow.unreachable else v.unreachable)
  }

  /** The end of run. */
  function Publish(s: State): State {
    var states := s.shadow.states != s.primary.states;
    var live := s.primary.live != s.shadow.live;
    var unreachable := s.primary.unreachable != s.shadow.unreachable;
    var shadow := Receive(s.shadow, s.primary, states, live, unreachable);
    s.(shadow := shadow,
       others := seq(|s.others|, i requires 0 <= i < |s.others| =>
                   Receive(s.others[i], shadow, states, live, unreachable)))
  }

  /**
   A shard has what `v` has, except that it may be missing `self` or hold an old heartbeat of it.
   */
  ghost predicate Agrees(shard: View, v: View, self: Endpoint) {
    && shard.live == v.live && shard.unreachable == v.unreachable
    && (forall ep | ep != self :: ep in shard.states <==> ep in v.states)
    && (forall ep | ep != self && ep in v.states :: shard.states[ep] == v.states[ep])
    && (self in shard.states ==>
          && self in v.states
          && var mine, theirs := shard.states[self], v.states[self];
             mine == theirs.(content := theirs.content.(hb := mine.content.hb)))
  }

  ghost predicate AllAgree(s: State, v: View) {
    forall i | 0 <= i < |s.others| :: Agrees(s.others[i], v, s.self)
  }

  /** Message handlers change CPU 0's fields in any way; a round also beats and publishes. */
  datatype Step = Handle(after: View) | Round(version: int32, now: int, after: View)

  function Act(s: State, step: Step): State {
    match step
    case Handle(after) => s.(primary := after)
    case Round(version, now, after) => Publish(Beat(s, version, now).(primary := after))
  }

  function Run(s: State, steps: seq<Step>): State {
    if steps == [] then s else Act(Run(s, steps[..|steps|-1]), steps[|steps|-1])
  }

  function Init(self: Endpoint, shards: nat): State {
    State(self, NOTHING, NOTHING, seq(shards, _ => NOTHING))
  }

  lemma BeatKeepsAgreement(s: State, version: int32, now: int)
    requires AllAgree(s, s.shadow)
    ensures var t := Beat(s, version, now); AllAgree(t, t.shadow)
  {
    var t := Beat(s, version, now);
    forall i | 0 <= i < |s.others| ensures Agrees(t.others[i], t.shadow, t.self) {
      assert Agrees(s.others[i], s.shadow, s.self);
    }
  }

  lemma PublishAgrees(s: State)
    requires AllAgree(s, s.shadow)
    ensures var t := Publish(s); AllAgree(t, t.shadow) && t.shadow == t.primary == s.primary
  {
    var t := Publish(s);
    forall i | 0 <= i < |s.others| ensures Agrees(t.others[i], t.shadow, t.self) {
      assert Agrees(s.others[i], s.shadow, s.self);
    }
  }

  lemma {:induction false} ShadowsAgree(self: Endpoint, shards: nat, steps: seq<Step>)
    ensures var s := Run(Init(self, shards), steps); AllAgree(s, s.shadow) && s.self == self && |s.others| == shards
    decreases |steps|
  {
    hide Beat, Publish, Agrees;
    if steps == [] {
      NothingAgrees(self);
    } else {
      var n := |steps| - 1;
      ShadowsAgree(self, shards, steps[..n]);
      var s := Run(Init(self, shards), steps[..n]);
      if steps[n].Round? {
        var b := Beat(s, steps[n].version, steps[n].now);
        BeatKeepsAgreement(s, steps[n].version, steps[n].now);
        var c := b.(primary := steps[n].after);
        forall i | 0 <= i < |c.others| ensures Agrees(c.others[i], c.shadow, c.self) {
          assert Agrees(b.others[i], b.shadow, b.self);
        }
        PublishAgrees(c);
        RoundFrame(s, steps[n].version, steps[n].now, steps[n].after);
      } else {
        var c := s.(primary := steps[n].after);
        forall i | 0 <= i < |c.others| ensures Agrees(c.others[i], c.shadow, c.self) {
          assert Agrees(s.others[i], s.shadow, s.self);
        }
      }
    }
  }

  lemma NothingAgrees(self: Endpoint)
    ensures Agrees(NOTHING, NOTHING, self)
  {
  }

  lemma RoundFrame(s: State, version: int32, now: int, after: View)
    ensures var t := Publish(Beat(s, version, now).(primary := after));
      t.self == s.self && |t.others| == |s.others| && t.primary == after
  {
  }

  /**
   Shard agreement: after every completed round each other shard holds CPU 0's live and
   unreachable sets, and CPU 0's states of all endpoints but the node itself; of the node
   itself it can miss only heartbeats, if it knows it.
   */
  lemma ShardAgreement(self: Endpoint, shards: nat, steps: seq<Step>)
    requires steps != [] && steps[|steps|-1].Round?
    ensures var s := Run(Init(self, shards), steps);
      |s.others| == shards && s.primary == steps[|steps|-1].after && AllAgree(s, s.primary)
  {
    hide Beat, Publish, AllAgree;
    var n := |steps| - 1;
    ShadowsAgree(self, shards, steps[..n]);
    ShadowsAgree(self, shards, steps);
    var s := Run(Init(self, shards), steps[..n]);
    BeatKeepsAgreement(s, steps[n].version, steps[n].now);
    var b := Beat(s, steps[n].version, steps[n].now);
    RoundFrame(s, steps[n].version, steps[n].now, steps[n].after);
    ShadowIsPrimary(b.(primary := steps[n].after));
  }

  lemma ShadowIsPrimary(s: State)
    ensures Publish(s).shadow == Publish(s).primary
  {
  }

  /** A beat gives the node's own entry the new version, in both maps, and touches nothing else. */
  lemma BeatExact(s: State, version: int32, now: int)
    ensures var t := Beat(s, version, now);
      && t.self == s.self && t.others == s.others
      && t.primary.live == s.primary.live && t.primary.unreachable == s.primary.unreachable
      && s.self in t.primary.states && s.self in t.shadow.states
      && t.primary.states[s.self].content.hb == t.shadow.states[s.self].content.hb
      && t.primary.states[s.self].content.hb.version == version
      && (forall ep | ep != s.self :: ep in t.primary.states <==> ep in s.primary.states)
      && (forall ep | ep != s.self && ep in s.primary.states :: t.primary.states[ep] == s.primary.states[ep])
      && var mine := t.primary.states[s.self];
         if s.self in s.primary.states then
           var was := s.primary.states[s.self];
           mine == was.(content := was.content.(hb := was.content.hb.(version := version)))
         else mine == EndpointState(Content(HeartBeat(0, version), map[]), now, true)
  {
  }

  /**
   A round in which only the node's own heartbeat moved sends nothing: the other shards stay as
   they are, whatever happened before.
   */
  lemma QuietRoundSendsNothing(self: Endpoint, shards: nat, steps: seq<Step>, version: int32, now: int)
    requires steps != [] && steps[|steps|-1].Round?
    ensures var s := Run(Init(self, shards), steps);
      var beaten := Beat(s, version, now).primary;
      Act(s, Round(version, now, beaten)) == s.(primary := beaten, shadow := beaten)
  {
    var n := |steps| - 1;
    var before := Run(Init(self, shards), steps[..n]);
    var s := Run(Init(self, shards), steps);
    ShadowIsPrimary(Beat(before, steps[n].version, steps[n].now).(primary := steps[n].after));
    assert s.shadow == s.primary;
    BeatTogether(s, version, now);
    NothingToPublish(Beat(s, version, now));
  }

  lemma BeatTogether(s: State, version: int32, now: int)
    requires s.shadow == s.primary
    ensures var t := Beat(s, version, now); t.shadow == t.primary && t.others == s.others
  {
  }

  lemma NothingToPublish(s: State)
    requires s.shadow == s.primary
    ensures Publish(s) == s
  {
    assert Publish(s).others == s.others;
  }

  class Replicator {
    const self: Endpoint
    var primary: View
    var shadow: View
    var others: seq<View>

    function Current(): State
      reads this
    {
      State(self, primary, shadow, others)
    }

    constructor (ep: Endpoint, shards: nat)
      ensures Current() == Init(ep, shards)
    {
      self, primary, shadow, others := ep, NOTHING, NOTHING, seq(shards, _ => NOTHING);
    }

    method UpdateHeartBeat(version: int32, now: int)
      modifies this
      ensures Current() == Beat(old(Current()), version, now)
    {
      var e := if self in primary.states then primary.states[self] else Blank(now);
      var hb := e.content.hb.(version := version);
      primary := WithHeartBeat(primary, self, hb, now);
      shadow := WithHeartBeat(shadow, self, hb, now);
    }

    method PublishChanges()
      modifies this
      ensures Current() == Publish(old(Current()))
    {
      var statesChanged := shadow.states != primary.states;
      var liveChanged := primary.live != shadow.live;
      var unreachableChanged := primary.unreachable != shadow.unreachable;
      if statesChanged || liveChanged || unreachableChanged {
        if statesChanged {
          shadow := shadow.(states := primary.states);
        }
        if liveChanged {
          shadow := shadow.(live := primary.live);
        }
        if unreachableChanged {
          shadow := shadow.(unreachable := primary.unreachable);
        }
        var i := 0;
        while i < |others|
          invariant 0 <= i <= |others| == |old(others)|
          invariant forall j | 0 <= j < i ::
            others[j] == Receive(old(others)[j], shadow, statesChanged, liveChanged, unreachableChanged)
          invariant forall j | i <= j < |others| :: others[j] == old(others)[j]
          invariant primary == old(primary)
          invariant shadow == Receive(old(shadow), primary, statesChanged, liveChanged, unreachableChanged)
        {
          var v := others[i];
          if statesChanged {
            v := v.(states := shadow.states);
          }
          if liveChanged {
            v := v.(live := shadow.live);
          }
          if unreachableChanged {
            v := v.(unreachable := shadow.unreachable);
          }
          others := others[i := v];
          i := i + 1;
        }
      }
      assert others == Publish(old(Current())).others;
    }
  }
}
