/**
 The versioned state of an endpoint, and the two operations gossip is built from:
 cutting out "everything with a version above v" and laying such a cut over an
 older copy.  (gms/endpoint_state.hh, gms/heart_beat_state.hh, gms/versioned_value.hh,
 gms/gossip_digest.hh)
 */
module EndpointStates {
  import opened Wrappers

  /** inet_address: the raw address of a node; only equality of addresses matters here. */
  type Endpoint = int

  const INT32_MAX: int := 0x7fff_ffff

  type int32 = x: int | -0x8000_0000 <= x <= 0x7fff_ffff

  /** Keys of the application-state map. */
  datatype ApplicationState =
    | STATUS | LOAD | SCHEMA | DC | RACK | RELEASE_VERSION | REMOVAL_COORDINATOR
    | INTERNAL_IP | RPC_ADDRESS | X_11_PADDING | SEVERITY | NET_VERSION | HOST_ID
    | TOKENS | SUPPORTED_FEATURES
    | X2 | X3 | X4 | X5 | X6 | X7 | X8 | X9 | X10

  datatype VersionedValue = VersionedValue(version: int32, value: string)

  datatype HeartBeat = HeartBeat(generation: int32, version: int32)

  type AppMap = map<ApplicationState, VersionedValue>

  /** The part of an endpoint state that travels in messages. */
  datatype Content = Content(hb: HeartBeat, apps: AppMap)

  /** An endpoint state as a node stores it; the last two fields are never serialized. */
  datatype EndpointState = EndpointState(content: Content, timestamp: int, alive: bool)

  datatype Digest = Digest(ep: Endpoint, generation: int32, maxVersion: int32)

  // ---------------------------------------------------------------- versions

  /** What get_max_endpoint_state_version promises: the greatest version, of the heartbeat or of a value. */
  ghost predicate IsMaxVersion(c: Content, m: int) {
    && c.hb.version <= m
    && (forall k | k in c.apps :: c.apps[k].version <= m)
    && (m == c.hb.version || exists k | k in c.apps :: c.apps[k].version == m)
  }

  ghost function MaxOver(apps: AppMap, keys: set<ApplicationState>, start: int32): (m: int32)
    requires keys <= apps.Keys
    ensures start <= m
    ensures forall k | k in keys :: apps[k].version <= m
    ensures m == start || exists k | k in keys :: apps[k].version == m
    decreases keys
  {
    if keys == {} then start
    else
      var k :| k in keys;
      var v := apps[k].version;
      MaxOver(apps, keys - {k}, if start < v then v else start)
  }

  ghost function MaxVersion(c: Content): (m: int32)
    ensures IsMaxVersion(c, m)
  {
    MaxOver(c.apps, c.apps.Keys, c.hb.version)
  }

  lemma MaxVersionUnique(c: Content, m: int)
    requires IsMaxVersion(c, m)
    ensures MaxVersion(c) == m
  {
  }

  /** The pair a digest summarises a whole state by, ordered lexicographically. */
  datatype Key = Key(generation: int, version: int)

  predicate Leq(a: Key, b: Key) {
    a.generation < b.generation || (a.generation == b.generation && a.version <= b.version)
  }

  ghost function KeyOf(c: Content): Key {
    Key(c.hb.generation, MaxVersion(c))
  }

  // ---------------------------------------------------------- cut and overlay

  function AppsAbove(apps: AppMap, v: int): AppMap {
    map k | k in apps && apps[k].version > v :: apps[k]
  }

  /** get_state_for_version_bigger_than: the old heartbeat travels along with newer values. */
  function Delta(c: Content, v: int): Option<Content> {
    if c.hb.version > v || AppsAbove(c.apps, v) != map[] then
      Some(Content(c.hb, AppsAbove(c.apps, v)))
    else
      None
  }

  /** apply_new_states: heartbeat replaced, received values laid over the stored ones. */
  function Merge(local: Content, remote: Content): Content {
    Content(remote.hb, local.apps + remote.apps)
  }

  /** A cut exists exactly when the state holds something newer, and it keeps the key of the whole. */
  lemma DeltaKey(c: Content, v: int)
    ensures Delta(c, v).Some? <==> MaxVersion(c) > v
    ensures Delta(c, v).Some? ==> KeyOf(Delta(c, v).value) == KeyOf(c)
  {
    var above := AppsAbove(c.apps, v);
    if above != map[] {
      assert exists k :: k in above;
    }
    if MaxVersion(c) > v && c.hb.version <= v {
      var k :| k in c.apps && c.apps[k].version == MaxVersion(c);
      assert k in above;
    }
    if Delta(c, v).Some? {
      var d := Delta(c, v).value;
      var m := MaxVersion(c);
      if m != c.hb.version {
        var k :| k in c.apps && c.apps[k].version == m;
        assert k in d.apps && d.apps[k].version == m;
      }
      MaxVersionUnique(d, m);
    }
  }

  /** c is what an owner had when d's newest entry up to MaxVersion(c) was written. */
  ghost predicate Precedes(c: Content, d: Content) {
    && c.hb.generation == d.hb.generation
    && MaxVersion(c) <= MaxVersion(d)
    && c.apps.Keys <= d.apps.Keys
    && (forall k | k in d.apps && d.apps[k].version <= MaxVersion(c) :: k in c.apps && c.apps[k] == d.apps[k])
  }

  lemma PrecedesTransitive(c: Content, d: Content, e: Content)
    requires Precedes(c, d) && Precedes(d, e)
    ensures Precedes(c, e)
  {
  }

  /** Laying a later state's cut over an earlier state, from any floor the earlier state covers, rebuilds the later one. */
  lemma MergeDelta(c: Content, d: Content, v: int)
    requires Precedes(c, d) && v <= MaxVersion(c)
    requires Delta(d, v).Some?
    ensures Merge(c, Delta(d, v).value) == d
  {
    var apps := c.apps + AppsAbove(d.apps, v);
    forall k | k in d.apps ensures k in apps && apps[k] == d.apps[k] {
    }
    assert apps == d.apps;
  }

  // -------------------------------------------------------------- histories

  function WithHeartBeatVersion(c: Content, v: int32): Content {
    c.(hb := c.hb.(version := v))
  }

  /** force_highest_possible_version_unsafe */
  function Forced(c: Content): Content {
    WithHeartBeatVersion(c, INT32_MAX)
  }

  function WithGeneration(c: Content, g: int32): Content {
    c.(hb := c.hb.(generation := g))
  }

  function WithValue(c: Content, k: ApplicationState, x: VersionedValue): Content {
    c.(apps := c.apps[k := x])
  }

  /** One update an owner makes to its own state: heartbeat, application value, or a newer generation. */
  ghost predicate OwnerStep(c: Content, d: Content) {
    || (exists v: int32 :: v > MaxVersion(c) && d == WithHeartBeatVersion(c, v))
    || (exists k, x: VersionedValue :: x.version > MaxVersion(c) && d == WithValue(c, k, x))
    || (exists g: int32 :: g > c.hb.generation && d == WithGeneration(c, g))
  }

  /** Every application value an owner publishes carries a version drawn from a counter that starts above zero. */
  ghost predicate Positive(c: Content) {
    && c.hb.version >= 0
    && forall k | k in c.apps :: c.apps[k].version >= 1
  }

  ghost predicate IsHistory(h: seq<Content>) {
    && |h| > 0
    && (forall i | 0 <= i < |h| :: Positive(h[i]))
    && (forall i | 0 < i < |h| :: OwnerStep(h[i-1], h[i]))
  }

  /** d is strictly newer than c and, within a generation, keeps c readable in d. */
  ghost predicate Newer(c: Content, d: Content) {
    && Leq(KeyOf(c), KeyOf(d)) && KeyOf(c) != KeyOf(d)
    && (c.hb.generation == d.hb.generation ==> Precedes(c, d))
  }

  lemma NewerTransitive(c: Content, d: Content, e: Content)
    requires Newer(c, d) && Newer(d, e)
    ensures Newer(c, e)
  {
    if c.hb.generation == e.hb.generation {
      PrecedesTransitive(c, d, e);
    }
  }

  lemma BeatAdvances(c: Content, v: int32)
    requires v > MaxVersion(c)
    ensures Newer(c, WithHeartBeatVersion(c, v))
  {
    MaxVersionUnique(WithHeartBeatVersion(c, v), v);
  }

  lemma ValueAdvances(c: Content, k: ApplicationState, x: VersionedValue)
    requires x.version > MaxVersion(c)
    ensures Newer(c, WithValue(c, k, x))
  {
    var d := WithValue(c, k, x);
    assert d.apps[k].version == x.version;
    MaxVersionUnique(d, x.version);
  }

  /** Every owner update is an advance. */
  lemma OwnerStepAdvances(c: Content, d: Content)
    requires OwnerStep(c, d)
    ensures Newer(c, d)
  {
    if v: int32 :| v > MaxVersion(c) && d == WithHeartBeatVersion(c, v) {
      BeatAdvances(c, v);
    } else if k, x: VersionedValue :| x.version > MaxVersion(c) && d == WithValue(c, k, x) {
      ValueAdvances(c, k, x);
    }
  }

  lemma {:induction false} HistoryAdvances(h: seq<Content>, i: nat, j: nat)
    requires IsHistory(h) && i < j < |h|
    ensures Newer(h[i], h[j])
    decreases j
  {
    hide OwnerStep, Newer, Positive;
    assert OwnerStep(h[j-1], h[j]);
    OwnerStepAdvances(h[j-1], h[j]);
    if i < j - 1 {
      HistoryAdvances(h, i, j - 1);
      NewerTransitive(h[i], h[j-1], h[j]);
    }
  }

  /** Any two states of one owner are equal or one is newer. */
  lemma HistoryIsLinear(h: seq<Content>, c: Content, d: Content)
    requires IsHistory(h) && c in h && d in h
    ensures c == d || Newer(c, d) || Newer(d, c)
  {
    var i :| 0 <= i < |h| && h[i] == c;
    var j :| 0 <= j < |h| && h[j] == d;
    if i < j {
      HistoryAdvances(h, i, j);
    } else if j < i {
      HistoryAdvances(h, j, i);
    }
  }

  /** Two states of one owner with the same (generation, max version) are the same state. */
  lemma KeyDeterminesContent(h: seq<Content>, c: Content, d: Content)
    requires IsHistory(h) && c in h && d in h
    requires KeyOf(c) == KeyOf(d)
    ensures c == d
  {
    HistoryIsLinear(h, c, d);
  }

  /** Among one owner's states of one generation the order of versions is the order of precedence. */
  lemma HistoryPrecedes(h: seq<Content>, c: Content, d: Content)
    requires IsHistory(h) && c in h && d in h
    requires c.hb.generation == d.hb.generation && MaxVersion(c) <= MaxVersion(d)
    ensures Precedes(c, d)
  {
    HistoryIsLinear(h, c, d);
  }

  /** A cut above zero is the whole state. */
  lemma DeltaFromZero(c: Content)
    requires Positive(c)
    ensures MaxVersion(c) >= 1 ==> Delta(c, 0) == Some(c)
    ensures MaxVersion(c) < 1 ==> Delta(c, 0) == None
  {
    assert AppsAbove(c.apps, 0) == c.apps;
    DeltaKey(c, 0);
  }

  // ------------------------------------------------------------ gossip status

  /** The text before the first comma (or all of it). */
  function FirstPiece(s: string): string {
    if s == "" || s[0] == ',' then "" else [s[0]] + FirstPiece(s[1..])
  }

  /** A status is what the text says up to its first comma. */
  lemma {:induction false} FirstPieceExact(v: string, s: string)
    requires ',' !in s
    ensures FirstPiece(v) == s <==> v == s || (|s| < |v| && v[..|s|] == s && v[|s|] == ',')
  {
    if v == "" || v[0] == ',' {
      if s != "" && |s| < |v| {
        assert v[..|s|][0] == v[0];
      }
    } else if s == "" {
      assert FirstPiece(v)[0] == v[0];
    } else {
      FirstPieceExact(v[1..], s[1..]);
      assert FirstPiece(v) == [v[0]] + FirstPiece(v[1..]);
      assert s == [s[0]] + s[1..] && v == [v[0]] + v[1..];
      if |s| < |v| {
        assert v[..|s|] == [v[0]] + v[1..][..|s|-1] && v[|s|] == v[1..][|s|-1];
      }
    }
  }

  function GossipStatus(c: Content): string {
    if STATUS in c.apps then FirstPiece(c.apps[STATUS].value) else ""
  }

  predicate IsDeadState(c: Content) {
    GossipStatus(c) == "LEFT" || GossipStatus(c) == "hibernate"
  }

  const SHUTDOWN: string := "shutdown"

  predicate IsShutdownState(c: Content) {
    GossipStatus(c) == SHUTDOWN
  }
}
