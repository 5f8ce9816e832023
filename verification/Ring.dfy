/**
 The consistent-hash ring (ring.cc) and its two caches.  Tokens are the points of a total
 order, here the integers; a key belongs to the first token at or after its own, and to the
 lowest token past the end.
 */
module Rings {
  import opened EndpointStates

  type Token = int

  /** A default-constructed inet_address, which operator[] inserts for a token without an owner. */
  const NO_ADDRESS: Endpoint := 0

  predicate IsSorted(ts: seq<Token>) {
    forall i, j | 0 <= i < j < |ts| :: ts[i] <= ts[j]
  }

  /** std::lower_bound on a sorted list. */
  function LowerBound(ts: seq<Token>, t: Token): (i: nat)
    ensures i <= |ts|
    ensures forall j | 0 <= j < i :: ts[j] < t
    ensures i < |ts| ==> t <= ts[i]
  {
    if ts == [] || t <= ts[0] then 0 else 1 + LowerBound(ts[1..], t)
  }

  /** token_to_index */
  function TokenToIndex(ts: seq<Token>, t: Token): (i: nat)
    requires ts != []
    ensures i < |ts|
  {
    if LowerBound(ts, t) == |ts| then 0 else LowerBound(ts, t)
  }

  function FirstToken(ts: seq<Token>, t: Token): Token
    requires ts != []
  {
    ts[TokenToIndex(ts, t)]
  }

  // --------------------------------------------------------- minimal movement

  /** Going up from t, and from the bottom again past the top, x is met no later than y. */
  predicate Reaches(t: Token, x: Token, y: Token) {
    if t <= x then x <= y || y < t else x <= y < t
  }

  /** A key's token is the one met first. */
  lemma FirstIsNearest(ts: seq<Token>, t: Token, x: Token)
    requires ts != [] && IsSorted(ts)
    ensures x == FirstToken(ts, t) <==> x in ts && forall y | y in ts :: Reaches(t, x, y)
  {
    var first := FirstToken(ts, t);
    forall y | y in ts ensures Reaches(t, first, y) {
      var j :| 0 <= j < |ts| && ts[j] == y;
    }
    if x in ts && forall y | y in ts :: Reaches(t, x, y) {
      assert Reaches(t, x, first) && Reaches(t, first, x);
    }
  }

  /**
   Minimal movement: when x joins the ring, a key moves to x if x is met before the key's
   old token, and stays where it was otherwise.
   */
  lemma MinimalMovement(ts: seq<Token>, us: seq<Token>, x: Token, t: Token)
    requires ts != [] && IsSorted(ts) && IsSorted(us)
    requires forall y :: y in us <==> y == x || y in ts
    ensures us != []
    ensures FirstToken(us, t) == if Reaches(t, x, FirstToken(ts, t)) then x else FirstToken(ts, t)
  {
    assert x in us;
    var first := FirstToken(ts, t);
    FirstIsNearest(ts, t, first);
    var next := if Reaches(t, x, first) then x else first;
    forall y | y in us ensures Reaches(t, next, y) {
      assert y != x ==> Reaches(t, first, y);
    }
    FirstIsNearest(us, t, next);
  }

  // ------------------------------------------------------------------- lookup

  type Owners = map<Token, Endpoint>

  function Owner(owners: Owners, t: Token): Endpoint {
    if t in owners then owners[t] else NO_ADDRESS
  }

  /** _token_to_endpoint[t] leaves t in the map. */
  function Touch(owners: Owners, t: Token): Owners {
    owners[t := Owner(owners, t)]
  }

  /** The i-th token from position `first` on, round the ring. */
  function At(ts: seq<Token>, first: nat, i: nat): Token
    requires ts != []
  {
    ts[(i + first) % |ts|]
  }

  lemma AtFirst(ts: seq<Token>, first: nat)
    requires first < |ts|
    ensures At(ts, first, 0) == ts[first]
  {
    assert (0 + first) % |ts| == first;
  }

  /** What a ring answers without caches: the owners of consecutive positions, at least one. */
  function Replicas(count: nat, ts: seq<Token>, owners: Owners, t: Token): (r: seq<Endpoint>)
    requires ts != []
    ensures |r| == if count == 0 then 1 else count
  {
    var first := TokenToIndex(ts, t);
    seq(if count == 0 then 1 else count, i requires 0 <= i => Owner(owners, At(ts, first, i)))
  }

  /** The tokens in the order they are met from position k on, once round the ring. */
  function Turned(ts: seq<Token>, k: nat): (r: seq<Token>)
    requires k < |ts|
    ensures |r| == |ts|
  {
    ts[k..] + ts[..k]
  }

  lemma FirstPosition(ts: seq<Token>, t: Token, k: nat)
    requires ts != [] && IsSorted(ts) && k < |ts|
    requires ts[k] == FirstToken(ts, t) && forall j | 0 <= j < k :: ts[j] != ts[k]
    ensures TokenToIndex(ts, t) == k
  {
    var i := TokenToIndex(ts, t);
    assert ts[i] == ts[k];
  }

  lemma TurnedAt(ts: seq<Token>, k: nat, i: nat)
    requires k < |ts|
    ensures At(ts, k, i) == Turned(ts, k)[i % |ts|]
  {
    var n := |ts|;
    var j := i % n;
    ModSum(i, k, n);
    assert Turned(ts, k)[j] == if j + k < n then ts[j + k] else ts[j + k - n];
  }

  lemma ModSum(i: nat, k: nat, n: nat)
    requires k < n
    ensures (i + k) % n == if i % n + k < n then i % n + k else i % n + k - n
  {
    var q, j := i / n, i % n;
    assert i + k == q * n + (j + k);
    if j + k < n {
      ModUnique(i + k, n, q, j + k);
    } else {
      assert i + k == (q + 1) * n + (j + k - n);
      ModUnique(i + k, n, q + 1, j + k - n);
    }
  }

  lemma ModUnique(x: nat, n: nat, q: nat, r: nat)
    requires r < n && x == q * n + r
    ensures x % n == r
  {
    var d: int, m: int := q - x / n, n;
    assert d * m == x % n - r;
    assert d >= 1 ==> (d - 1) * m >= 0;
    assert d <= -1 ==> (d + 1) * m <= 0;
  }

  /**
   A key's replicas are the owners of the tokens met from its own token on, one after the other,
   and round again when there are more replicas than tokens.
   */
  lemma ReplicasAreConsecutive(count: nat, ts: seq<Token>, owners: Owners, t: Token, k: nat, i: nat)
    requires ts != [] && IsSorted(ts) && k < |ts|
    requires ts[k] == FirstToken(ts, t) && forall j | 0 <= j < k :: ts[j] != ts[k]
    requires i < |Replicas(count, ts, owners, t)|
    ensures var r := Replicas(count, ts, owners, t);
      && (i < |ts| ==> r[i] == Owner(owners, (ts[k..] + ts[..k])[i]))
      && (i >= |ts| ==> r[i] == r[i - |ts|])
  {
    FirstPosition(ts, t, k);
    TurnedAt(ts, k, i);
    if i < |ts| {
      ModUnique(i, |ts|, 0, i);
    } else {
      TurnedAt(ts, k, i - |ts|);
      ModShift(i, |ts|);
    }
  }

  lemma ModShift(i: nat, n: nat)
    requires 0 < n <= i
    ensures i % n == (i - n) % n
  {
    var q, r := i / n, i % n;
    assert i - n == (q - 1) * n + r;
    assert q >= 1 by { assert q == 0 ==> i == r; }
    ModUnique(i - n, n, q - 1, r);
  }

  /** Each token after the first is the nearest one above the previous token, so no token is met twice. */
  lemma TurnedIsNearest(ts: seq<Token>, k: nat, i: nat)
    requires k < |ts| && 0 < i < |ts| && forall a, b | 0 <= a < b < |ts| :: ts[a] < ts[b]
    ensures var u := ts[k..] + ts[..k];
      && (forall y | y in ts :: Reaches(u[i-1] + 1, u[i], y))
      && (forall j | 0 <= j < i :: u[j] != u[i])
  {
    var n, u := |ts|, ts[k..] + ts[..k];
    var p, q := if i - 1 + k < n then i - 1 + k else i - 1 + k - n, if i + k < n then i + k else i + k - n;
    assert u[i-1] == ts[p] && u[i] == ts[q] && (q == p + 1 || (q == 0 && p == n - 1));
    forall y | y in ts ensures Reaches(u[i-1] + 1, u[i], y) {
      var j :| 0 <= j < n && ts[j] == y;
    }
    forall j | 0 <= j < i ensures u[j] != u[i] {
      var a := if j + k < n then j + k else j + k - n;
      assert u[j] == ts[a] && a != q;
    }
  }

  lemma FirstTokenIsFixed(ts: seq<Token>, t: Token)
    requires ts != [] && IsSorted(ts)
    ensures TokenToIndex(ts, FirstToken(ts, t)) == TokenToIndex(ts, t)
  {
    var i := TokenToIndex(ts, t);
    var j := LowerBound(ts, ts[i]);
    assert j <= i;
  }

  /** A cache entry answers every key that shares its first token. */
  lemma SameFirstSameReplicas(count: nat, ts: seq<Token>, owners: Owners, t: Token)
    requires ts != [] && IsSorted(ts)
    ensures Replicas(count, ts, owners, FirstToken(ts, t)) == Replicas(count, ts, owners, t)
  {
    FirstTokenIsFixed(ts, t);
  }

  lemma ReadIsHeadOfWrite(count: nat, ts: seq<Token>, owners: Owners, t: Token)
    requires ts != []
    ensures Replicas(count, ts, owners, t)[0] == Owner(owners, FirstToken(ts, t))
  {
    hide At;
    AtFirst(ts, TokenToIndex(ts, t));
  }

  lemma SameOwnersSameReplicas(count: nat, ts: seq<Token>, owners: Owners, others: Owners)
    requires ts != [] && forall t :: Owner(owners, t) == Owner(others, t)
    ensures forall t :: Replicas(count, ts, owners, t) == Replicas(count, ts, others, t)
  {
  }

  // ------------------------------------------------------------------- caches

  datatype State = State(
    count: nat, tokens: seq<Token>, owners: Owners,
    writeTargets: map<Token, seq<Endpoint>>, readTargets: map<Token, Endpoint>)

  /** The owner map after reading k consecutive positions from `first` on. */
  function TouchFrom(owners: Owners, ts: seq<Token>, first: nat, k: nat): Owners
    requires ts != []
  {
    if k == 0 then owners else Touch(TouchFrom(owners, ts, first, k - 1), At(ts, first, k - 1))
  }

  lemma {:induction false} TouchKeepsOwners(owners: Owners, ts: seq<Token>, first: nat, k: nat, t: Token)
    requires ts != []
    ensures Owner(TouchFrom(owners, ts, first, k), t) == Owner(owners, t)
  {
    if k > 0 {
      TouchKeepsOwners(owners, ts, first, k - 1, t);
    }
  }

  lemma FirstTouch(owners: Owners, ts: seq<Token>, first: nat)
    requires first < |ts|
    ensures TouchFrom(owners, ts, first, 1) == Touch(owners, ts[first])
  {
    AtFirst(ts, first);
    assert TouchFrom(owners, ts, first, 0) == owners;
  }

  lemma NextTouch(owners: Owners, ts: seq<Token>, first: nat, k: nat)
    requires ts != []
    ensures TouchFrom(owners, ts, first, k + 1) == Touch(TouchFrom(owners, ts, first, k), At(ts, first, k))
  {
  }

  /** get_replica_nodes_for_write */
  function Write(s: State, t: Token): (State, seq<Endpoint>)
    requires s.tokens != []
  {
    var first := FirstToken(s.tokens, t);
    if first in s.writeTargets then (s, s.writeTargets[first])
    else
      var targets := Replicas(s.count, s.tokens, s.owners, t);
      var owners := TouchFrom(s.owners, s.tokens, TokenToIndex(s.tokens, t), |targets|);
      (s.(owners := owners, writeTargets := s.writeTargets[first := targets]), targets)
  }

  /** get_replica_node_for_read */
  function Read(s: State, t: Token): (State, Endpoint)
    requires s.tokens != []
  {
    var first := FirstToken(s.tokens, t);
    if first in s.readTargets then (s, s.readTargets[first])
    else
      var target := Owner(s.owners, first);
      (s.(owners := Touch(s.owners, first), readTargets := s.readTargets[first := target]), target)
  }

  function SetTokens(s: State, tokens: seq<Token>, owners: Owners): State {
    State(s.count, tokens, owners, map[], map[])
  }

  /** Both caches hold what would be computed now. */
  ghost predicate Coherent(s: State)
    requires s.tokens != []
  {
    && (forall t | t in s.writeTargets :: s.writeTargets[t] == Replicas(s.count, s.tokens, s.owners, t))
    && (forall t | t in s.readTargets :: s.readTargets[t] == Replicas(s.count, s.tokens, s.owners, t)[0])
  }

  ghost predicate SameRing(s: State, s': State) {
    s'.count == s.count && s'.tokens == s.tokens && forall t :: Owner(s'.owners, t) == Owner(s.owners, t)
  }

  lemma WriteIsDirect(s: State, t: Token)
    requires s.tokens != [] && IsSorted(s.tokens) && Coherent(s)
    ensures var (s', r) := Write(s, t);
      SameRing(s, s') && Coherent(s') && r == Replicas(s.count, s.tokens, s.owners, t)
  {
    hide Replicas, TouchFrom;
    var (s', r) := Write(s, t);
    SameFirstSameReplicas(s.count, s.tokens, s.owners, t);
    forall u ensures Owner(s'.owners, u) == Owner(s.owners, u) {
      TouchKeepsOwners(s.owners, s.tokens, TokenToIndex(s.tokens, t), |r|, u);
    }
    SameOwnersSameReplicas(s.count, s.tokens, s.owners, s'.owners);
  }

  lemma ReadIsDirect(s: State, t: Token)
    requires s.tokens != [] && IsSorted(s.tokens) && Coherent(s)
    ensures var (s', r) := Read(s, t);
      SameRing(s, s') && Coherent(s') && r == Replicas(s.count, s.tokens, s.owners, t)[0]
  {
    hide Replicas;
    var (s', r) := Read(s, t);
    SameFirstSameReplicas(s.count, s.tokens, s.owners, t);
    ReadIsHeadOfWrite(s.count, s.tokens, s.owners, t);
    SameOwnersSameReplicas(s.count, s.tokens, s.owners, s'.owners);
  }

  // ------------------------------------------------------------ whole histories

  /** A call on the ring. */
  datatype Op = OpWrite(key: Token) | OpRead(key: Token) | OpSet(tokens: seq<Token>, owners: Owners)

  /** Lookups assert that there are tokens, so token lists are sorted and not empty. */
  predicate IsHistory(ops: seq<Op>) {
    forall i | 0 <= i < |ops| && ops[i].OpSet? :: ops[i].tokens != [] && IsSorted(ops[i].tokens)
  }

  function Answers(s: State, ops: seq<Op>): seq<seq<Endpoint>>
    requires s.tokens != [] && IsHistory(ops)
    decreases ops
  {
    if ops == [] then []
    else
      match ops[0]
      case OpWrite(t) => var (s', r) := Write(s, t); [r] + Answers(s', ops[1..])
      case OpRead(t) => var (s', r) := Read(s, t); [[r]] + Answers(s', ops[1..])
      case OpSet(tokens, owners) => [[]] + Answers(SetTokens(s, tokens, owners), ops[1..])
  }

  /** The answers of a ring without caches: a lookup depends only on the tokens set last. */
  function DirectAnswers(count: nat, ts: seq<Token>, owners: Owners, ops: seq<Op>): seq<seq<Endpoint>>
    requires ts != [] && IsHistory(ops)
    decreases ops
  {
    if ops == [] then []
    else
      match ops[0]
      case OpWrite(t) => [Replicas(count, ts, owners, t)] + DirectAnswers(count, ts, owners, ops[1..])
      case OpRead(t) => [[Replicas(count, ts, owners, t)[0]]] + DirectAnswers(count, ts, owners, ops[1..])
      case OpSet(us, others) => [[]] + DirectAnswers(count, us, others, ops[1..])
  }

  /** Any interleaving of lookups and token changes is answered as if there were no caches. */
  lemma {:induction false} CachesAreInvisible(s: State, owners: Owners, ops: seq<Op>)
    requires s.tokens != [] && IsSorted(s.tokens) && Coherent(s) && IsHistory(ops)
    requires forall t :: Owner(s.owners, t) == Owner(owners, t)
    ensures Answers(s, ops) == DirectAnswers(s.count, s.tokens, owners, ops)
    decreases ops
  {
    hide Replicas, Write, Read, IsSorted;
    if ops != [] {
      SameOwnersSameReplicas(s.count, s.tokens, s.owners, owners);
      match ops[0] {
        case OpWrite(t) =>
          WriteIsDirect(s, t);
          CachesAreInvisible(Write(s, t).0, owners, ops[1..]);
        case OpRead(t) =>
          ReadIsDirect(s, t);
          CachesAreInvisible(Read(s, t).0, owners, ops[1..]);
        case OpSet(us, others) =>
          CachesAreInvisible(SetTokens(s, us, others), others, ops[1..]);
      }
    }
  }

  // ---------------------------------------------------------------- the class

  class Ring {
    const replicaCount: nat
    var sortedTokens: seq<Token>
    var tokenToEndpoint: Owners
    var writeTargets: map<Token, seq<Endpoint>>
    var readTargets: map<Token, Endpoint>

    function Current(): State
      reads this
    {
      State(replicaCount, sortedTokens, tokenToEndpoint, writeTargets, readTargets)
    }

    constructor (count: nat)
      ensures Current() == State(count, [], map[], map[], map[])
    {
      replicaCount := count;
      sortedTokens, tokenToEndpoint, writeTargets, readTargets := [], map[], map[], map[];
    }

    /** The owners of consecutive positions, each read through operator[]. */
    method Collect(first: nat) returns (targets: seq<Endpoint>)
      requires first < |sortedTokens|
      modifies this`tokenToEndpoint
      ensures |targets| == if replicaCount == 0 then 1 else replicaCount
      ensures forall j | 0 <= j < |targets| ::
        targets[j] == Owner(old(tokenToEndpoint), At(sortedTokens, first, j))
      ensures tokenToEndpoint == TouchFrom(old(tokenToEndpoint), sortedTokens, first, |targets|)
    {
      hide TouchFrom, At;
      AtFirst(sortedTokens, first);
      FirstTouch(tokenToEndpoint, sortedTokens, first);
      tokenToEndpoint := Touch(tokenToEndpoint, sortedTokens[first]);
      targets := [tokenToEndpoint[sortedTokens[first]]];
      var i := 1;
      while i < replicaCount
        invariant 1 <= i == |targets| && (i < replicaCount || i == if replicaCount == 0 then 1 else replicaCount)
        invariant forall j | 0 <= j < i :: targets[j] == Owner(old(tokenToEndpoint), At(sortedTokens, first, j))
        invariant tokenToEndpoint == TouchFrom(old(tokenToEndpoint), sortedTokens, first, i)
      {
        var token := At(sortedTokens, first, i);
        NextTouch(old(tokenToEndpoint), sortedTokens, first, i);
        TouchKeepsOwners(old(tokenToEndpoint), sortedTokens, first, i, token);
        tokenToEndpoint := Touch(tokenToEndpoint, token);
        targets := targets + [tokenToEndpoint[token]];
        i := i + 1;
      }
    }

    method WriteTargets(key: Token) returns (targets: seq<Endpoint>)
      requires sortedTokens != []
      modifies this
      ensures (Current(), targets) == Write(old(Current()), key)
    {
      hide TouchFrom, At;
      var first := TokenToIndex(sortedTokens, key);
      var firstToken := sortedTokens[first];
      if firstToken in writeTargets {
        return writeTargets[firstToken];
      }
      targets := Collect(first);
      assert targets == Replicas(replicaCount, sortedTokens, old(tokenToEndpoint), key);
      writeTargets := writeTargets[firstToken := targets];
    }

    method ReadTarget(key: Token) returns (target: Endpoint)
      requires sortedTokens != []
      modifies this
      ensures (Current(), target) == Read(old(Current()), key)
    {
      var firstToken := sortedTokens[TokenToIndex(sortedTokens, key)];
      if firstToken in readTargets {
        return readTargets[firstToken];
      }
      tokenToEndpoint := Touch(tokenToEndpoint, firstToken);
      target := tokenToEndpoint[firstToken];
      readTargets := readTargets[firstToken := target];
    }

    method SetSortedTokens(tokens: seq<Token>, owners: Owners)
      modifies this
      ensures Current() == SetTokens(old(Current()), tokens, owners)
    {
      sortedTokens, tokenToEndpoint, writeTargets, readTargets := tokens, owners, map[], map[];
    }
  }
}
