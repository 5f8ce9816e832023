/**
 The ordering of generated types in the IDL compiler (idl-compiler.py, sort_dependencies):
 repeatedly emit every type whose dependencies have all been emitted.
 */
module DependencySort {
  import opened Wrappers

  type Name = string

  type Dependencies = map<Name, set<Name>>

  /** An acyclic dependency map, closed over its keys: every dependency has a smaller rank. */
  ghost predicate IsRank(deps: Dependencies, rank: map<Name, nat>) {
    && rank.Keys == deps.Keys
    && forall k, d | k in deps && d in deps[k] :: d in deps && rank[d] < rank[k]
  }

  /** Each type once, after everything it depends on. */
  ghost predicate IsPartialOrder(deps: Dependencies, res: seq<Name>) {
    && (forall i | 0 <= i < |res| :: res[i] in deps)
    && (forall i, j | 0 <= i < j < |res| :: res[i] != res[j])
    && (forall i, d | 0 <= i < |res| && d in deps[res[i]] :: d in res[..i])
  }

  ghost predicate IsOrder(deps: Dependencies, res: seq<Name>) {
    IsPartialOrder(deps, res) && forall k | k in deps :: k in res
  }

  /** dep_tree once the types in `done` are emitted. */
  function Remaining(deps: Dependencies, done: set<Name>): Dependencies {
    map k | k in deps && k !in done :: deps[k] - done
  }

  function Ready(tree: Dependencies): set<Name> {
    set k | k in tree && tree[k] == {}
  }

  ghost predicate IsLowest(keys: set<Name>, rank: map<Name, nat>, k: Name)
    requires keys <= rank.Keys
  {
    k in keys && forall d | d in keys :: rank[k] <= rank[d]
  }

  lemma {:induction false} LowestRank(keys: set<Name>, rank: map<Name, nat>)
    requires keys != {} && keys <= rank.Keys
    ensures exists k :: IsLowest(keys, rank, k)
    decreases keys
  {
    var k :| k in keys;
    if keys == {k} {
      assert IsLowest(keys, rank, k);
    } else {
      LowestRank(keys - {k}, rank);
      var m :| IsLowest(keys - {k}, rank, m);
      var low := if rank[k] < rank[m] then k else m;
      forall d | d in keys ensures rank[low] <= rank[d] {
        assert d == k || d in keys - {k};
      }
      assert IsLowest(keys, rank, low);
    }
  }

  /** An acyclic map always has a type ready to be emitted. */
  lemma SomeReady(deps: Dependencies, done: set<Name>, rank: map<Name, nat>)
    requires IsRank(deps, rank)
    ensures var tree := Remaining(deps, done); tree == map[] || Ready(tree) != {}
  {
    var tree := Remaining(deps, done);
    var keys := deps.Keys - done;
    assert tree.Keys == keys;
    if keys != {} {
      LowestRank(keys, rank);
      var k :| IsLowest(keys, rank, k);
      forall d | d in deps[k] ensures d in done {
        assert d in done || d in keys;
      }
      assert tree[k] == {};
      assert k in Ready(tree);
    } else {
      assert tree == map[];
    }
  }

  /** A complete order is itself a rank. */
  lemma OrderIsRank(deps: Dependencies, res: seq<Name>)
    requires IsOrder(deps, res)
    ensures exists rank :: IsRank(deps, rank)
  {
    var rank := map k | k in deps :: Position(res, k);
    forall k, d | k in deps && d in deps[k] ensures d in deps && rank[d] < rank[k] {
      var i := Position(res, k);
      assert res[i] == k;
      var j :| 0 <= j < i && res[..i][j] == d;
      PositionIsFirst(res, d, j);
    }
    assert IsRank(deps, rank);
  }

  function Position(res: seq<Name>, k: Name): (i: nat)
    requires k in res
    ensures i < |res| && res[i] == k
  {
    if res[0] == k then 0 else 1 + Position(res[1..], k)
  }

  lemma {:induction false} PositionIsFirst(res: seq<Name>, k: Name, j: nat)
    requires j < |res| && res[j] == k
    ensures Position(res, k) <= j
  {
    if res[0] != k {
      PositionIsFirst(res[1..], k, j - 1);
    }
  }

  lemma RemainingNone(deps: Dependencies)
    ensures Remaining(deps, {}) == deps
  {
    assert forall k | k in deps :: deps[k] - {} == deps[k];
  }

  lemma RemainingStep(deps: Dependencies, done: set<Name>, found: set<Name>)
    requires found == Ready(Remaining(deps, done))
    ensures var tree := Remaining(deps, done);
      Remaining(deps, done + found) == map k | k in tree && k !in found :: tree[k] - found
    ensures found !! done && found <= deps.Keys
    ensures forall k, d | k in found && d in deps[k] :: d in done
  {
    var tree := Remaining(deps, done);
    assert forall k | k in tree :: (deps[k] - done) - found == deps[k] - (done + found);
    forall k, d | k in found && d in deps[k] ensures d in done {
      assert tree[k] == {};
      assert d !in deps[k] - done;
    }
  }

  /** res + [k for k in found]. */
  method Append(deps: Dependencies, res: seq<Name>, found: set<Name>) returns (r: seq<Name>)
    requires IsPartialOrder(deps, res)
    requires forall k | k in found :: k in deps && k !in res && forall d | d in deps[k] :: d in res
    ensures IsPartialOrder(deps, r)
    ensures forall k :: k in r <==> k in res || k in found
  {
    r := res;
    var rest := found;
    while rest != {}
      invariant rest <= found && res <= r && IsPartialOrder(deps, r)
      invariant forall k | k in rest :: k !in r
      invariant forall k :: k in r <==> k in res || k in found - rest
      decreases rest
    {
      var k :| k in rest;
      ghost var before := r;
      r := r + [k];
      assert forall i | 0 <= i < |before| :: r[..i] == before[..i];
      assert r[..|before|] == before;
      rest := rest - {k};
    }
  }

  /**
   Some ordering exactly when the dependencies are acyclic and closed; None stands for the
   loop that no longer makes progress.
   */
  method SortDependencies(deps: Dependencies) returns (r: Option<seq<Name>>)
    ensures r.Some? ==> IsOrder(deps, r.value)
    ensures r.Some? <==> exists rank :: IsRank(deps, rank)
  {
    var tree := deps;
    var res: seq<Name> := [];
    ghost var done: set<Name> := {};
    RemainingNone(deps);
    while tree != map[]
      invariant IsPartialOrder(deps, res)
      invariant forall k :: k in res <==> k in done
      invariant done <= deps.Keys && tree == Remaining(deps, done)
      decreases deps.Keys - done
    {
      var found := Ready(tree);
      if found == {} {
        forall rank | IsRank(deps, rank) ensures false {
          SomeReady(deps, done, rank);
        }
        return None;
      }
      RemainingStep(deps, done, found);
      res := Append(deps, res, found);
      done := done + found;
      tree := map k | k in tree && k !in found :: tree[k] - found;
    }
    forall k | k in deps ensures k in done {
      assert k in done || k in tree;
    }
    OrderIsRank(deps, res);
    r := Some(res);
  }
}
