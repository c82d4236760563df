/** Dependency graphs, their layers, and longest-path layering. */
module PlanGraph {
  import opened Prelude

  /** For each agent, the agents it depends on. */
  type Graph = map<string, set<string>>

  ghost predicate Closed(g: Graph) {
    forall a :: a in g ==> g[a] <= g.Keys
  }

  /** The agents outside `done` whose dependencies are all in `done`. */
  function Ready(g: Graph, done: set<string>): set<string> {
    set a | a in g && a !in done && g[a] <= done
  }

  /** The successive sets of ready agents, starting from `done`. */
  function Layers(g: Graph, done: set<string>): seq<set<string>>
    decreases |g.Keys - done|
  {
    var ready := Ready(g, done);
    if ready == {} then []
    else
      ReadyShrinks(g, done);
      [ready] + Layers(g, done + ready)
  }

  lemma ReadyShrinks(g: Graph, done: set<string>)
    requires Ready(g, done) != {}
    ensures |g.Keys - (done + Ready(g, done))| < |g.Keys - done|
  {
    var ready := Ready(g, done);
    assert ready <= g.Keys - done;
    assert g.Keys - (done + ready) == (g.Keys - done) - ready;
  }

  function Union(layers: seq<set<string>>): (s: set<string>)
    ensures forall a :: a in s <==> exists i :: 0 <= i < |layers| && a in layers[i]
  {
    if layers == [] then {} else Union(layers[..|layers| - 1]) + layers[|layers| - 1]
  }

  lemma {:induction false} UnionSplit(a: seq<set<string>>, b: seq<set<string>>)
    ensures Union(a + b) == Union(a) + Union(b)
  {
    forall x ensures x in Union(a + b) <==> x in Union(a) + Union(b) {
      if i :| 0 <= i < |a + b| && x in (a + b)[i] {
        assert i < |a| ==> x in a[i];
        assert i >= |a| ==> x in b[i - |a|];
      }
      if i :| 0 <= i < |a| && x in a[i] {
        assert x in (a + b)[i];
      }
      if i :| 0 <= i < |b| && x in b[i] {
        assert x in (a + b)[|a| + i];
      }
    }
  }

  /** Each layer is what is ready after the layers before it, and nothing is ready after the last. */
  lemma {:induction false} LayersSpec(g: Graph, done: set<string>, i: nat)
    requires i <= |Layers(g, done)|
    ensures var layers := Layers(g, done);
      Ready(g, done + Union(layers[..i])) == (if i < |layers| then layers[i] else {})
    ensures i < |Layers(g, done)| ==> Layers(g, done)[i] != {}
    decreases i
  {
    var layers, ready := Layers(g, done), Ready(g, done);
    if i == 0 {
      assert done + Union(layers[..0]) == done;
    } else {
      LayersSpec(g, done + ready, i - 1);
      assert layers[..i] == [ready] + layers[1..][..i - 1];
      UnionSplit([ready], layers[1..][..i - 1]);
      assert Union([ready]) == ready;
      assert done + Union(layers[..i]) == done + ready + Union(layers[1..][..i - 1]);
    }
  }

  // ---- Longest-path layering ----

  /** Level 0 without dependencies, else one more than the greatest level of a dependency. */
  ghost predicate IsLayering(g: Graph, level: map<string, nat>) {
    && level.Keys == g.Keys && Closed(g)
    && forall a :: a in g ==> IsLevel(g, level, a)
  }

  ghost predicate IsLevel(g: Graph, level: map<string, nat>, a: string)
    requires level.Keys == g.Keys && Closed(g) && a in g
  {
    && (forall d :: d in g[a] ==> level[d] < level[a])
    && (if g[a] == {} then level[a] == 0 else exists d :: d in g[a] && level[d] + 1 == level[a])
  }

  /** A walk along dependencies, from dependent to dependency. */
  ghost predicate IsChain(g: Graph, p: seq<string>) {
    && p != [] && (forall i :: 0 <= i < |p| ==> p[i] in g)
    && (forall i :: 0 <= i < |p| - 1 ==> p[i + 1] in g[p[i]])
  }

  ghost predicate IsCycle(g: Graph, c: seq<string>) {
    IsChain(g, c) && c[0] in g[c[|c| - 1]]
  }

  ghost predicate Acyclic(g: Graph) {
    forall c :: !IsCycle(g, c)
  }

  lemma ChainSuffix(g: Graph, p: seq<string>, k: nat)
    requires IsChain(g, p) && k < |p|
    ensures IsChain(g, p[k..])
  {
    forall i | 0 <= i < |p[k..]| - 1 ensures p[k..][i + 1] in g[p[k..][i]] {
      assert p[(k + i) + 1] in g[p[k + i]];
    }
  }

  lemma ChainWithin(g: Graph, p: seq<string>)
    requires IsChain(g, p)
    ensures p != [] && forall a :: a in p ==> a in g
  {
  }

  lemma ChainExtends(g: Graph, p: seq<string>, d: string)
    requires IsChain(g, p) && d in g && d in g[p[|p| - 1]]
    ensures IsChain(g, p + [d])
  {
    forall i | 0 <= i < |p + [d]| - 1 ensures (p + [d])[i + 1] in g[(p + [d])[i]] {
      if i < |p| - 1 {
        assert p[i + 1] in g[p[i]];
      }
    }
  }

  lemma SingletonChain(g: Graph, a: string)
    requires a in g
    ensures IsChain(g, [a])
  {
  }

  lemma ChainPrepends(g: Graph, a: string, p: seq<string>)
    requires IsChain(g, p) && a in g && p[0] in g[a]
    ensures IsChain(g, [a] + p)
  {
    forall i | 0 <= i < |[a] + p| - 1 ensures ([a] + p)[i + 1] in g[([a] + p)[i]] {
      if i > 0 {
        assert p[(i - 1) + 1] in g[p[i - 1]];
      }
    }
  }

  lemma {:induction false} ChainDescends(g: Graph, level: map<string, nat>, p: seq<string>)
    requires IsLayering(g, level) && IsChain(g, p)
    ensures level[p[|p| - 1]] + |p| - 1 <= level[p[0]]
    decreases |p|
  {
    if |p| > 1 {
      assert p[0 + 1] in g[p[0]];
      assert IsLevel(g, level, p[0]);
      ChainSuffix(g, p, 1);
      ChainDescends(g, level, p[1..]);
    }
  }

  lemma {:induction false} ChainOfLevel(g: Graph, level: map<string, nat>, a: string) returns (p: seq<string>)
    requires IsLayering(g, level) && a in g
    ensures IsChain(g, p) && p[0] == a && |p| - 1 == level[a]
    decreases level[a]
  {
    hide IsChain;
    assert IsLevel(g, level, a);
    if g[a] == {} {
      p := [a];
      SingletonChain(g, a);
    } else {
      var d :| d in g[a] && level[d] + 1 == level[a];
      var rest := ChainOfLevel(g, level, d);
      p := [a] + rest;
      ChainPrepends(g, a, rest);
    }
  }

  /** The level of an agent is the number of steps of a longest chain of dependencies from it. */
  lemma LevelIsLongestChain(g: Graph, level: map<string, nat>, a: string) returns (p: seq<string>)
    requires IsLayering(g, level) && a in g
    ensures IsChain(g, p) && p[0] == a && |p| - 1 == level[a]
    ensures forall q :: IsChain(g, q) && q[0] == a ==> |q| - 1 <= level[a]
  {
    p := ChainOfLevel(g, level, a);
    forall q | IsChain(g, q) && q[0] == a ensures |q| - 1 <= level[a] {
      ChainDescends(g, level, q);
    }
  }

  lemma LayeringExcludesCycles(g: Graph, level: map<string, nat>)
    requires IsLayering(g, level)
    ensures Acyclic(g)
  {
    forall c | IsChain(g, c) ensures c[0] !in g[c[|c| - 1]] {
      ChainDescends(g, level, c);
      assert IsLevel(g, level, c[|c| - 1]);
    }
  }

  lemma {:induction false} LevelsAgree(g: Graph, l: map<string, nat>, m: map<string, nat>, a: string)
    requires IsLayering(g, l) && IsLayering(g, m) && a in g
    ensures l[a] == m[a]
    decreases l[a]
  {
    assert IsLevel(g, l, a) && IsLevel(g, m, a);
    forall d | d in g[a] ensures l[d] == m[d] {
      LevelsAgree(g, l, m, d);
    }
  }

  lemma LayeringIsUnique(g: Graph, l: map<string, nat>, m: map<string, nat>)
    requires IsLayering(g, l) && IsLayering(g, m)
    ensures l == m
  {
    forall a | a in g ensures l[a] == m[a] {
      LevelsAgree(g, l, m, a);
    }
  }

  // ---- Layers against layering ----

  /** The layer of each agent that has one. */
  ghost function LayerIndex(layers: seq<set<string>>, a: string): (i: nat)
    requires a in Union(layers)
    ensures i < |layers| && a in layers[i]
  {
    var i :| 0 <= i < |layers| && a in layers[i];
    i
  }

  ghost function LevelMap(layers: seq<set<string>>): map<string, nat> {
    map a | a in Union(layers) :: LayerIndex(layers, a)
  }

  lemma LayersDisjoint(g: Graph, i: nat, j: nat)
    requires i < j < |Layers(g, {})|
    ensures Layers(g, {})[i] !! Layers(g, {})[j]
  {
    var layers := Layers(g, {});
    LayersSpec(g, {}, j);
    forall a | a in layers[i] ensures a !in layers[j] {
      assert a in layers[..j][i];
      assert a in {} + Union(layers[..j]);
    }
  }

  /** Everything in the first `i` layers. */
  ghost function Before(g: Graph, i: nat): set<string>
    requires i <= |Layers(g, {})|
  {
    Union(Layers(g, {})[..i])
  }

  lemma BeforeMeaning(g: Graph, i: nat, a: string)
    requires i <= |Layers(g, {})|
    ensures a in Before(g, i) <==> exists j :: 0 <= j < i && a in Layers(g, {})[j]
  {
    hide Layers;
    var layers := Layers(g, {});
    assert forall j :: 0 <= j < i ==> layers[..i][j] == layers[j];
    assert forall j :: 0 <= j < |layers[..i]| ==> layers[j] == layers[..i][j];
  }

  lemma BeforeSteps(g: Graph, i: nat)
    requires i < |Layers(g, {})|
    ensures Layers(g, {})[i] == Ready(g, Before(g, i))
    ensures Before(g, i + 1) == Before(g, i) + Layers(g, {})[i]
  {
    hide Layers, Ready;
    var layers := Layers(g, {});
    LayersSpec(g, {}, i);
    assert {} + Union(layers[..i]) == Before(g, i);
    assert layers[..i + 1] == layers[..i] + [layers[i]];
    UnionSplit(layers[..i], [layers[i]]);
    assert Union([layers[i]]) == layers[i];
  }

  /** When the layers exhaust the graph they are its longest-path layering. */
  lemma LayersAreTheLayering(g: Graph)
    requires Closed(g) && Union(Layers(g, {})) == g.Keys
    ensures IsLayering(g, LevelMap(Layers(g, {})))
  {
    hide Layers, Union, IsLevel;
    forall a | a in g ensures IsLevel(g, LevelMap(Layers(g, {})), a) {
      LevelFromLayers(g, a);
    }
  }

  lemma LevelFromLayers(g: Graph, a: string)
    requires Closed(g) && Union(Layers(g, {})) == g.Keys && a in g
    ensures IsLevel(g, LevelMap(Layers(g, {})), a)
  {
    hide Layers, Union, Before;
    var level := LevelMap(Layers(g, {}));
    var i := level[a];
    BeforeSteps(g, i);
    forall d | d in g[a] ensures level[d] < i {
      BeforeMeaning(g, i, d);
      var j :| 0 <= j < i && d in Layers(g, {})[j];
      OnlyLayer(g, d, j);
    }
    if i == 0 {
      assert g[a] == {} by {
        forall d | d in g ensures d !in Before(g, 0) { BeforeMeaning(g, 0, d); }
      }
    } else {
      var d := DependencyInLayerBelow(g, i, a);
      OnlyLayer(g, d, i - 1);
    }
  }

  lemma DependencyInLayerBelow(g: Graph, i: nat, a: string) returns (d: string)
    requires 0 < i < |Layers(g, {})| && a in Layers(g, {})[i] && a in g
    ensures d in g[a] && d in Layers(g, {})[i - 1]
  {
    hide Layers, Union, Before;
    BeforeSteps(g, i - 1);
    BeforeSteps(g, i);
    LayersDisjoint(g, i - 1, i);
    assert a !in Before(g, i - 1);
    assert a !in Ready(g, Before(g, i - 1));
    d :| d in g[a] && d !in Before(g, i - 1);
  }

  lemma OnlyLayer(g: Graph, a: string, i: nat)
    requires i < |Layers(g, {})| && a in Layers(g, {})[i]
    ensures a in Union(Layers(g, {})) && LayerIndex(Layers(g, {}), a) == i
  {
    var j := LayerIndex(Layers(g, {}), a);
    if i < j {
      LayersDisjoint(g, i, j);
    } else if j < i {
      LayersDisjoint(g, j, i);
    }
  }

  /** When nothing more is ready, whatever is left contains a cycle. */
  lemma ExtendsDistinct(p: seq<string>, d: string)
    requires NoDuplicates(p) && d !in p
    ensures NoDuplicates(p + [d]) && Elements(p + [d]) == Elements(p) + {d}
  {
  }

  lemma {:induction false} LeftoverHasCycle(g: Graph, left: set<string>, p: seq<string>) returns (c: seq<string>)
    requires left <= g.Keys && EachDependsWithin(g, left)
    requires IsChain(g, p) && NoDuplicates(p) && Elements(p) <= left
    ensures IsCycle(g, c)
    decreases |left| - |p|
  {
    hide IsChain, NoDuplicates;
    ChainWithin(g, p);
    NoDuplicatesCardinality(p);
    SubsetCardinality(Elements(p), left);
    var last := p[|p| - 1];
    assert last in Elements(p);
    assert DependsWithin(g, left, last);
    var d :| d in g[last] && d in left;
    if d in p {
      var i :| 0 <= i < |p| && p[i] == d;
      c := p[i..];
      ChainSuffix(g, p, i);
    } else {
      ChainExtends(g, p, d);
      ExtendsDistinct(p, d);
      NoDuplicatesCardinality(p + [d]);
      SubsetCardinality(Elements(p + [d]), left);
      c := LeftoverHasCycle(g, left, p + [d]);
    }
  }

  /** The layers exhaust the graph exactly when it has no cycle. */
  lemma ExhaustedIffAcyclic(g: Graph)
    requires Closed(g)
    ensures Union(Layers(g, {})) == g.Keys <==> Acyclic(g)
  {
    hide Layers, Union, EachDependsWithin, IsLayering;
    LayersWithin(g);
    if Union(Layers(g, {})) == g.Keys {
      LayersAreTheLayering(g);
      LayeringExcludesCycles(g, LevelMap(Layers(g, {})));
    } else {
      LeftoverIsClosed(g);
      var left := g.Keys - Union(Layers(g, {}));
      assert g.Keys == Union(Layers(g, {})) + left;
      assert left != {};
      var a :| a in left;
      assert Elements([a]) == {a} && IsChain(g, [a]);
      var c := LeftoverHasCycle(g, left, [a]);
    }
  }

  ghost predicate EachDependsWithin(g: Graph, left: set<string>)
    requires left <= g.Keys
  {
    forall a {:trigger DependsWithin(g, left, a)} :: a in left ==> DependsWithin(g, left, a)
  }

  ghost predicate DependsWithin(g: Graph, left: set<string>, a: string)
    requires a in g
  {
    exists d :: d in g[a] && d in left
  }

  lemma LeftoverIsClosed(g: Graph)
    requires Closed(g)
    ensures EachDependsWithin(g, g.Keys - Union(Layers(g, {})))
  {
    var layers := Layers(g, {});
    var done := Union(layers);
    var left := g.Keys - done;
    LayersSpec(g, {}, |layers|);
    assert layers[..|layers|] == layers && {} + done == done;
    assert Ready(g, done) == {};
    forall a | a in left ensures DependsWithin(g, left, a) {
      assert a !in Ready(g, done);
      var d :| d in g[a] && d !in done;
      assert d in left;
    }
  }

  lemma LayersWithin(g: Graph)
    ensures Union(Layers(g, {})) <= g.Keys
  {
    forall i | 0 <= i < |Layers(g, {})| ensures Layers(g, {})[i] <= g.Keys {
      LayersSpec(g, {}, i);
    }
  }
}
