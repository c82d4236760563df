/** Stage grouping by Kahn's algorithm over queues and degrees (src/specflow/plan/compiler.py:44-84). */
module PlanStages {
  import opened Prelude
  import opened PlanGraph
  import opened Listings

  // ---- The algorithm's tables ----

  function InDegree(g: Graph, done: set<string>): map<string, nat> {
    map a | a in g :: Unmet(g[a], done)
  }

  /** How many of `deps` are not in `done`. */
  function Unmet(deps: set<string>, done: set<string>): nat {
    |deps - done|
  }

  lemma UnmetAtFirst(deps: set<string>)
    ensures Unmet(deps, {}) == |deps| && (|deps| == 0 <==> deps <= {})
  {
    assert deps - {} == deps;
  }

  /** The agents among `among` that depend on `d`. */
  ghost function Dependents(g: Graph, among: set<string>, d: string): set<string> {
    set a | a in among && a in g && d in g[a]
  }

  ghost predicate IsReverse(g: Graph, among: set<string>, reverse: map<string, seq<string>>) {
    reverse.Keys == g.Keys && forall d :: d in g ==> Lists(reverse[d], Dependents(g, among, d))
  }

  lemma NoDependents(g: Graph)
    ensures forall d :: d in g ==> Lists([], Dependents(g, g.Keys - g.Keys, d))
  {
  }

  lemma DependentsAmong(g: Graph, among: set<string>, d: string)
    ensures Dependents(g, among, d) <= among
  {
  }

  lemma OneMoreAmong(g: Graph, among: set<string>, a: string, d: string)
    requires a in g
    ensures Dependents(g, among + {a}, d) == if d in g[a] then Dependents(g, among, d) + {a} else Dependents(g, among, d)
  {
  }

  /** `reverse_deps`: who depends on each agent. */
  method Reverse(g: Graph) returns (reverse: map<string, seq<string>>)
    requires Closed(g)
    ensures IsReverse(g, g.Keys, reverse)
  {
    hide Lists, Dependents;
    reverse := map a | a in g :: [];
    NoDependents(g);
    var agents := g.Keys;
    while agents != {}
      invariant agents <= g.Keys
      invariant IsReverse(g, g.Keys - agents, reverse)
    {
      var a :| a in agents;
      var deps := g[a];
      ghost var among := g.Keys - agents;
      while deps != {}
        invariant deps <= g[a] && reverse.Keys == g.Keys
        invariant forall d :: d in g && d in g[a] - deps ==> Lists(reverse[d], Dependents(g, among, d) + {a})
        invariant forall d :: d in g && d !in g[a] - deps ==> Lists(reverse[d], Dependents(g, among, d))
      {
        var d :| d in deps;
        assert a !in Dependents(g, among, d) by { DependentsAmong(g, among, d); }
        ListsAppend(reverse[d], Dependents(g, among, d), a);
        reverse := reverse[d := reverse[d] + [a]];
        deps := deps - {d};
      }
      agents := agents - {a};
      forall d | d in g ensures Lists(reverse[d], Dependents(g, g.Keys - agents, d)) {
        assert g.Keys - agents == among + {a};
        OneMoreAmong(g, among, a, d);
      }
    }
    assert g.Keys - agents == g.Keys;
  }

  /** `in_degree`: how many dependencies each agent has. */
  method InDegrees(g: Graph) returns (inDegree: map<string, nat>)
    ensures inDegree == InDegree(g, {})
  {
    inDegree := map a | a in g :: 0;
    var agents := g.Keys;
    while agents != {}
      invariant agents <= g.Keys && inDegree.Keys == g.Keys
      invariant forall a :: a in g && a !in agents ==> inDegree[a] == |g[a]|
    {
      var a :| a in agents;
      inDegree := inDegree[a := |g[a]|];
      agents := agents - {a};
    }
    InDegreeAtFirst(g, inDegree);
  }

  lemma InDegreeAtFirst(g: Graph, inDegree: map<string, nat>)
    requires inDegree.Keys == g.Keys && forall a :: a in g ==> inDegree[a] == |g[a]|
    ensures inDegree == InDegree(g, {})
  {
    hide Unmet;
    forall a | a in g ensures inDegree[a] == InDegree(g, {})[a] {
      UnmetAtFirst(g[a]);
    }
  }

  /** The initial queue: the agents of degree zero, in any order. */
  method Roots(inDegree: map<string, nat>) returns (queue: seq<string>)
    ensures Lists(queue, set a | a in inDegree && inDegree[a] == 0)
  {
    queue := [];
    var agents := inDegree.Keys;
    while agents != {}
      invariant agents <= inDegree.Keys
      invariant Lists(queue, set a | a in inDegree && a !in agents && inDegree[a] == 0)
    {
      var a :| a in agents;
      ghost var listed := set b | b in inDegree && b !in agents && inDegree[b] == 0;
      if inDegree[a] == 0 {
        ListsAppend(queue, listed, a);
        queue := queue + [a];
      }
      agents := agents - {a};
      assert (set b | b in inDegree && b !in agents && inDegree[b] == 0)
          == listed + if inDegree[a] == 0 then {a} else {};
    }
    assert (set a | a in inDegree && a !in agents && inDegree[a] == 0) == set a | a in inDegree && inDegree[a] == 0;
  }

  // ---- One pass over a stage ----

  /** The agents outside `done` all of whose dependencies are in `met`. */
  ghost function Released(g: Graph, done: set<string>, met: set<string>): set<string> {
    set a | a in g && a !in done && g[a] <= met
  }

  /** The tables after the dependencies in `met` were counted off and those met alone on `node` for `part`. */
  ghost predicate Counted(g: Graph, inDegree: map<string, nat>, met: set<string>, node: string, part: set<string>) {
    && inDegree.Keys == g.Keys
    && forall a :: a in g ==> inDegree[a] == if a in part then Unmet(g[a], met + {node}) else Unmet(g[a], met)
  }

  ghost function ReleasedInPart(g: Graph, done: set<string>, met: set<string>, node: string, part: set<string>)
    : set<string>
  {
    set a | a in g && a !in done && g[a] <= (if a in part then met + {node} else met)
  }

  lemma MeetOne(deps: set<string>, met: set<string>, node: string)
    requires node in deps && node !in met
    ensures Unmet(deps, met) == Unmet(deps, met + {node}) + 1
    ensures Unmet(deps, met + {node}) == 0 <==> deps <= met + {node}
  {
    var rest := deps - (met + {node});
    assert deps - met == rest + {node};
    assert |rest| == 0 <==> rest == {};
    assert rest == {} <==> deps <= met + {node};
  }

  lemma MeetOther(deps: set<string>, met: set<string>, node: string)
    requires node !in deps
    ensures Unmet(deps, met) == Unmet(deps, met + {node})
  {
    assert deps - met == deps - (met + {node});
  }

  lemma CountOne(g: Graph, met: set<string>, node: string, part: set<string>, a: string, inDegree: map<string, nat>)
    requires a in g && node in g[a] && node !in met && a !in part && Counted(g, inDegree, met, node, part)
    ensures inDegree[a] > 0
    ensures Counted(g, inDegree[a := inDegree[a] - 1], met, node, part + {a})
    ensures inDegree[a] == 1 <==> g[a] <= met + {node}
  {
    hide Unmet;
    MeetOne(g[a], met, node);
  }

  lemma ReleaseOne(g: Graph, done: set<string>, met: set<string>, node: string, part: set<string>, a: string)
    requires a in g && node in g[a] && node !in met && a !in part && a !in done
    ensures a !in ReleasedInPart(g, done, met, node, part)
    ensures ReleasedInPart(g, done, met, node, part + {a})
         == ReleasedInPart(g, done, met, node, part) + if g[a] <= met + {node} then {a} else {}
  {
  }

  lemma CountNone(g: Graph, done: set<string>, met: set<string>, node: string)
    ensures Counted(g, InDegree(g, met), met, node, {})
    ensures ReleasedInPart(g, done, met, node, {}) == Released(g, done, met)
  {
  }

  /** Once every dependent of `node` was counted, `node` has been met. */
  lemma CountAll(g: Graph, met: set<string>, node: string, inDegree: map<string, nat>)
    requires Counted(g, inDegree, met, node, Dependents(g, g.Keys, node))
    ensures inDegree == InDegree(g, met + {node})
  {
    hide Unmet;
    forall a | a in g ensures inDegree[a] == InDegree(g, met + {node})[a] {
      if node !in g[a] {
        MeetOther(g[a], met, node);
      }
    }
  }

  lemma ReleaseAll(g: Graph, done: set<string>, met: set<string>, node: string)
    ensures ReleasedInPart(g, done, met, node, Dependents(g, g.Keys, node)) == Released(g, done, met + {node})
  {
  }

  lemma NextSuccessor(s: seq<string>, e: set<string>, i: nat)
    requires Lists(s, e) && i < |s|
    ensures s[i] in e && s[i] !in Elements(s[..i])
    ensures Elements(s[..i + 1]) == Elements(s[..i]) + {s[i]}
  {
    assert s[i] in Elements(s);
    assert s[..i + 1] == s[..i] + [s[i]];
  }

  /** Counts `node` off for each of its dependents, queueing those whose count drops to zero. */
  method CountOff(g: Graph, successors: seq<string>, node: string, inDegree0: map<string, nat>, queue0: seq<string>,
                  ghost done: set<string>, ghost earlier: set<string>, ghost met: set<string>)
    returns (inDegree: map<string, nat>, queue: seq<string>)
    requires Lists(successors, Dependents(g, g.Keys, node)) && node !in met && node !in earlier
    requires forall a :: a in done ==> a in g && g[a] <= earlier
    requires inDegree0 == InDegree(g, met) && Lists(queue0, Released(g, done, met))
    ensures inDegree == InDegree(g, met + {node})
    ensures Lists(queue, Released(g, done, met + {node}))
  {
    hide Released, ReleasedInPart, Lists, Counted, Elements;
    inDegree, queue := inDegree0, queue0;
    CountNone(g, done, met, node);
    NothingYet(successors);
    var i := 0;
    while i < |successors|
      invariant i <= |successors|
      invariant Counted(g, inDegree, met, node, Elements(successors[..i]))
      invariant Lists(queue, ReleasedInPart(g, done, met, node, Elements(successors[..i])))
    {
      var successor := successors[i];
      ghost var part := Elements(successors[..i]);
      NextSuccessor(successors, Dependents(g, g.Keys, node), i);
      CountOne(g, met, node, part, successor, inDegree);
      ReleaseOne(g, done, met, node, part, successor);
      CountedKeys(g, inDegree, met, node, part);
      inDegree := inDegree[successor := inDegree[successor] - 1];
      if inDegree[successor] == 0 {
        ListsAppend(queue, ReleasedInPart(g, done, met, node, part), successor);
        queue := queue + [successor];
      } else {
        assert ReleasedInPart(g, done, met, node, part) + {} == ReleasedInPart(g, done, met, node, part);
      }
      i := i + 1;
    }
    AllOf(successors, Dependents(g, g.Keys, node));
    CountAll(g, met, node, inDegree);
    ReleaseAll(g, done, met, node);
  }

  lemma CountedKeys(g: Graph, inDegree: map<string, nat>, met: set<string>, node: string, part: set<string>)
    requires Counted(g, inDegree, met, node, part)
    ensures inDegree.Keys == g.Keys
  {
  }

  lemma NothingYet(s: seq<string>)
    ensures Elements(s[..0]) == {}
  {
  }

  lemma AllOf(s: seq<string>, e: set<string>)
    requires Lists(s, e)
    ensures Elements(s[..|s|]) == e
  {
    assert s[..|s|] == s;
  }

  /** The second half of a pass: counts every member of the stage off for its dependents. */
  method Release(g: Graph, reverse: map<string, seq<string>>, stage: seq<string>, inDegree0: map<string, nat>,
                 ghost earlier: set<string>)
    returns (inDegree: map<string, nat>, queue: seq<string>)
    requires IsReverse(g, g.Keys, reverse) && inDegree0 == InDegree(g, earlier) && earlier <= g.Keys
    requires Lists(stage, Ready(g, earlier)) && forall a :: a in earlier ==> a in g && g[a] <= earlier
    ensures inDegree == InDegree(g, earlier + Elements(stage))
    ensures Lists(queue, Ready(g, earlier + Elements(stage)))
  {
    hide Released, Lists, InDegree, Elements, Dependents;
    var stageQueue := stage;
    inDegree, queue := inDegree0, [];
    ghost var layer := Ready(g, earlier);
    ghost var done := earlier + layer;
    ghost var met := earlier;
    assert earlier + Elements(stage) == done by { ListsElements(stage, layer); }
    NothingReleased(g, earlier);
    NothingYet(stage);
    ghost var n := 0;
    while stageQueue != []
      invariant n <= |stage| && stageQueue == stage[n..]
      invariant met == earlier + Elements(stage[..n])
      invariant inDegree == InDegree(g, met)
      invariant Lists(queue, Released(g, done, met))
      decreases |stageQueue|
    {
      var node := stageQueue[0];
      stageQueue := stageQueue[1..];
      NextSuccessor(stage, layer, n);
      inDegree, queue := CountOff(g, reverse[node], node, inDegree, queue, done, earlier, met);
      met := met + {node};
      n := n + 1;
    }
    assert n == |stage|;
    AllOf(stage, layer);
    ReleasedAll(g, done);
  }

  lemma ListsElements(s: seq<string>, e: set<string>)
    requires Lists(s, e)
    ensures Elements(s) == e
  {
  }

  lemma NothingReleased(g: Graph, earlier: set<string>)
    ensures Lists([], Released(g, earlier + Ready(g, earlier), earlier))
  {
  }

  lemma ReleasedAll(g: Graph, done: set<string>)
    ensures Released(g, done, done) == Ready(g, done)
  {
  }

  // ---- All passes ----

  /** Each stage is the sorted listing of its layer. */
  ghost predicate AreStages(stages: seq<seq<string>>, layers: seq<set<string>>) {
    |stages| == |layers| && forall i :: 0 <= i < |stages| ==> SortedListing(stages[i], layers[i])
  }

  method Stages(g: Graph) returns (stages: seq<seq<string>>, visited: nat)
    requires Closed(g)
    ensures AreStages(stages, Layers(g, {}))
    ensures visited == |Union(Layers(g, {}))|
  {
    hide Lists, InDegree, Elements, Layers, Ready, Union, AreStages, Passed;
    var inDegree := InDegrees(g);
    var reverse := Reverse(g);
    var queue := Roots(inDegree);
    RootsAreReady(g, inDegree);
    visited := 0;
    stages := [];
    ghost var done, layers := {}, [];
    NonePassed(g);
    while queue != []
      invariant Lists(queue, Ready(g, done)) && inDegree == InDegree(g, done)
      invariant Passed(g, done, layers, stages) && visited == |done|
      decreases |g.Keys - done|
    {
      var currentStage, stageQueue := [], [];
      ghost var waiting := queue;
      while queue != []
        invariant |currentStage| <= |waiting| && currentStage == waiting[..|currentStage|] == stageQueue
        invariant queue == waiting[|currentStage|..] && visited == |done| + |currentStage|
        decreases |queue|
      {
        var node := queue[0];
        queue := queue[1..];
        currentStage := currentStage + [node];
        stageQueue := stageQueue + [node];
        visited := visited + 1;
      }
      assert currentStage == waiting;
      PassedIsDownward(g, done, layers, stages);
      inDegree, queue := Release(g, reverse, stageQueue, inDegree, done);
      PassStage(g, done, layers, stages, currentStage);
      stages := stages + [Sorted(currentStage)];
      layers := layers + [Ready(g, done)];
      done := done + Elements(currentStage);
    }
    AllPassed(g, done, layers, stages);
  }

  /** `layers` are the layers whose union is `done`, `stages` lists them, and the rest of the layers start at `done`. */
  ghost predicate Passed(g: Graph, done: set<string>, layers: seq<set<string>>, stages: seq<seq<string>>) {
    && done <= g.Keys && (forall a :: a in done ==> a in g && g[a] <= done)
    && done == Union(layers) && AreStages(stages, layers) && layers + Layers(g, done) == Layers(g, {})
  }

  lemma NonePassed(g: Graph)
    ensures Passed(g, {}, [], [])
  {
    assert [] + Layers(g, {}) == Layers(g, {});
  }

  lemma PassedIsDownward(g: Graph, done: set<string>, layers: seq<set<string>>, stages: seq<seq<string>>)
    requires Passed(g, done, layers, stages)
    ensures done <= g.Keys && forall a :: a in done ==> a in g && g[a] <= done
  {
  }

  lemma PassStage(g: Graph, done: set<string>, layers: seq<set<string>>, stages: seq<seq<string>>, stage: seq<string>)
    requires Passed(g, done, layers, stages) && Lists(stage, Ready(g, done)) && stage != []
    ensures Passed(g, done + Elements(stage), layers + [Ready(g, done)], stages + [Sorted(stage)])
    ensures |done + Elements(stage)| == |done| + |stage|
    ensures |g.Keys - (done + Elements(stage))| < |g.Keys - done|
  {
    hide Layers, Union, Ready, SortedListing, Sorted, NoDuplicates, AreStages;
    StageDone(g, done, stage);
    SortedLists(stage, Ready(g, done));
    assert stage[0] in Elements(stage);
    LayersUnfold(g, done, layers);
    OneMoreStage(stages, layers, Sorted(stage), Ready(g, done));
  }

  lemma OneMoreStage(stages: seq<seq<string>>, layers: seq<set<string>>, stage: seq<string>, layer: set<string>)
    requires AreStages(stages, layers) && SortedListing(stage, layer)
    ensures AreStages(stages + [stage], layers + [layer])
  {
    hide SortedListing;
  }

  lemma AllPassed(g: Graph, done: set<string>, layers: seq<set<string>>, stages: seq<seq<string>>)
    requires Passed(g, done, layers, stages) && Lists([], Ready(g, done))
    ensures AreStages(stages, Layers(g, {})) && done == Union(Layers(g, {}))
  {
    assert Ready(g, done) == {};
    assert layers + [] == layers;
  }

  lemma RootsAreReady(g: Graph, inDegree: map<string, nat>)
    requires inDegree == InDegree(g, {})
    ensures (set a | a in inDegree && inDegree[a] == 0) == Ready(g, {})
  {
    hide Unmet;
    forall a | a in g ensures inDegree[a] == 0 <==> g[a] <= {} {
      UnmetAtFirst(g[a]);
    }
  }

  lemma StageDone(g: Graph, done: set<string>, stage: seq<string>)
    requires Lists(stage, Ready(g, done)) && done <= g.Keys && stage != []
    requires forall a :: a in done ==> a in g && g[a] <= done
    ensures var met := done + Elements(stage);
      met <= g.Keys && (forall a :: a in met ==> a in g && g[a] <= met) && |met| == |done| + |stage|
    ensures |g.Keys - (done + Elements(stage))| < |g.Keys - done|
  {
    NoDuplicatesCardinality(stage);
    assert Elements(stage) !! done;
    assert stage[0] in Elements(stage);
    ReadyShrinks(g, done);
  }

  lemma LayersUnfold(g: Graph, done: set<string>, layers: seq<set<string>>)
    requires Ready(g, done) != {}
    ensures layers + Layers(g, done) == layers + [Ready(g, done)] + Layers(g, done + Ready(g, done))
    ensures Union(layers + [Ready(g, done)]) == Union(layers) + Ready(g, done)
  {
    hide Ready, Layers, Union;
    var ready := Ready(g, done);
    LayersFirst(g, done);
    assert layers + ([ready] + Layers(g, done + ready)) == layers + [ready] + Layers(g, done + ready);
    UnionOne(layers, ready);
  }

  lemma LayersFirst(g: Graph, done: set<string>)
    requires Ready(g, done) != {}
    ensures Layers(g, done) == [Ready(g, done)] + Layers(g, done + Ready(g, done))
  {
  }

  lemma UnionOne(layers: seq<set<string>>, layer: set<string>)
    ensures Union(layers + [layer]) == Union(layers) + layer
  {
    UnionSplit(layers, [layer]);
    assert Union([layer]) == layer;
  }
}
