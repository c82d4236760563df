/** The payload of a structure hash. */
module PlanHash {
  // compute_structure_hash (src/specflow/plan/hash_utils.py:34-46).

  import opened Prelude
  import opened Sorting
  import opened Listings

  datatype AgentRecord = AgentRecord(agentId: string, role: string, version: string)

  datatype DependencyRecord = DependencyRecord(agentId: string, dependsOn: seq<string>)

  datatype ConstraintRecord =
    ConstraintRecord(agentId: string, maxExecutionSeconds: int, maxTokenBudget: int, maxRevisionRounds: int)

  datatype PolicyRecord =
    PolicyRecord(maxTotalRounds: int, revisableRoles: seq<string>, finalAuthorityRole: string)

  datatype HashInput = HashInput(
    agents: seq<AgentRecord>,
    dependencies: seq<DependencyRecord>,
    stages: seq<seq<string>>,
    policy: PolicyRecord,
    constraints: seq<ConstraintRecord>)

  /** SHA-256 of canonical JSON, taken as injective: a digest is known by its payload. */
  datatype Digest = Digest(payload: HashInput)

  function AgentKey(a: AgentRecord): string { a.agentId }

  function DependencyKey(d: DependencyRecord): string { d.agentId }

  function ConstraintKey(c: ConstraintRecord): string { c.agentId }

  function SortEntry(d: DependencyRecord): DependencyRecord {
    d.(dependsOn := Sorted(d.dependsOn))
  }

  function ComputeStructureHash(h: HashInput): Digest {
    Digest(HashInput(
      SortBy(StringLeq, AgentKey, h.agents),
      SortBy(StringLeq, DependencyKey, Map(SortEntry, h.dependencies)),
      Map(Sorted, h.stages),
      h.policy,
      SortBy(StringLeq, ConstraintKey, h.constraints)))
  }

  ghost predicate SameStages(x: seq<seq<string>>, y: seq<seq<string>>) {
    |x| == |y| && forall i :: 0 <= i < |x| ==> multiset(x[i]) == multiset(y[i])
  }

  lemma StagesHashAlike(x: seq<seq<string>>, y: seq<seq<string>>)
    ensures Map(Sorted, x) == Map(Sorted, y) <==> SameStages(x, y)
  {
    if |x| == |y| {
      forall i | 0 <= i < |x| ensures Map(Sorted, x)[i] == Map(Sorted, y)[i] <==> multiset(x[i]) == multiset(y[i]) {
        SortedIffPermuted(x[i], y[i]);
      }
    }
  }

  /** Exactly what the structure hash depends on. */
  lemma HashDependsOn(x: HashInput, y: HashInput)
    ensures ComputeStructureHash(x) == ComputeStructureHash(y) <==>
      && SameByKey(AgentKey, x.agents, y.agents)
      && SameByKey(DependencyKey, Map(SortEntry, x.dependencies), Map(SortEntry, y.dependencies))
      && SameByKey(ConstraintKey, x.constraints, y.constraints)
      && SameStages(x.stages, y.stages) && x.policy == y.policy
  {
    hide SortBy, TotalOrder, SameStages, SameByKey;
    StringOrder();
    SortByDependsOn(StringLeq, AgentKey, x.agents, y.agents);
    SortByDependsOn(StringLeq, DependencyKey, Map(SortEntry, x.dependencies), Map(SortEntry, y.dependencies));
    SortByDependsOn(StringLeq, ConstraintKey, x.constraints, y.constraints);
    StagesHashAlike(x.stages, y.stages);
  }

  /** With distinct ids, reordering records does not change what is listed under an id. */
  lemma PermutedSameByKey<T(!new)>(key: T -> string, xs: seq<T>, ys: seq<T>)
    requires multiset(xs) == multiset(ys) && DistinctKeys(key, xs)
    ensures SameByKey(key, xs, ys)
  {
    hide TotalOrder, SortBy, SameByKey;
    StringOrder();
    PermutedDistinct(key, xs, ys);
    DistinctPermutationsSortAlike(StringLeq, key, xs, ys);
    SortByDependsOn(StringLeq, key, xs, ys);
  }

  lemma {:induction false} DistinctCountsOnce<T>(key: T -> string, s: seq<T>, x: T)
    requires DistinctKeys(key, s)
    ensures multiset(s)[x] <= 1
  {
    if s != [] {
      var t := s[..|s| - 1];
      assert s == t + [s[|s| - 1]];
      DistinctCountsOnce(key, t, x);
      assert s[|s| - 1] !in t;
    }
  }

  lemma PermutedDistinct<T(!new)>(key: T -> string, xs: seq<T>, ys: seq<T>)
    requires multiset(xs) == multiset(ys) && DistinctKeys(key, xs)
    ensures DistinctKeys(key, ys)
  {
    forall i, j | 0 <= i < j < |ys| ensures key(ys[i]) != key(ys[j]) {
      DistinctCountsOnce(key, xs, ys[i]);
      if ys[i] == ys[j] {
        TwoPlaces(ys, i, j);
      }
      assert ys[i] in multiset(ys) && ys[j] in multiset(ys);
      var k :| 0 <= k < |xs| && xs[k] == ys[i];
      var l :| 0 <= l < |xs| && xs[l] == ys[j];
    }
  }
}
