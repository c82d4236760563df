/** The bounded evidence snapshot (src/specflow/single_flight.py:57-113). */
module RepositorySnapshot {
  import opened Prelude
  import opened Sorting
  import opened PathNames
  import opened RepositoryTree
  import opened RepositoryTraversal

  const SNAPSHOT_MAX_ENTRIES := 10_000
  const SNAPSHOT_MAX_BYTES := 8 * 1024 * 1024
  const MAX_FILE_BYTES := 262_144

  datatype Record = Record(name: string, digest: string, truncated: bool)

  /** The record of the file at `q`. */
  function RecordAt(t: Tree, q: Path): Record
    requires q in t && t[q].File?
  {
    Record(Join(q), t[q].digest, t[q].truncated)
  }

  /** What an evidence file contributes: the record of the file its path resolves to. */
  function RecordOf(t: Tree, rules: Rules, p: Path): Record {
    match Resolve(t, rules, Join(p))
    case Some(q) => RecordAt(t, q)
    case None => Record("", "", false)
  }

  function Cost(t: Tree, rules: Rules, p: Path): nat {
    match Resolve(t, rules, Join(p))
    case Some(q) => if t[q].size < MAX_FILE_BYTES + 1 then t[q].size else MAX_FILE_BYTES + 1
    case None => 0
  }

  /** What reading the files of `s` adds up to. */
  ghost function TotalCost(t: Tree, rules: Rules, s: set<Path>): int {
    SumOver(p => Cost(t, rules, p), s)
  }

  ghost function Evidence(t: Tree, rules: Rules, s: set<Path>): set<Path> {
    set p | p in s && Passes(t, rules, IsEvidence, p)
  }

  predicate AllResolve(t: Tree, rules: Rules, s: set<Path>) {
    forall p :: p in s ==> Resolve(t, rules, Join(p)).Some?
  }

  const PYPROJECT: Path := ["pyproject.toml"]

  predicate UnsafeSummary(t: Tree) {
    PYPROJECT in t && t[PYPROJECT].Link?
  }

  function EntryLimit(maxScannedFiles: nat): nat {
    if maxScannedFiles < SNAPSHOT_MAX_ENTRIES then maxScannedFiles else SNAPSHOT_MAX_ENTRIES
  }

  /** When a snapshot of the tree succeeds. */
  ghost predicate Fits(t: Tree, rules: Rules, maxScannedFiles: nat) {
    var evidence := Evidence(t, rules, Entries(t, rules));
    && |Entries(t, rules)| <= EntryLimit(maxScannedFiles)
    && !UnsafeSummary(t)
    && AllResolve(t, rules, evidence)
    && TotalCost(t, rules, evidence) <= SNAPSHOT_MAX_BYTES
  }

  /** One record per element of `s`, in some order. */
  ghost predicate RecordsOf(t: Tree, rules: Rules, s: set<Path>, records: seq<Record>) {
    exists ps :: NoDuplicates(ps) && Elements(ps) == s && records == MapRecords(t, rules, ps)
  }

  function MapRecords(t: Tree, rules: Rules, ps: seq<Path>): (r: seq<Record>)
    ensures |r| == |ps| && forall i :: 0 <= i < |ps| ==> r[i] == RecordOf(t, rules, ps[i])
  {
    seq(|ps|, i requires 0 <= i < |ps| => RecordOf(t, rules, ps[i]))
  }

  // ---- Sums ----

  lemma TotalCostWith(t: Tree, rules: Rules, s: set<Path>, p: Path)
    requires p !in s
    ensures TotalCost(t, rules, s + {p}) == TotalCost(t, rules, s) + Cost(t, rules, p)
  {
    hide Cost;
    SumWith(p => Cost(t, rules, p), s, p);
  }

  lemma TotalCostMonotone(t: Tree, rules: Rules, s: set<Path>, u: set<Path>)
    requires s <= u
    ensures 0 <= TotalCost(t, rules, s) <= TotalCost(t, rules, u)
  {
    hide Cost;
    SumMonotone(p => Cost(t, rules, p), s, u);
  }

  // ---- A snapshot in progress ----

  ghost predicate Snapped(t: Tree, rules: Rules, visited: set<Path>, pending: seq<Path>, remaining: set<Path>,
                          entries: nat, consumed: nat, records: seq<Record>)
  {
    var seen := Seen(t, visited, remaining);
    && InProgress(t, rules, visited, pending, remaining)
    && entries == |seen| && consumed == TotalCost(t, rules, Evidence(t, rules, seen))
    && AllResolve(t, rules, Evidence(t, rules, seen)) && RecordsOf(t, rules, Evidence(t, rules, seen), records)
    && (UnsafeSummary(t) ==> PYPROJECT !in seen)
  }

  lemma SnapshotBegins(t: Tree, rules: Rules)
    ensures Snapped(t, rules, {}, [[]], {}, 0, 0, [])
  {
    Begin(t, rules);
    assert Evidence(t, rules, {}) == {};
    assert Elements<Path>([]) == {} && MapRecords(t, rules, []) == [];
  }

  lemma SnapshotOpens(t: Tree, rules: Rules, visited: set<Path>, pending: seq<Path>, entries: nat, consumed: nat,
                      records: seq<Record>)
    requires Snapped(t, rules, visited, pending, {}, entries, consumed, records) && pending != []
    ensures var rest, d := pending[..|pending| - 1], pending[|pending| - 1];
      Snapped(t, rules, visited + {d}, rest, Children(t, d), entries, consumed, records)
    ensures |t.Keys + {[]} - (visited + {pending[|pending| - 1]})| < |t.Keys + {[]} - visited|
  {
    hide InProgress, Seen, Evidence, AllResolve, RecordsOf, Children;
    var last := |pending| - 1;
    OpenDirectory(t, rules, visited, pending, last);
    assert pending[..last] + pending[last + 1..] == pending[..last];
    Shrinks(t, rules, visited, pending[..last], pending[last]);
  }

  /** An entry that contributes nothing: a link, a directory, or a file some rule excludes. */
  lemma SkipEntry(t: Tree, rules: Rules, visited: set<Path>, pending: seq<Path>, remaining: set<Path>, entries: nat,
                  consumed: nat, records: seq<Record>, p: Path)
    requires Snapped(t, rules, visited, pending, remaining, entries, consumed, records) && p in remaining
    requires !Passes(t, rules, IsEvidence, p) && !(UnsafeSummary(t) && p == PYPROJECT)
    ensures Snapped(t, rules, visited, if Opens(t, rules, p) then pending + [p] else pending, remaining - {p},
                    entries + 1, consumed, records)
  {
    hide InProgress, Seen, Passes, Opens, AllResolve, RecordsOf, UnsafeSummary;
    TakeEntry(t, rules, visited, pending, remaining, p);
    var seen := Seen(t, visited, remaining);
    assert Evidence(t, rules, seen + {p}) == Evidence(t, rules, seen);
  }

  lemma RecordEntry(t: Tree, rules: Rules, visited: set<Path>, pending: seq<Path>, remaining: set<Path>, entries: nat,
                    consumed: nat, records: seq<Record>, p: Path)
    requires Snapped(t, rules, visited, pending, remaining, entries, consumed, records) && p in remaining
    requires Passes(t, rules, IsEvidence, p) && Resolve(t, rules, Join(p)).Some?
    ensures Snapped(t, rules, visited, pending, remaining - {p}, entries + 1, consumed + Cost(t, rules, p),
                    records + [RecordOf(t, rules, p)])
  {
    hide InProgress, Seen, RecordsOf, Cost, Resolve, RecordOf, IsEvidence;
    TakeEntry(t, rules, visited, pending, remaining, p);
    var seen := Seen(t, visited, remaining);
    assert !Opens(t, rules, p) && !(UnsafeSummary(t) && p == PYPROJECT);
    assert Evidence(t, rules, seen + {p}) == Evidence(t, rules, seen) + {p};
    TotalCostWith(t, rules, Evidence(t, rules, seen), p);
    OneMoreRecord(t, rules, Evidence(t, rules, seen), records, p);
  }

  lemma OneMoreRecord(t: Tree, rules: Rules, s: set<Path>, records: seq<Record>, p: Path)
    requires RecordsOf(t, rules, s, records) && p !in s
    ensures RecordsOf(t, rules, s + {p}, records + [RecordOf(t, rules, p)])
  {
    hide RecordOf, NoDuplicates, Elements;
    var ps :| NoDuplicates(ps) && Elements(ps) == s && records == MapRecords(t, rules, ps);
    Appended(ps, p);
    assert MapRecords(t, rules, ps + [p]) == MapRecords(t, rules, ps) + [RecordOf(t, rules, p)];
  }

  /** What a part of the tree shows, the whole tree shows. */
  lemma PartOfTree(t: Tree, rules: Rules, visited: set<Path>, pending: seq<Path>, remaining: set<Path>, entries: nat,
                   consumed: nat, records: seq<Record>)
    requires Snapped(t, rules, visited, pending, remaining, entries, consumed, records)
    ensures entries <= |Entries(t, rules)|
    ensures consumed <= TotalCost(t, rules, Evidence(t, rules, Entries(t, rules)))
  {
    hide InProgress, Seen, Entries, RecordsOf, AllResolve;
    SeenWithin(t, rules, visited, pending, remaining);
    SubsetCardinality(Seen(t, visited, remaining), Entries(t, rules));
    TotalCostMonotone(t, rules, Evidence(t, rules, Seen(t, visited, remaining)), Evidence(t, rules, Entries(t, rules)));
  }

  lemma NextIsEntry(t: Tree, rules: Rules, visited: set<Path>, pending: seq<Path>, remaining: set<Path>, entries: nat,
                    consumed: nat, records: seq<Record>, p: Path)
    requires Snapped(t, rules, visited, pending, remaining, entries, consumed, records) && p in remaining
    ensures p in t && p != [] && p in Entries(t, rules) && entries + 1 <= |Entries(t, rules)|
  {
    hide RecordsOf, AllResolve, Opens;
    TakeEntry(t, rules, visited, pending, remaining, p);
    SeenWithin(t, rules, visited, pending, remaining);
    SubsetCardinality(Seen(t, visited, remaining) + {p}, Entries(t, rules));
  }

  lemma SnapshotEnds(t: Tree, rules: Rules, visited: set<Path>, entries: nat, consumed: nat, records: seq<Record>)
    requires IsTree(t) && Snapped(t, rules, visited, [], {}, entries, consumed, records)
    ensures entries == |Entries(t, rules)| && consumed == TotalCost(t, rules, Evidence(t, rules, Entries(t, rules)))
    ensures AllResolve(t, rules, Evidence(t, rules, Entries(t, rules))) && !UnsafeSummary(t)
    ensures RecordsOf(t, rules, Evidence(t, rules, Entries(t, rules)), records)
  {
    hide InProgress, Seen, RecordsOf, AllResolve, Evidence;
    Finish(t, rules, visited);
    assert Parent(PYPROJECT) == [];
  }

  function NameOf(r: Record): string {
    r.name
  }

  // ---- A snapshot in plain terms ----

  /** A visible file that is no link and not sensitive, of one of the six evidence kinds. */
  ghost predicate IsEvidenceFile(t: Tree, rules: Rules, p: Path) {
    && Visible(t, rules, p) && !t[p].Directory? && !t[p].Link? && !rules.sensitive(Join(p))
    && var s := Join(p);
       || HasSuffix(s, ".py") || HasSuffix(s, ".md") || HasSuffix(s, ".yaml") || HasSuffix(s, ".yml")
       || HasSuffix(s, ".toml") || HasSuffix(s, ".cfg")
  }

  /** Normalised, the name of `p` is that of the regular file `q`, which no rule excludes. */
  predicate ResolvesTo(t: Tree, rules: Rules, p: Path, q: Path) {
    && Normalize(Join(p)) == Some(q) && q in t && t[q].File? && !rules.sensitive(Join(q))
    && forall i :: 0 <= i < |q| - 1 ==> !rules.ignored(q[i])
  }

  /** What is read of the file `p` resolves to: at most one byte more than 256 KiB. */
  ghost function ReadSize(t: Tree, rules: Rules, p: Path): int {
    if q :| ResolvesTo(t, rules, p, q) then if t[q].size <= 256 * 1024 then t[q].size else 256 * 1024 + 1 else 0
  }

  /** When the snapshot exists: few entries, no linked project file, and evidence that resolves and is small enough. */
  ghost predicate SnapshotExists(t: Tree, rules: Rules, maxScannedFiles: nat) {
    var evidence := set p | p in t && IsEvidenceFile(t, rules, p);
    && |VisibleEntries(t, rules)| <= maxScannedFiles && |VisibleEntries(t, rules)| <= 10_000
    && !(["pyproject.toml"] in t && t[["pyproject.toml"]].Link?)
    && (forall p :: p in evidence ==> exists q :: ResolvesTo(t, rules, p, q))
    && SumOver(p => ReadSize(t, rules, p), evidence) <= 8_388_608
  }

  ghost function VisibleEntries(t: Tree, rules: Rules): set<Path> {
    set p | p in t && Visible(t, rules, p)
  }

  /** `files` lists the evidence files, and each record is that of the file its path resolves to. */
  ghost predicate RecordsFiles(t: Tree, rules: Rules, files: seq<Path>, records: seq<Record>) {
    && NoDuplicates(files) && (forall p :: p in files <==> IsEvidenceFile(t, rules, p)) && |records| == |files|
    && forall i :: 0 <= i < |files| ==> IsRecordOf(t, rules, files[i], records[i])
  }

  ghost predicate IsRecordOf(t: Tree, rules: Rules, p: Path, r: Record) {
    exists q :: ResolvesTo(t, rules, p, q) && r == Record(Join(q), t[q].digest, t[q].truncated)
  }

  lemma ResolveMeans(t: Tree, rules: Rules, p: Path, q: Path)
    ensures Resolve(t, rules, Join(p)) == Some(q) <==> ResolvesTo(t, rules, p, q)
  {
    hide Normalize;
  }

  lemma EvidenceMeans(t: Tree, rules: Rules, p: Path)
    ensures p in Evidence(t, rules, Entries(t, rules)) <==> IsEvidenceFile(t, rules, p)
  {
    hide Entries, Join, Visible, HasSuffix;
    EntriesAreVisible(t, rules);
    assert Visible(t, rules, p) ==> p in t by { VisibleIsThere(t, rules, p); }
    SuffixesAre(Join(p));
  }

  lemma VisibleIsThere(t: Tree, rules: Rules, p: Path)
    ensures Visible(t, rules, p) ==> p in t
  {
  }

  lemma SuffixesAre(s: string)
    ensures IsEvidence(s) <==>
      || HasSuffix(s, ".py") || HasSuffix(s, ".md") || HasSuffix(s, ".yaml") || HasSuffix(s, ".yml")
      || HasSuffix(s, ".toml") || HasSuffix(s, ".cfg")
  {
    hide HasSuffix;
    assert EVIDENCE_SUFFIXES[0] == ".py" && EVIDENCE_SUFFIXES[1] == ".md" && EVIDENCE_SUFFIXES[2] == ".yaml";
    assert EVIDENCE_SUFFIXES[3] == ".yml" && EVIDENCE_SUFFIXES[4] == ".toml" && EVIDENCE_SUFFIXES[5] == ".cfg";
  }

  lemma CostMeans(t: Tree, rules: Rules, p: Path)
    ensures Cost(t, rules, p) == ReadSize(t, rules, p)
    ensures Resolve(t, rules, Join(p)).Some? <==> exists q :: ResolvesTo(t, rules, p, q)
  {
    hide Normalize, Join;
    forall q ensures Resolve(t, rules, Join(p)) == Some(q) <==> ResolvesTo(t, rules, p, q) {
      ResolveMeans(t, rules, p, q);
    }
  }

  lemma FitsMeans(t: Tree, rules: Rules, maxScannedFiles: nat)
    ensures Fits(t, rules, maxScannedFiles) <==> SnapshotExists(t, rules, maxScannedFiles)
  {
    hide Entries, Visible, Evidence, IsEvidenceFile, Resolve, ResolvesTo, Cost, ReadSize, Join;
    var evidence := set p | p in t && IsEvidenceFile(t, rules, p);
    EntriesAreVisible(t, rules);
    forall p ensures p in Entries(t, rules) <==> p in VisibleEntries(t, rules) {
      VisibleIsThere(t, rules, p);
    }
    assert Entries(t, rules) == VisibleEntries(t, rules);
    EvidenceIs(t, rules);
    forall p
      ensures Cost(t, rules, p) == ReadSize(t, rules, p)
      ensures Resolve(t, rules, Join(p)).Some? <==> exists q :: ResolvesTo(t, rules, p, q) {
      CostMeans(t, rules, p);
    }
    SumAlike(p => Cost(t, rules, p), p => ReadSize(t, rules, p), evidence);
  }

  lemma EvidenceIs(t: Tree, rules: Rules)
    ensures Evidence(t, rules, Entries(t, rules)) == set p | p in t && IsEvidenceFile(t, rules, p)
  {
    hide Entries, Visible, Join;
    forall p ensures p in Evidence(t, rules, Entries(t, rules)) <==> p in t && IsEvidenceFile(t, rules, p) {
      EvidenceMeans(t, rules, p);
      VisibleIsThere(t, rules, p);
    }
  }

  lemma RecordsMean(t: Tree, rules: Rules, records: seq<Record>)
    requires RecordsOf(t, rules, Evidence(t, rules, Entries(t, rules)), records)
    requires AllResolve(t, rules, Evidence(t, rules, Entries(t, rules)))
    ensures exists files :: RecordsFiles(t, rules, files, records)
  {
    hide Entries, Evidence, IsEvidenceFile, Resolve, IsRecordOf, RecordOf, Join, NoDuplicates;
    var evidence := Evidence(t, rules, Entries(t, rules));
    var files :| NoDuplicates(files) && Elements(files) == evidence && records == MapRecords(t, rules, files);
    forall p ensures p in files <==> IsEvidenceFile(t, rules, p) {
      EvidenceMeans(t, rules, p);
      assert p in files <==> p in Elements(files);
    }
    forall i | 0 <= i < |files| ensures IsRecordOf(t, rules, files[i], records[i]) {
      assert files[i] in evidence;
      TakenRecord(t, rules, files[i]);
    }
    assert RecordsFiles(t, rules, files, records);
  }

  lemma SnapshotMeans(t: Tree, rules: Rules, maxScannedFiles: nat, records: seq<Record>)
    requires Fits(t, rules, maxScannedFiles)
    requires RecordsOf(t, rules, Evidence(t, rules, Entries(t, rules)), records)
    ensures SortedBy(StringLeq, NameOf, SortBy(StringLeq, NameOf, records))
    ensures exists files, listed ::
      RecordsFiles(t, rules, files, listed) && multiset(SortBy(StringLeq, NameOf, records)) == multiset(listed)
  {
    hide Entries, Evidence, RecordsOf, RecordsFiles, AllResolve, SortBy, SortedBy, TotalCost;
    StringOrder();
    SortByIsSorted(StringLeq, NameOf, records);
    RecordsMean(t, rules, records);
  }

  lemma TakenRecord(t: Tree, rules: Rules, p: Path)
    requires Resolve(t, rules, Join(p)).Some?
    ensures IsRecordOf(t, rules, p, RecordOf(t, rules, p))
  {
    hide Resolve, Join;
    var q := Resolve(t, rules, Join(p)).value;
    ResolveMeans(t, rules, p, q);
    assert ResolvesTo(t, rules, p, q);
  }

  /**
   * The snapshot: its sorted records, or a refusal. Both are fixed by the tree, whatever order directories list
   * their entries in.
   */
  method RepositorySnapshot(t: Tree, rules: Rules, maxScannedFiles: nat) returns (r: Option<seq<Record>>)
    requires IsTree(t)
    ensures r.Some? <==> SnapshotExists(t, rules, maxScannedFiles)
    ensures r.Some? ==> SortedBy(StringLeq, NameOf, r.value) && exists files, records ::
      RecordsFiles(t, rules, files, records) && multiset(r.value) == multiset(records)
    ensures r.Some? <==> Fits(t, rules, maxScannedFiles)
    ensures r.Some? ==> exists records ::
      RecordsOf(t, rules, Evidence(t, rules, Entries(t, rules)), records) && r.value == SortBy(StringLeq, NameOf, records)
  {
    hide Snapped, Entries, Evidence, RecordsOf, AllResolve, Cost, TotalCost, RecordOf, Children, SortBy, IsTree, EntryLimit,
      UnsafeSummary, SnapshotExists, RecordsFiles, SortedBy;
    FitsMeans(t, rules, maxScannedFiles);
    var pending: seq<Path> := [[]];
    var entries: nat, consumed: nat := 0, 0;
    var records: seq<Record> := [];
    ghost var visited: set<Path> := {};
    SnapshotBegins(t, rules);
    while pending != []
      invariant Snapped(t, rules, visited, pending, {}, entries, consumed, records)
      invariant entries <= EntryLimit(maxScannedFiles) && consumed <= SNAPSHOT_MAX_BYTES
      decreases |t.Keys + {[]} - visited|
    {
      SnapshotOpens(t, rules, visited, pending, entries, consumed, records);
      var directory := pending[|pending| - 1];
      pending := pending[..|pending| - 1];
      visited := visited + {directory};
      var ok;
      ok, pending, entries, consumed, records :=
        SnapshotDirectory(t, rules, maxScannedFiles, directory, pending, entries, consumed, records, visited);
      if !ok {
        return None;
      }
    }
    SnapshotEnds(t, rules, visited, entries, consumed, records);
    SnapshotMeans(t, rules, maxScannedFiles, records);
    return Some(SortBy(StringLeq, NameOf, records));
  }

  /** The entries of one directory, or a refusal when the tree does not fit. */
  method SnapshotDirectory(t: Tree, rules: Rules, maxScannedFiles: nat, directory: Path, pending0: seq<Path>,
                           entries0: nat, consumed0: nat, records0: seq<Record>, ghost visited: set<Path>)
    returns (ok: bool, pending: seq<Path>, entries: nat, consumed: nat, records: seq<Record>)
    requires Snapped(t, rules, visited, pending0, Children(t, directory), entries0, consumed0, records0)
    requires entries0 <= EntryLimit(maxScannedFiles) && consumed0 <= SNAPSHOT_MAX_BYTES
    ensures ok ==> Snapped(t, rules, visited, pending, {}, entries, consumed, records)
    ensures ok ==> entries <= EntryLimit(maxScannedFiles) && consumed <= SNAPSHOT_MAX_BYTES
    ensures !ok ==> !Fits(t, rules, maxScannedFiles)
  {
    hide Snapped, Entries, Evidence, RecordsOf, AllResolve, Cost, TotalCost, RecordOf, Opens, Children, EntryLimit, Passes,
      Resolve, Join, UnsafeSummary;
    ok, pending, entries, consumed, records := true, pending0, entries0, consumed0, records0;
    var remaining := Children(t, directory);
    while remaining != {}
      invariant Snapped(t, rules, visited, pending, remaining, entries, consumed, records)
      invariant ok && entries <= EntryLimit(maxScannedFiles) && consumed <= SNAPSHOT_MAX_BYTES
      decreases |remaining|
    {
      var p :| p in remaining;
      NextIsEntry(t, rules, visited, pending, remaining, entries, consumed, records, p);
      if entries + 1 > EntryLimit(maxScannedFiles) {
        ok := false;
        return;
      }
      var verdict := Inspect(t, rules, p);
      if verdict.Refuse? {
        ok := false;
        return;
      }
      if verdict.Take? {
        RecordEntry(t, rules, visited, pending, remaining, entries, consumed, records, p);
        consumed := consumed + Cost(t, rules, p);
        records := records + [RecordOf(t, rules, p)];
      } else {
        SkipEntry(t, rules, visited, pending, remaining, entries, consumed, records, p);
        pending := if verdict.Descend? then pending + [p] else pending;
      }
      entries := entries + 1;
      remaining := remaining - {p};
      if consumed > SNAPSHOT_MAX_BYTES {
        PartOfTree(t, rules, visited, pending, remaining, entries, consumed, records);
        ok := false;
        return;
      }
    }
  }

  datatype Verdict = Skip | Descend | Take | Refuse

  /** The chain of tests one entry goes through. */
  method Inspect(t: Tree, rules: Rules, p: Path) returns (v: Verdict)
    requires p in t && p != [] && p in Entries(t, rules)
    ensures v.Descend? <==> Opens(t, rules, p)
    ensures v.Take? ==> Passes(t, rules, IsEvidence, p) && Resolve(t, rules, Join(p)).Some?
    ensures v.Skip? || v.Descend? ==> !Passes(t, rules, IsEvidence, p) && !(UnsafeSummary(t) && p == PYPROJECT)
    ensures v.Refuse? ==> UnsafeSummary(t) || !AllResolve(t, rules, Evidence(t, rules, Entries(t, rules)))
  {
    hide Entries, Resolve, IsEvidence;
    if t[p].Link? {
      return if p == PYPROJECT then Refuse else Skip;
    }
    if t[p].Directory? {
      return if rules.ignored(LastName(p)) then Skip else Descend;
    }
    if rules.sensitive(Join(p)) {
      return Skip;
    }
    if !IsEvidence(Join(p)) {
      return Skip;
    }
    return if Resolve(t, rules, Join(p)).None? then Refuse else Take;
  }
}
