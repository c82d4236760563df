/** An immutable file tree, and the state of a traversal in progress. */
module RepositoryTree {
  // What the repository rules let a traversal reach (src/specflow/tools/repository_policy.py:106-161,
  // src/specflow/single_flight.py:57-113).

  import opened Prelude
  import opened PathNames

  /** `Link` is a symbolic link or reparse point; `digest` and `truncated` are what reading a file's prefix gives. */
  datatype Kind =
    | File(size: nat, digest: string, truncated: bool)
    | Directory
    | Link(toDirectory: bool)
    | Special

  /** Every path below the root, by its components. */
  type Tree = map<Path, Kind>

  /** The ignored directory names and the sensitive-path test, whatever they are. */
  datatype Rules = Rules(ignored: string -> bool, sensitive: string -> bool)

  function Parent(p: Path): Path
    requires p != []
  {
    p[..|p| - 1]
  }

  ghost predicate IsTree(t: Tree) {
    forall p :: p in t ==> IsNamePath(p) && (|p| > 1 ==> Parent(p) in t && t[Parent(p)].Directory?)
  }

  /** A directory the traversals descend into. */
  predicate Opens(t: Tree, rules: Rules, p: Path) {
    p in t && p != [] && t[p].Directory? && !rules.ignored(p[|p| - 1])
  }

  predicate Reached(t: Tree, rules: Rules, d: Path)
    decreases |d|
  {
    d == [] || (Opens(t, rules, d) && Reached(t, rules, Parent(d)))
  }

  function Children(t: Tree, d: Path): set<Path> {
    set p | p in t && p != [] && Parent(p) == d
  }

  /** The entries of the directories in `visited`. */
  ghost function EntriesOf(t: Tree, visited: set<Path>): set<Path> {
    set p | p in t && p != [] && Parent(p) in visited
  }

  /** Every directory entry a traversal comes across. */
  ghost function Entries(t: Tree, rules: Rules): set<Path> {
    set p | p in t && p != [] && Reached(t, rules, Parent(p))
  }

  /** The first `i` components of `p` name a real directory that is not ignored. */
  predicate OpenAt(t: Tree, rules: Rules, p: Path, i: nat)
    requires 0 < i <= |p|
  {
    p[..i] in t && t[p[..i]].Directory? && !rules.ignored(p[i - 1])
  }

  /** Every directory on the way to `p` is a real one that is not ignored. */
  predicate Visible(t: Tree, rules: Rules, p: Path) {
    p != [] && p in t && forall i :: 0 < i < |p| ==> OpenAt(t, rules, p, i)
  }

  lemma {:induction false} ReachedIff(t: Tree, rules: Rules, d: Path)
    ensures Reached(t, rules, d) <==> forall i :: 0 < i <= |d| ==> OpenAt(t, rules, d, i)
    decreases |d|
  {
    if d != [] {
      var up := Parent(d);
      ReachedIff(t, rules, up);
      assert d[..|d|] == d;
      assert Opens(t, rules, d) <==> OpenAt(t, rules, d, |d|);
      forall i | 0 < i < |d| ensures OpenAt(t, rules, up, i) <==> OpenAt(t, rules, d, i) {
        assert up[..i] == d[..i];
      }
    }
  }

  /** A traversal comes across exactly the visible entries. */
  lemma EntriesAreVisible(t: Tree, rules: Rules)
    ensures forall p :: p in Entries(t, rules) <==> Visible(t, rules, p)
  {
    hide Reached;
    forall p | p != [] && p in t ensures Reached(t, rules, Parent(p)) <==> Visible(t, rules, p) {
      var up := Parent(p);
      ReachedIff(t, rules, up);
      forall i | 0 < i < |p| ensures OpenAt(t, rules, up, i) <==> OpenAt(t, rules, p, i) {
        assert up[..i] == p[..i];
      }
    }
  }

  const EVIDENCE_SUFFIXES := [".py", ".md", ".yaml", ".yml", ".toml", ".cfg"]

  /** `fnmatchcase` against `*.py`, `*.md`, `*.yaml`, `*.yml`, `*.toml` and `*.cfg`. */
  predicate IsEvidence(s: string) {
    exists i :: 0 <= i < |EVIDENCE_SUFFIXES| && HasSuffix(s, EVIDENCE_SUFFIXES[i])
  }

  predicate IsFileEntry(k: Kind) {
    k.File? || k.Special? || (k.Link? && !k.toDirectory)
  }

  /** A file entry that neither rule nor pattern excludes. */
  predicate Passes(t: Tree, rules: Rules, matches: string -> bool, p: Path) {
    p in t && (t[p].File? || t[p].Special?) && !rules.sensitive(Join(p)) && matches(Join(p))
  }

  // ---- A traversal in progress ----

  /** The entries seen so far, while `remaining` of the current directory is still to come. */
  ghost function Seen(t: Tree, visited: set<Path>, remaining: set<Path>): set<Path> {
    EntriesOf(t, visited) - remaining
  }

  ghost predicate InProgress(t: Tree, rules: Rules, visited: set<Path>, pending: seq<Path>, remaining: set<Path>) {
    && NoDuplicates(pending) && visited !! Elements(pending) && remaining <= EntriesOf(t, visited)
    && (forall d :: d in visited || d in pending ==> Reached(t, rules, d))
    && (forall d :: d in visited || d in pending ==> d == [] || d in Seen(t, visited, remaining))
    && ([] in visited || [] in pending)
    && (forall p :: p in Seen(t, visited, remaining) && Opens(t, rules, p) ==> p in visited || p in pending)
  }

  lemma Begin(t: Tree, rules: Rules)
    ensures InProgress(t, rules, {}, [[]], {})
    ensures Seen(t, {}, {}) == {}
  {
  }

  /** Opening the next directory shows nothing yet. */
  lemma OpenDirectory(t: Tree, rules: Rules, visited: set<Path>, pending: seq<Path>, i: nat)
    requires InProgress(t, rules, visited, pending, {}) && i < |pending|
    ensures var d := pending[i];
      && d !in visited && Reached(t, rules, d)
      && InProgress(t, rules, visited + {d}, pending[..i] + pending[i + 1..], Children(t, d))
      && Seen(t, visited + {d}, Children(t, d)) == Seen(t, visited, {})
  {
    hide Reached, Opens;
    hide NoDuplicates, Elements;
    var d := pending[i];
    assert d in Elements(pending) by { TakeOut(pending, i); }
    TakeOut(pending, i);
    assert Seen(t, visited + {d}, Children(t, d)) == Seen(t, visited, {});
  }

  lemma TakeOut<T>(s: seq<T>, i: nat)
    requires NoDuplicates(s) && i < |s|
    ensures var rest := s[..i] + s[i + 1..];
      && s[i] in Elements(s) && NoDuplicates(rest) && Elements(rest) == Elements(s) - {s[i]}
      && (forall x :: x in rest <==> x in s && x != s[i]) && (forall x :: x in s <==> x in Elements(s))
  {
    var rest := s[..i] + s[i + 1..];
    forall x | x in s && x != s[i] ensures x in rest {
      var j :| 0 <= j < |s| && s[j] == x;
      assert j < i ==> rest[j] == x;
      assert j > i ==> rest[j - 1] == x;
    }
    assert forall j :: 0 <= j < |rest| ==> rest[j] == s[if j < i then j else j + 1];
  }

  /** One entry taken; a directory to descend into becomes pending. */
  lemma TakeEntry(t: Tree, rules: Rules, visited: set<Path>, pending: seq<Path>, remaining: set<Path>, p: Path)
    requires InProgress(t, rules, visited, pending, remaining) && p in remaining
    ensures p in t && p != [] && p in Entries(t, rules) && p !in Seen(t, visited, remaining)
    ensures Seen(t, visited, remaining - {p}) == Seen(t, visited, remaining) + {p}
    ensures InProgress(t, rules, visited, if Opens(t, rules, p) then pending + [p] else pending, remaining - {p})
  {
    hide Opens;
    assert p !in pending && p !in visited;
    if Opens(t, rules, p) {
      assert Elements(pending + [p]) == Elements(pending) + {p};
      assert Reached(t, rules, p);
    }
  }

  lemma SeenWithin(t: Tree, rules: Rules, visited: set<Path>, pending: seq<Path>, remaining: set<Path>)
    requires InProgress(t, rules, visited, pending, remaining)
    ensures Seen(t, visited, remaining) <= Entries(t, rules) && visited <= t.Keys + {[]}
  {
  }

  /** When nothing is pending, everything has been seen. */
  lemma Finish(t: Tree, rules: Rules, visited: set<Path>)
    requires InProgress(t, rules, visited, [], {})
    ensures Seen(t, visited, {}) == Entries(t, rules)
  {
    SeenWithin(t, rules, visited, [], {});
    forall p | p in Entries(t, rules) ensures p in Seen(t, visited, {}) {
      ReachedVisited(t, rules, visited, Parent(p));
    }
  }

  lemma {:induction false} ReachedVisited(t: Tree, rules: Rules, visited: set<Path>, d: Path)
    requires InProgress(t, rules, visited, [], {}) && Reached(t, rules, d)
    ensures d in visited
    decreases |d|
  {
    if d != [] {
      ReachedVisited(t, rules, visited, Parent(d));
    }
  }
}
