/** The walk over allowed files (src/specflow/tools/repository_policy.py:122-183). */
module RepositoryTraversal {
  import opened Prelude
  import opened Sorting
  import opened Text
  import opened PathNames
  import opened RepositoryTree

  function LastName(p: Path): string {
    if p == [] then "" else p[|p| - 1]
  }

  // ---- Resolving one relative path ----

  /** `resolve_file`: normalised, outside ignored directories, not sensitive, and an existing regular file. */
  function Resolve(t: Tree, rules: Rules, relative: string): Option<Path> {
    match Normalize(relative)
    case None => None
    case Some(q) =>
      if (exists i :: 0 <= i < |q| - 1 && rules.ignored(q[i])) || rules.sensitive(Join(q)) then None
      else if q !in t || !t[q].File? then None
      else Some(q)
  }

  // ---- Walking ----

  ghost function FileEntries(t: Tree, s: set<Path>): set<Path> {
    set p | p in s && p in t && IsFileEntry(t[p])
  }

  /** `found` lists the entries of `s` that pass. */
  ghost predicate IsAllowedPart(t: Tree, rules: Rules, matches: string -> bool, s: set<Path>, found: seq<Path>) {
    NoDuplicates(found) && Elements(found) == set p | p in s && Passes(t, rules, matches, p)
  }

  /** A walk in progress: what it has scanned and found is what it has seen. */
  ghost predicate Walked(t: Tree, rules: Rules, matches: string -> bool, visited: set<Path>, pending: seq<Path>,
                         remaining: set<Path>, scanned: nat, discovered: seq<Path>)
  {
    && InProgress(t, rules, visited, pending, remaining)
    && IsAllowedPart(t, rules, matches, Seen(t, visited, remaining), discovered)
    && scanned == |FileEntries(t, Seen(t, visited, remaining))|
  }

  /** A directory's entries in some order, split as `os.walk` splits them. */
  method Scan(t: Tree, d: Path) returns (directories: seq<Path>, files: seq<Path>)
    ensures NoDuplicates(directories) && NoDuplicates(files)
    ensures Elements(directories) == set p | p in Children(t, d) && !IsFileEntry(t[p])
    ensures Elements(files) == set p | p in Children(t, d) && IsFileEntry(t[p])
  {
    directories, files := [], [];
    var left := Children(t, d);
    while left != {}
      invariant left <= Children(t, d) && NoDuplicates(directories) && NoDuplicates(files)
      invariant Elements(directories) == set p | p in Children(t, d) - left && !IsFileEntry(t[p])
      invariant Elements(files) == set p | p in Children(t, d) - left && IsFileEntry(t[p])
    {
      var p :| p in left;
      if IsFileEntry(t[p]) {
        Appended(files, p);
        files := files + [p];
      } else {
        Appended(directories, p);
        directories := directories + [p];
      }
      left := left - {p};
    }
  }

  lemma Appended<T>(s: seq<T>, x: T)
    ensures Elements(s + [x]) == Elements(s) + {x}
    ensures NoDuplicates(s) && x !in Elements(s) ==> NoDuplicates(s + [x])
  {
    assert forall i :: 0 <= i < |s| ==> s[i] in Elements(s);
  }

  lemma WalkBegins(t: Tree, rules: Rules, matches: string -> bool)
    ensures Walked(t, rules, matches, {}, [[]], {}, 0, [])
  {
    Begin(t, rules);
    assert FileEntries(t, {}) == {};
  }

  lemma WalkOpens(t: Tree, rules: Rules, matches: string -> bool, visited: set<Path>, pending: seq<Path>, scanned: nat,
                  discovered: seq<Path>)
    requires Walked(t, rules, matches, visited, pending, {}, scanned, discovered) && pending != []
    ensures var rest, d := pending[..|pending| - 1], pending[|pending| - 1];
      Walked(t, rules, matches, visited + {d}, rest, Children(t, d), scanned, discovered)
    ensures |t.Keys + {[]} - (visited + {pending[|pending| - 1]})| < |t.Keys + {[]} - visited|
  {
    hide InProgress, Seen, IsAllowedPart, FileEntries, Children;
    var last := |pending| - 1;
    OpenDirectory(t, rules, visited, pending, last);
    assert pending[..last] + pending[last + 1..] == pending[..last];
    Shrinks(t, rules, visited, pending[..last], pending[last]);
  }

  lemma Shrinks(t: Tree, rules: Rules, visited: set<Path>, rest: seq<Path>, d: Path)
    requires InProgress(t, rules, visited + {d}, rest, Children(t, d)) && d !in visited
    ensures |t.Keys + {[]} - (visited + {d})| < |t.Keys + {[]} - visited|
  {
    SeenWithin(t, rules, visited + {d}, rest, Children(t, d));
    assert t.Keys + {[]} - visited == (t.Keys + {[]} - (visited + {d})) + {d};
  }

  lemma WalkFile(t: Tree, rules: Rules, matches: string -> bool, visited: set<Path>, pending: seq<Path>,
                 remaining: set<Path>, scanned: nat, discovered: seq<Path>, p: Path)
    requires Walked(t, rules, matches, visited, pending, remaining, scanned, discovered)
    requires p in remaining && p in t && IsFileEntry(t[p])
    ensures Walked(t, rules, matches, visited, pending, remaining - {p}, scanned + 1,
                   if Passes(t, rules, matches, p) then discovered + [p] else discovered)
  {
    hide InProgress, Seen, Passes;
    TakeEntry(t, rules, visited, pending, remaining, p);
    var seen := Seen(t, visited, remaining);
    assert FileEntries(t, seen + {p}) == FileEntries(t, seen) + {p};
    Appended(discovered, p);
  }

  lemma WalkDirectory(t: Tree, rules: Rules, matches: string -> bool, visited: set<Path>, pending: seq<Path>,
                      remaining: set<Path>, scanned: nat, discovered: seq<Path>, p: Path)
    requires Walked(t, rules, matches, visited, pending, remaining, scanned, discovered)
    requires p in remaining && p in t && !IsFileEntry(t[p])
    ensures Walked(t, rules, matches, visited, if Opens(t, rules, p) then pending + [p] else pending, remaining - {p},
                   scanned, discovered)
  {
    hide InProgress, Seen, Opens;
    TakeEntry(t, rules, visited, pending, remaining, p);
    var seen := Seen(t, visited, remaining);
    assert FileEntries(t, seen + {p}) == FileEntries(t, seen);
  }

  /** The scan limit is exceeded for the whole tree once it is for a part. */
  lemma ScannedTooMany(t: Tree, rules: Rules, matches: string -> bool, visited: set<Path>, pending: seq<Path>,
                       remaining: set<Path>, scanned: nat, discovered: seq<Path>)
    requires Walked(t, rules, matches, visited, pending, remaining, scanned, discovered)
    ensures scanned <= |FileEntries(t, Entries(t, rules))|
  {
    hide InProgress, Seen, Entries;
    SeenWithin(t, rules, visited, pending, remaining);
    SubsetCardinality(FileEntries(t, Seen(t, visited, remaining)), FileEntries(t, Entries(t, rules)));
  }

  lemma TakeFirst(s: seq<Path>, i: nat)
    requires NoDuplicates(s) && i < |s|
    ensures Elements(s[i..]) == {s[i]} + Elements(s[i + 1..]) && s[i] !in Elements(s[i + 1..])
  {
    assert s[i..] == [s[i]] + s[i + 1..];
  }

  lemma TakeLast(s: seq<Path>, i: nat)
    requires NoDuplicates(s) && 0 < i <= |s|
    ensures Elements(s[..i]) == {s[i - 1]} + Elements(s[..i - 1]) && s[i - 1] !in Elements(s[..i - 1])
  {
    assert s[..i] == s[..i - 1] + [s[i - 1]];
  }

  /** The files of one directory, in name order. */
  method WalkFiles(t: Tree, rules: Rules, matches: string -> bool, files: seq<Path>, maxScannedFiles: nat,
                   scanned0: nat, discovered0: seq<Path>, ghost visited: set<Path>, ghost pending: seq<Path>,
                   ghost others: set<Path>)
    returns (ok: bool, scanned: nat, discovered: seq<Path>)
    requires NoDuplicates(files) && others !! Elements(files) && scanned0 <= maxScannedFiles
    requires forall p :: p in Elements(files) ==> p in t && IsFileEntry(t[p])
    requires Walked(t, rules, matches, visited, pending, others + Elements(files), scanned0, discovered0)
    ensures ok ==> Walked(t, rules, matches, visited, pending, others, scanned, discovered) && scanned <= maxScannedFiles
    ensures !ok ==> |FileEntries(t, Entries(t, rules))| > maxScannedFiles
  {
    hide Walked, Passes, Entries, NoDuplicates, FileEntries, Elements, IsFileEntry;
    scanned, discovered := scanned0, discovered0;
    assert files[0..] == files;
    var i := 0;
    while i < |files|
      invariant i <= |files| && scanned <= maxScannedFiles && others !! Elements(files[i..])
      invariant Elements(files[i..]) <= Elements(files)
      invariant Walked(t, rules, matches, visited, pending, others + Elements(files[i..]), scanned, discovered)
    {
      var p := files[i];
      TakeFirst(files, i);
      WalkFile(t, rules, matches, visited, pending, others + Elements(files[i..]), scanned, discovered, p);
      assert others + Elements(files[i..]) - {p} == others + Elements(files[i + 1..]);
      scanned := scanned + 1;
      if Passes(t, rules, matches, p) {
        discovered := discovered + [p];
      }
      i := i + 1;
      if scanned > maxScannedFiles {
        ScannedTooMany(t, rules, matches, visited, pending, others + Elements(files[i..]), scanned, discovered);
        return false, scanned, discovered;
      }
    }
    assert others + Elements(files[i..]) == others by { NothingLeft(files); }
    return true, scanned, discovered;
  }

  lemma NothingLeft(s: seq<Path>)
    ensures Elements(s[|s|..]) == {} && Elements(s[..0]) == {}
  {
  }

  /** The directories of one directory to descend into, the first by name on top of the stack. */
  method PushDirectories(t: Tree, rules: Rules, matches: string -> bool, directories: seq<Path>, pending0: seq<Path>,
                         ghost scanned: nat, ghost discovered: seq<Path>, ghost visited: set<Path>)
    returns (pending: seq<Path>)
    requires NoDuplicates(directories)
    requires forall p :: p in Elements(directories) ==> p in t && !IsFileEntry(t[p])
    requires Walked(t, rules, matches, visited, pending0, Elements(directories), scanned, discovered)
    ensures Walked(t, rules, matches, visited, pending, {}, scanned, discovered)
  {
    hide Walked, Opens, NoDuplicates, Elements, IsFileEntry;
    pending := pending0;
    assert directories[..|directories|] == directories;
    var i := |directories|;
    while i > 0
      invariant 0 <= i <= |directories| && Elements(directories[..i]) <= Elements(directories)
      invariant Walked(t, rules, matches, visited, pending, Elements(directories[..i]), scanned, discovered)
    {
      TakeLast(directories, i);
      i := i - 1;
      var p := directories[i];
      WalkDirectory(t, rules, matches, visited, pending, Elements(directories[..i + 1]), scanned, discovered, p);
      assert Elements(directories[..i + 1]) - {p} == Elements(directories[..i]);
      if Opens(t, rules, p) {
        pending := pending + [p];
      }
    }
    NothingLeft(directories);
  }

  method SortByName(s: seq<Path>) returns (r: seq<Path>)
    requires NoDuplicates(s)
    ensures NoDuplicates(r) && Elements(r) == Elements(s) && SortedBy(StringLeq, LastName, r)
  {
    StringOrder();
    SortKeepsListing(StringLeq, LastName, s);
    SortByIsSorted(StringLeq, LastName, s);
    return SortBy(StringLeq, LastName, s);
  }

  // ---- Patterns ----

  const MAX_PATTERN_LENGTH := 256

  datatype PatternError = TooManyPatterns | BlankPattern | UnboundedPattern | EscapingPattern

  /** What a pattern is compared as. */
  function PatternValue(pattern: string): string {
    Slashed(Strip(pattern))
  }

  function PatternErrorOf(pattern: string): Option<PatternError> {
    var value := PatternValue(pattern);
    if value == "" then Some(BlankPattern)
    else if |value| > MAX_PATTERN_LENGTH || Rooted(value) then Some(UnboundedPattern)
    else if ".." in Parts(value) then Some(EscapingPattern)
    else None
  }

  function PatternValues(patterns: seq<string>): (r: seq<string>)
    ensures |r| == |patterns| && forall i :: 0 <= i < |r| ==> r[i] == PatternValue(patterns[i])
  {
    seq(|patterns|, i requires 0 <= i < |patterns| => PatternValue(patterns[i]))
  }

  predicate GoodPatterns(patterns: seq<string>, maxPatterns: nat) {
    |patterns| <= maxPatterns && forall i :: 0 <= i < |patterns| ==> PatternErrorOf(patterns[i]).None?
  }

  /** Few enough patterns, each of them nonblank, at most 256 long, relative and without a parent step. */
  predicate WellFormedPatterns(patterns: seq<string>, maxPatterns: nat) {
    |patterns| <= maxPatterns && forall i :: 0 <= i < |patterns| ==>
      var v := Slashed(Strip(patterns[i]));
      && 1 <= |v| <= 256 && v[0] != '/' && !(|v| >= 3 && v[1] == ':' && v[2] == '/')
      && ".." !in Segments(v)
  }

  lemma GoodPatternsMeans(patterns: seq<string>, maxPatterns: nat)
    ensures GoodPatterns(patterns, maxPatterns) <==> WellFormedPatterns(patterns, maxPatterns)
  {
    hide Segments, Strip;
    forall i | 0 <= i < |patterns|
      ensures ".." in Parts(Slashed(Strip(patterns[i]))) <==> ".." in Segments(Slashed(Strip(patterns[i]))) {
      KeptHas(Segments(Slashed(Strip(patterns[i]))), "..");
    }
  }

  ghost predicate FirstBadPattern(patterns: seq<string>, maxPatterns: nat, i: nat, e: PatternError)
    requires i < |patterns|
  {
    |patterns| <= maxPatterns && GoodPatterns(patterns[..i], maxPatterns) && PatternErrorOf(patterns[i]) == Some(e)
  }

  /** `validate_patterns`: the values of the patterns, or the error of the first bad one. */
  method ValidatePatterns(patterns: seq<string>, maxPatterns: nat)
    returns (error: Option<PatternError>, values: seq<string>)
    ensures error.None? <==> WellFormedPatterns(patterns, maxPatterns)
    ensures error.None? <==> GoodPatterns(patterns, maxPatterns)
    ensures error.None? ==> values == PatternValues(patterns)
    ensures error.Some? ==>
      if |patterns| > maxPatterns then error.value == TooManyPatterns
      else exists i :: 0 <= i < |patterns| && FirstBadPattern(patterns, maxPatterns, i, error.value)
  {
    hide PatternErrorOf, PatternValue, WellFormedPatterns;
    GoodPatternsMeans(patterns, maxPatterns);
    error, values := None, [];
    if |patterns| > maxPatterns {
      error := Some(TooManyPatterns);
      return;
    }
    for i := 0 to |patterns|
      invariant GoodPatterns(patterns[..i], maxPatterns) && values == PatternValues(patterns[..i])
    {
      error := PatternErrorOf(patterns[i]);
      if error.Some? {
        assert FirstBadPattern(patterns, maxPatterns, i, error.value);
        return;
      }
      values := values + [PatternValue(patterns[i])];
      assert patterns[..i + 1] == patterns[..i] + [patterns[i]];
    }
    assert patterns[..|patterns|] == patterns;
    error := None;
  }

  /** Validated patterns validate again, to themselves. */
  lemma PatternsAreStable(pattern: string)
    ensures PatternValue(PatternValue(pattern)) == PatternValue(pattern)
    ensures PatternErrorOf(PatternValue(pattern)) == PatternErrorOf(pattern)
  {
    var raw := Strip(pattern);
    StripTrims(pattern);
    StrippedSlashed(raw);
    assert Slashed(Slashed(raw)) == Slashed(raw);
  }

  /** Replacing backslashes neither makes nor removes surrounding white space. */
  lemma StrippedSlashed(s: string)
    requires s == "" || Trimmed(s)
    ensures Strip(Slashed(s)) == Slashed(s)
  {
    StripTrims(Slashed(s));
  }

  // ---- The walk as a whole ----

  datatype WalkResult = Files(paths: seq<Path>) | BadPatterns(error: PatternError) | TooManyFiles

  /** Which paths the patterns select; without included patterns every path is included. */
  function Selects(included: seq<string>, excluded: seq<string>, glob: (string, string) -> bool): string -> bool {
    path => (included == [] || MatchesAny(path, included, glob)) && !MatchesAny(path, excluded, glob)
  }

  predicate MatchesAny(path: string, patterns: seq<string>, glob: (string, string) -> bool) {
    exists i :: 0 <= i < |patterns| && glob(path, patterns[i])
  }

  /** The walk once the patterns are accepted. */
  method Walk(t: Tree, rules: Rules, matches: string -> bool, maxScannedFiles: nat) returns (r: Option<seq<Path>>)
    ensures r.Some? <==> |FileEntries(t, Entries(t, rules))| <= maxScannedFiles
    ensures r.Some? ==> exists found ::
      IsAllowedPart(t, rules, matches, Entries(t, rules), found) && r.value == SortBy(StringLeq, Join, found)
  {
    hide Walked, InProgress, Seen, Entries, Children, IsAllowedPart, FileEntries, SortBy, NoDuplicates, Elements,
      SortedBy;
    var pending: seq<Path> := [[]];
    var scanned: nat, discovered: seq<Path> := 0, [];
    ghost var visited: set<Path> := {};
    WalkBegins(t, rules, matches);
    while pending != []
      invariant Walked(t, rules, matches, visited, pending, {}, scanned, discovered) && scanned <= maxScannedFiles
      decreases |t.Keys + {[]} - visited|
    {
      WalkOpens(t, rules, matches, visited, pending, scanned, discovered);
      var d := pending[|pending| - 1];
      pending := pending[..|pending| - 1];
      visited := visited + {d};
      var directories, files := Scan(t, d);
      ScanSplits(t, d, directories, files);
      directories := SortByName(directories);
      files := SortByName(files);
      var ok;
      ok, scanned, discovered :=
        WalkFiles(t, rules, matches, files, maxScannedFiles, scanned, discovered, visited, pending, Elements(directories));
      if !ok {
        return None;
      }
      pending := PushDirectories(t, rules, matches, directories, pending, scanned, discovered, visited);
    }
    WalkEnds(t, rules, matches, visited, scanned, discovered);
    return Some(SortBy(StringLeq, Join, discovered));
  }

  /** A visible file entry: an ordinary or special file, or a link that does not lead to a directory. */
  ghost function VisibleFiles(t: Tree, rules: Rules): set<Path> {
    set p | p in t && Visible(t, rules, p) && !t[p].Directory? && (t[p].Link? ==> !t[p].toDirectory)
  }

  /** A visible file, no link, not sensitive, that some included pattern (or none at all) and no excluded one matches. */
  ghost predicate IsAllowed(t: Tree, rules: Rules, included: seq<string>, excluded: seq<string>,
                            glob: (string, string) -> bool, p: Path)
  {
    && Visible(t, rules, p) && !t[p].Directory? && !t[p].Link? && !rules.sensitive(Join(p))
    && (included == [] || exists i :: 0 <= i < |included| && glob(Join(p), Slashed(Strip(included[i]))))
    && !exists i :: 0 <= i < |excluded| && glob(Join(p), Slashed(Strip(excluded[i])))
  }

  /**
   * The allowed files, each once and sorted by relative path; refused exactly when a pattern is bad or the tree shows
   * more file entries than the limit. None of it depends on the order in which directories list their entries.
   */
  method IterAllowedFiles(t: Tree, rules: Rules, included: seq<string>, excluded: seq<string>,
                          glob: (string, string) -> bool, maxPatterns: nat, maxScannedFiles: nat)
    returns (r: WalkResult)
    ensures r.BadPatterns? <==>
      !WellFormedPatterns(included, maxPatterns) || !WellFormedPatterns(excluded, maxPatterns)
    ensures r.TooManyFiles? <==>
      && WellFormedPatterns(included, maxPatterns) && WellFormedPatterns(excluded, maxPatterns)
      && |VisibleFiles(t, rules)| > maxScannedFiles
    ensures r.Files? ==> NoDuplicates(r.paths) && SortedBy(StringLeq, Join, r.paths)
    ensures r.Files? ==> forall p :: p in r.paths <==> IsAllowed(t, rules, included, excluded, glob, p)
    ensures r.Files? ==> exists found ::
      && IsAllowedPart(t, rules, Selects(PatternValues(included), PatternValues(excluded), glob), Entries(t, rules),
                       found)
      && r.paths == SortBy(StringLeq, Join, found)
  {
    hide GoodPatterns, WellFormedPatterns, PatternValues, Selects, IsAllowedPart, SortBy, Entries, FileEntries, IsAllowed,
      SortedBy, NoDuplicates, VisibleFiles;
    GoodPatternsMeans(included, maxPatterns);
    GoodPatternsMeans(excluded, maxPatterns);
    var error, includedValues := ValidatePatterns(included, maxPatterns);
    if error.Some? {
      return BadPatterns(error.value);
    }
    var error', excludedValues := ValidatePatterns(excluded, maxPatterns);
    if error'.Some? {
      return BadPatterns(error'.value);
    }
    FileEntriesAreVisible(t, rules);
    ghost var matches := Selects(includedValues, excludedValues, glob);
    var files := Walk(t, rules, Selects(includedValues, excludedValues, glob), maxScannedFiles);
    if files.None? {
      return TooManyFiles;
    }
    ghost var found :|
      IsAllowedPart(t, rules, matches, Entries(t, rules), found) && files.value == SortBy(StringLeq, Join, found);
    WalkListsAllowed(t, rules, included, excluded, glob, found);
    return Files(files.value);
  }

  lemma FileEntriesAreVisible(t: Tree, rules: Rules)
    ensures FileEntries(t, Entries(t, rules)) == VisibleFiles(t, rules)
  {
    hide Entries, Visible;
    EntriesAreVisible(t, rules);
  }

  lemma SelectsMeans(included: seq<string>, excluded: seq<string>, glob: (string, string) -> bool, path: string)
    ensures Selects(PatternValues(included), PatternValues(excluded), glob)(path) <==>
      && (included == [] || exists i :: 0 <= i < |included| && glob(path, PatternValue(included[i])))
      && !exists i :: 0 <= i < |excluded| && glob(path, PatternValue(excluded[i]))
  {
    hide PatternValue;
    var a, b := PatternValues(included), PatternValues(excluded);
    if i :| 0 <= i < |included| && glob(path, PatternValue(included[i])) {
      assert glob(path, a[i]);
    }
    if i :| 0 <= i < |excluded| && glob(path, PatternValue(excluded[i])) {
      assert glob(path, b[i]);
    }
  }

  lemma ListedMeansAllowed(t: Tree, rules: Rules, included: seq<string>, excluded: seq<string>,
                           glob: (string, string) -> bool, found: seq<Path>, p: Path)
    requires IsAllowedPart(t, rules, Selects(PatternValues(included), PatternValues(excluded), glob), Entries(t, rules),
                           found)
    ensures p in Elements(found) <==> IsAllowed(t, rules, included, excluded, glob, p)
  {
    hide Selects, PatternValues, Entries, OpenAt, Elements, NoDuplicates, Strip, Slashed;
    EntriesAreVisible(t, rules);
    SelectsMeans(included, excluded, glob, Join(p));
  }

  lemma WalkListsAllowed(t: Tree, rules: Rules, included: seq<string>, excluded: seq<string>,
                         glob: (string, string) -> bool, found: seq<Path>)
    requires IsAllowedPart(t, rules, Selects(PatternValues(included), PatternValues(excluded), glob), Entries(t, rules),
                           found)
    ensures var paths := SortBy(StringLeq, Join, found);
      && NoDuplicates(paths) && SortedBy(StringLeq, Join, paths)
      && forall p :: p in paths <==> IsAllowed(t, rules, included, excluded, glob, p)
  {
    hide Selects, PatternValues, Entries, SortBy, SortedBy, IsAllowed, Passes, NoDuplicates, Join;
    StringOrder();
    SortKeepsListing(StringLeq, Join, found);
    SortByIsSorted(StringLeq, Join, found);
    var paths := SortBy(StringLeq, Join, found);
    forall p ensures p in paths <==> IsAllowed(t, rules, included, excluded, glob, p) {
      ListedMeansAllowed(t, rules, included, excluded, glob, found, p);
      assert p in paths <==> p in Elements(paths);
    }
  }

  lemma ScanSplits(t: Tree, d: Path, directories: seq<Path>, files: seq<Path>)
    requires Elements(directories) == set p | p in Children(t, d) && !IsFileEntry(t[p])
    requires Elements(files) == set p | p in Children(t, d) && IsFileEntry(t[p])
    ensures Children(t, d) == Elements(directories) + Elements(files) && Elements(directories) !! Elements(files)
    ensures forall p :: p in Elements(files) ==> p in t && IsFileEntry(t[p])
    ensures forall p :: p in Elements(directories) ==> p in t && !IsFileEntry(t[p])
  {
  }

  lemma WalkEnds(t: Tree, rules: Rules, matches: string -> bool, visited: set<Path>, scanned: nat,
                 discovered: seq<Path>)
    requires Walked(t, rules, matches, visited, [], {}, scanned, discovered)
    ensures IsAllowedPart(t, rules, matches, Entries(t, rules), discovered)
    ensures scanned == |FileEntries(t, Entries(t, rules))|
  {
    hide InProgress, Seen;
    Finish(t, rules, visited);
  }
}
