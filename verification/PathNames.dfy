/** Path strings and their normalisation (repository_policy.py:205-221). */
module PathNames {
  import opened Prelude
  import opened Text

  type Path = seq<string>

  // ---- Joining and splitting ----

  /** `as_posix()` of a relative path. */
  function Join(p: Path): string {
    if p == [] then "" else if |p| == 1 then p[0] else Join(p[..|p| - 1]) + "/" + p[|p| - 1]
  }

  /** `s.split("/")` */
  function Segments(s: string): (r: seq<string>)
    ensures r != []
  {
    if s == [] then [[]]
    else
      var r, c := Segments(s[..|s| - 1]), s[|s| - 1];
      if c == '/' then r + [[]] else r[|r| - 1 := r[|r| - 1] + [c]]
  }

  function Kept(r: seq<string>): seq<string> {
    if r == [] then [] else Kept(r[..|r| - 1]) + if r[|r| - 1] in ["", "."] then [] else [r[|r| - 1]]
  }

  /** `PurePosixPath(s).parts` of a relative path: empty and `.` components do not count. */
  function Parts(s: string): seq<string> {
    Kept(Segments(s))
  }

  /** A name that can stand in a directory. */
  predicate IsName(n: string) {
    n != "" && n != "." && n != ".." && '/' !in n
  }

  predicate IsNamePath(p: Path) {
    p != [] && forall i :: 0 <= i < |p| ==> IsName(p[i])
  }

  lemma {:induction false} SegmentsExtend(s: string, t: string)
    requires '/' !in t
    ensures Segments(s + t) == Segments(s)[|Segments(s)| - 1 := Segments(s)[|Segments(s)| - 1] + t]
    decreases |t|
  {
    var r := Segments(s);
    if t == [] {
      assert s + t == s && r[|r| - 1] + t == r[|r| - 1];
    } else {
      var init := t[..|t| - 1];
      SegmentsExtend(s, init);
      assert (s + t)[..|s + t| - 1] == s + init;
      assert (r[|r| - 1] + init) + [t[|t| - 1]] == r[|r| - 1] + t;
    }
  }

  lemma SegmentsSlash(s: string)
    ensures Segments(s + "/") == Segments(s) + [[]]
  {
    assert (s + "/")[..|s|] == s;
  }

  lemma {:induction false} SegmentsOfJoin(p: Path)
    requires IsNamePath(p)
    ensures Segments(Join(p)) == p
    decreases |p|
  {
    hide Segments;
    var last := p[|p| - 1];
    if |p| == 1 {
      SegmentsOfName(last);
    } else {
      var init := p[..|p| - 1];
      SegmentsOfJoin(init);
      SegmentsSlash(Join(init));
      SegmentsExtend(Join(init) + "/", last);
      assert "" + last == last;
      assert (init + [""])[|init| := last] == init + [last] == p;
    }
  }

  lemma SegmentsOfName(name: string)
    requires '/' !in name
    ensures Segments(name) == [name]
  {
    SegmentsExtend("", name);
    assert "" + name == name;
  }

  lemma {:induction false} KeptNames(p: Path)
    requires forall i :: 0 <= i < |p| ==> IsName(p[i])
    ensures Kept(p) == p
    decreases |p|
  {
    if p != [] {
      KeptNames(p[..|p| - 1]);
      assert IsName(p[|p| - 1]);
    }
  }

  lemma {:induction false} KeptHas(r: seq<string>, x: string)
    ensures x in Kept(r) <==> x in r && x != "" && x != "."
  {
    if r != [] {
      KeptHas(r[..|r| - 1], x);
      assert r == r[..|r| - 1] + [r[|r| - 1]];
    }
  }

  /** The segments are what stands between the slashes. */
  lemma {:induction false} JoinSegments(s: string)
    ensures Join(Segments(s)) == s && forall i :: 0 <= i < |Segments(s)| ==> '/' !in Segments(s)[i]
  {
    if s != [] {
      var init, c := s[..|s| - 1], s[|s| - 1];
      JoinSegments(init);
      var r := Segments(init);
      var last := r[|r| - 1];
      assert s == init + [c];
      if c == '/' {
        assert (r + [""])[..|r|] == r;
        assert init + "/" + "" == s;
      } else {
        var r' := r[|r| - 1 := last + [c]];
        assert r'[..|r| - 1] == r[..|r| - 1];
        assert |r| > 1 ==> Join(r') == Join(r[..|r| - 1]) + "/" + last + [c];
      }
    }
  }

  lemma JoinParts(p: Path)
    requires IsNamePath(p)
    ensures Parts(Join(p)) == p
  {
    SegmentsOfJoin(p);
    KeptNames(p);
  }

  /** Distinct paths have distinct strings. */
  lemma JoinInjective(p: Path, q: Path)
    requires IsNamePath(p) && IsNamePath(q) && Join(p) == Join(q)
    ensures p == q
  {
    SegmentsOfJoin(p);
    SegmentsOfJoin(q);
  }

  // ---- Length of a split string ----

  function Total(p: seq<string>): nat {
    if p == [] then 0 else Total(p[..|p| - 1]) + |p[|p| - 1]|
  }

  lemma TotalAppend(p: seq<string>, x: string)
    ensures Total(p + [x]) == Total(p) + |x|
  {
    assert (p + [x])[..|p|] == p;
  }

  lemma {:induction false} JoinLength(p: Path)
    requires p != []
    ensures |Join(p)| == Total(p) + |p| - 1
    decreases |p|
  {
    if |p| == 1 {
      assert p == [] + [p[0]];
      TotalAppend([], p[0]);
    } else {
      JoinLength(p[..|p| - 1]);
    }
  }

  lemma {:induction false} SegmentsLength(s: string)
    ensures Total(Segments(s)) + |Segments(s)| - 1 == |s|
  {
    if s == [] {
      assert [""] == [] + [""];
      TotalAppend([], "");
    } else {
      var init, c := s[..|s| - 1], s[|s| - 1];
      SegmentsLength(init);
      var r := Segments(init);
      if c == '/' {
        TotalAppend(r, []);
      } else {
        var last := |r| - 1;
        assert r == r[..last] + [r[last]];
        assert Segments(s) == r[..last] + [r[last] + [c]];
        TotalAppend(r[..last], r[last]);
        TotalAppend(r[..last], r[last] + [c]);
      }
    }
  }

  lemma {:induction false} KeptShorter(r: seq<string>)
    ensures Total(Kept(r)) <= Total(r) && |Kept(r)| <= |r|
  {
    if r != [] {
      var init, last := r[..|r| - 1], r[|r| - 1];
      KeptShorter(init);
      if last !in ["", "."] {
        TotalAppend(Kept(init), last);
      } else {
        assert Kept(r) == Kept(init);
      }
    }
  }

  lemma {:induction false} KeptMember(r: seq<string>, i: nat) returns (j: nat)
    requires i < |Kept(r)|
    ensures j < |r| && Kept(r)[i] == r[j] && r[j] != "" && r[j] != "."
    decreases |r|
  {
    var init := r[..|r| - 1];
    if i < |Kept(init)| {
      j := KeptMember(init, i);
    } else {
      j := |r| - 1;
    }
  }

  /** Joining the parts of a string gives at most that string back. */
  lemma PartsShorter(s: string)
    ensures Parts(s) != [] ==> |Join(Parts(s))| <= |s|
  {
    SegmentsLength(s);
    KeptShorter(Segments(s));
    if Parts(s) != [] {
      JoinLength(Parts(s));
    }
  }

  lemma {:induction false} SegmentsWithout(s: string, i: nat, c: char)
    requires c !in s && i < |Segments(s)|
    ensures c !in Segments(s)[i] && '/' !in Segments(s)[i]
  {
    if s != [] {
      var init := s[..|s| - 1];
      var r := Segments(init);
      assert c !in init;
      if i < |r| {
        SegmentsWithout(init, i, c);
      }
    }
  }

  lemma {:induction false} JoinWithout(p: Path, c: char)
    requires c != '/' && forall i :: 0 <= i < |p| ==> c !in p[i]
    ensures c !in Join(p)
    decreases |p|
  {
    if |p| > 1 {
      JoinWithout(p[..|p| - 1], c);
    }
  }

  lemma PartsWithout(s: string, c: char)
    requires c !in s && c != '/'
    ensures c !in Join(Parts(s)) && forall i :: 0 <= i < |Parts(s)| ==> '/' !in Parts(s)[i]
  {
    var parts := Parts(s);
    forall i | 0 <= i < |parts| ensures c !in parts[i] && '/' !in parts[i] {
      var j := KeptMember(Segments(s), i);
      SegmentsWithout(s, j, c);
    }
    JoinWithout(parts, c);
  }

  // ---- Normalisation ----

  /** `s.replace("\\", "/")` */
  function Slashed(s: string): (r: string)
    ensures |r| == |s| && forall i :: 0 <= i < |s| ==> r[i] == if s[i] == '\\' then '/' else s[i]
  {
    seq(|s|, i requires 0 <= i < |s| => if s[i] == '\\' then '/' else s[i])
  }

  /** Absolute for POSIX, or rooted for Windows. */
  predicate Rooted(s: string) {
    s != [] && (s[0] in {'/', '\\'} || (|s| >= 3 && s[1] == ':' && s[2] in {'/', '\\'}))
  }

  /** `_normalize_relative_path`, as the parts of its result. */
  function Normalize(s: string): Option<Path> {
    var raw := Strip(s);
    if raw == "" || Rooted(raw) then None
    else
      var parts := Parts(Slashed(raw));
      if parts == [] || ".." in parts then None else Some(parts)
  }

  /** Refused are blank and rooted paths, and those that climb or name nothing. */
  lemma NormalizeRefuses(s: string)
    ensures var raw := Strip(s);
      var segments := Segments(Slashed(raw));
      Normalize(s).None? <==>
        || raw == "" || raw[0] == '/' || raw[0] == '\\'
        || (|raw| > 2 && raw[1] == ':' && (raw[2] == '/' || raw[2] == '\\'))
        || ".." in segments || forall i :: 0 <= i < |segments| ==> segments[i] == "" || segments[i] == "."
  {
    hide Segments, Strip, Kept;
    var segments := Segments(Slashed(Strip(s)));
    KeptHas(segments, "..");
    forall x ensures x in Kept(segments) <==> x in segments && x != "" && x != "." {
      KeptHas(segments, x);
    }
    if Kept(segments) != [] {
      assert Kept(segments)[0] in Kept(segments);
    }
    if i :| 0 <= i < |segments| && segments[i] != "" && segments[i] != "." {
      assert segments[i] in Kept(segments);
    }
  }

  /** No surrounding whitespace and no backslash. */
  predicate IsNormal(s: string) {
    '\\' !in s && Strip(s) == s
  }

  /** A normal path string normalises to itself. */
  lemma NormalizeNormal(p: Path)
    requires IsNamePath(p) && IsNormal(Join(p))
    ensures Normalize(Join(p)) in {None, Some(p)}
  {
    var s := Join(p);
    assert Slashed(s) == s;
    JoinParts(p);
  }

  /** Normalisation never lengthens a string, drops every backslash, and keeps the length only of normal strings. */
  lemma NormalizeShortens(s: string)
    requires Normalize(s).Some?
    ensures var q := Normalize(s).value;
      IsNamePath(q) && |Join(q)| <= |s| && '\\' !in Join(q) && (|Join(q)| == |s| && '\\' !in s ==> IsNormal(s))
  {
    var raw := Strip(s);
    StripShortens(s);
    StripShortens(StripLeft(s));
    PartsShorter(Slashed(raw));
    var q := Normalize(s).value;
    forall i | 0 <= i < |q| ensures q[i] != "" && q[i] != "." {
      var j := KeptMember(Segments(Slashed(raw)), i);
    }
    PartsWithout(Slashed(raw), '\\');
  }

  // ---- Suffixes ----

  predicate HasSuffix(s: string, t: string) {
    |t| <= |s| && s[|s| - |t|..] == t
  }

  /** A file name suffix: at least two characters, none of them a separator or white space. */
  predicate IsSuffix(t: string) {
    |t| >= 2 && forall i :: 0 <= i < |t| ==> t[i] !in {'/', '\\'} && !IsSpace(t[i])
  }

  lemma {:induction false} StripLeftSuffix(s: string, t: string)
    requires IsSuffix(t) && HasSuffix(s, t)
    ensures HasSuffix(StripLeft(s), t)
  {
    if IsSpace(s[0]) {
      assert s[|s| - |t|] == t[0];
      assert HasSuffix(s[1..], t);
      StripLeftSuffix(s[1..], t);
    }
  }

  lemma StripSuffix(s: string, t: string)
    requires IsSuffix(t) && HasSuffix(s, t)
    ensures HasSuffix(Strip(s), t)
  {
    StripLeftSuffix(s, t);
    var left := StripLeft(s);
    assert left[|left| - 1] == t[|t| - 1];
  }

  lemma PartsSuffix(s: string, t: string)
    requires IsSuffix(t) && HasSuffix(s, t)
    ensures Parts(s) != [] && HasSuffix(Parts(s)[|Parts(s)| - 1], t)
  {
    var init := s[..|s| - |t|];
    assert s == init + t;
    SegmentsExtend(init, t);
    var r := Segments(s);
    var last := r[|r| - 1];
    assert last[|last| - |t|..] == t;
  }

  lemma JoinSuffix(p: Path, t: string)
    requires p != [] && HasSuffix(p[|p| - 1], t)
    ensures HasSuffix(Join(p), t)
  {
  }

  lemma NormalizeSuffix(s: string, t: string)
    requires IsSuffix(t) && HasSuffix(s, t) && Normalize(s).Some?
    ensures HasSuffix(Join(Normalize(s).value), t)
  {
    var raw := Strip(s);
    StripSuffix(s, t);
    assert HasSuffix(Slashed(raw), t) by {
      assert forall i :: 0 <= i < |t| ==> raw[|raw| - |t| + i] == t[i];
    }
    PartsSuffix(Slashed(raw), t);
    JoinSuffix(Parts(Slashed(raw)), t);
  }
}
