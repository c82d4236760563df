/** Greedy trimming to a token budget. */
module TokenBudget {
  // TokenBudgetManager (src/specflow/token_budget/manager.py).

  import opened Prelude
  import opened Sorting
  import opened Text

  // ---- Contexts and their size ----

  datatype Source = Source(kind: string, identifier: string, hash: Option<string>)

  datatype Context = Context(
    systemMessage: string, userMessage: string, sources: seq<Source>, promptName: string, promptVersion: string,
    promptHash: string, projectContextHash: string, contextHash: string)

  /** A SHA-256 digest in hexadecimal. */
  type HexDigest = s: string | |s| == 64 witness seq(64, _ => '0')

  /** `calculate_hash`: some digest of the context. */
  type Hasher = Context -> HexDigest

  datatype Policy = Policy(maxTokens: int, reservedResponseTokens: int, charsPerToken: int, priorities: map<string, int>)

  /** What `_validate_policy` lets through. */
  predicate IsPolicy(policy: Policy) {
    policy.maxTokens > 0 && policy.reservedResponseTokens >= 0 && InputBudget(policy) > 0 && policy.charsPerToken > 0
  }

  datatype PolicyError = NoTokens | NegativeReserve | NothingUnreserved | NoCharacters

  /** `_validate_policy`: the first condition that fails, if any. */
  method ValidatePolicy(policy: Policy) returns (e: Option<PolicyError>)
    ensures e.None? <==> IsPolicy(policy)
    ensures e.None? <==> 0 <= policy.reservedResponseTokens < policy.maxTokens && policy.charsPerToken > 0
    ensures e == Some(NoTokens) <==> policy.maxTokens <= 0
    ensures e == Some(NegativeReserve) <==> policy.maxTokens > 0 && policy.reservedResponseTokens < 0
    ensures e == Some(NothingUnreserved) <==> 0 < policy.maxTokens <= policy.reservedResponseTokens
  {
    if policy.maxTokens <= 0 {
      return Some(NoTokens);
    }
    if policy.reservedResponseTokens < 0 {
      return Some(NegativeReserve);
    }
    if InputBudget(policy) <= 0 {
      return Some(NothingUnreserved);
    }
    if policy.charsPerToken <= 0 {
      return Some(NoCharacters);
    }
    return None;
  }

  function InputBudget(policy: Policy): int {
    policy.maxTokens - policy.reservedResponseTokens
  }

  function JoinLines(lines: seq<string>): string {
    if lines == [] then "" else if |lines| == 1 then lines[0]
    else JoinLines(lines[..|lines| - 1]) + "\n" + lines[|lines| - 1]
  }

  function Tokens(policy: Policy, chars: nat): int
    requires IsPolicy(policy)
  {
    var t := (chars + policy.charsPerToken - 1) / policy.charsPerToken;
    if t < 1 then 1 else t
  }

  function SourceLine(s: Source): string {
    s.kind + ":" + s.identifier + ":" + if s.hash.Some? then s.hash.value else ""
  }

  function Metadata(c: Context): string {
    JoinLines([c.promptName, c.promptVersion, c.promptHash, c.projectContextHash, c.contextHash,
               JoinLines(Map(SourceLine, c.sources))])
  }

  /** `_estimate_context` */
  function Estimate(policy: Policy, c: Context): int
    requires IsPolicy(policy)
  {
    Tokens(policy, |c.systemMessage| + |c.userMessage| + |Metadata(c)|)
  }

  /** `replace(context, user_message=..., context_hash="")`: the hash is computed anew. */
  function WithMessage(hasher: Hasher, c: Context, message: string): Context {
    var blank := c.(userMessage := message, contextHash := "");
    blank.(contextHash := hasher(blank))
  }

  // ---- Splitting into sections ----

  datatype Section = Section(name: string, text: string)

  /** The lines of a section before they are joined and stripped. */
  datatype Group = Group(name: string, lines: seq<string>)

  const MARKERS: seq<(string, seq<string>)> := [
    ("requirement", ["Requirement:", "User requirement:", "Requirement analysis:"]),
    ("project_overview", ["Project:", "# Project Context", "project_name:", "total_files:", "ignored_directories:",
                          "oversized_files:"]),
    ("technology_stack", ["language:", "frameworks:", "validation_library:", "orm:", "database:", "test_framework:",
                          "lint_tools:", "dependency_files:", "entry_candidates:", "top_level_directories:"]),
    ("evidence", ["technology_evidence:"]),
    ("warnings", ["parse_warnings:"]),
    ("unknowns", ["unknowns:", "Unknowns:"])
  ]

  predicate StartsWithAny(s: string, markers: seq<string>) {
    exists i :: 0 <= i < |markers| && markers[i] <= s
  }

  function FirstMatch(stripped: string, table: seq<(string, seq<string>)>): Option<string> {
    if table == [] then None
    else if StartsWithAny(stripped, table[0].1) then Some(table[0].0)
    else FirstMatch(stripped, table[1..])
  }

  /** `_detect_section`: the section a line opens, if any. */
  function DetectSection(line: string): Option<string> {
    FirstMatch(Strip(line), MARKERS)
  }

  predicate RowMatches(line: string, i: nat)
    requires i < |MARKERS|
  {
    exists m :: m in MARKERS[i].1 && |m| <= |Strip(line)| && Strip(line)[..|m|] == m
  }

  predicate FirstRow(line: string, i: nat)
    requires i < |MARKERS|
  {
    RowMatches(line, i) && forall j :: 0 <= j < i ==> !RowMatches(line, j)
  }

  /** A line opens the first section of the table that has a marker the stripped line begins with. */
  lemma DetectsFirst(line: string)
    ensures DetectSection(line).None? <==> forall i :: 0 <= i < |MARKERS| ==> !RowMatches(line, i)
    ensures DetectSection(line).Some? ==>
      exists i :: 0 <= i < |MARKERS| && FirstRow(line, i) && DetectSection(line).value == MARKERS[i].0
  {
    hide Strip;
    FirstMatchIs(Strip(line), MARKERS);
    forall i | 0 <= i < |MARKERS| ensures RowMatches(line, i) <==> StartsWithAny(Strip(line), MARKERS[i].1) {
      StartsWithSome(Strip(line), MARKERS[i].1);
    }
  }

  lemma StartsWithSome(s: string, markers: seq<string>)
    ensures StartsWithAny(s, markers) <==> exists m :: m in markers && |m| <= |s| && s[..|m|] == m
  {
  }

  predicate FirstStart(s: string, table: seq<(string, seq<string>)>, i: nat)
    requires i < |table|
  {
    StartsWithAny(s, table[i].1) && forall j :: 0 <= j < i ==> !StartsWithAny(s, table[j].1)
  }

  lemma {:induction false} FirstMatchIs(s: string, table: seq<(string, seq<string>)>)
    ensures FirstMatch(s, table).None? <==> forall i :: 0 <= i < |table| ==> !StartsWithAny(s, table[i].1)
    ensures FirstMatch(s, table).Some? ==>
      exists i :: 0 <= i < |table| && FirstStart(s, table, i) && FirstMatch(s, table).value == table[i].0
  {
    hide StartsWithAny;
    if table != [] && !StartsWithAny(s, table[0].1) {
      FirstMatchIs(s, table[1..]);
      assert forall i :: 0 < i < |table| ==> table[i] == table[1..][i - 1];
      assert !StartsWithAny(s, table[0].1);
      if FirstMatch(s, table).Some? {
        var i :| 0 <= i < |table[1..]| && FirstStart(s, table[1..], i) && FirstMatch(s, table).value == table[1..][i].0;
        assert FirstStart(s, table, i + 1);
      }
    }
  }

  predicate IsLineBreak(c: char) {
    '\n' <= c <= '\r' || '\U{1c}' <= c <= '\U{1e}' || c in {'\U{85}', '\U{2028}', '\U{2029}'}
  }

  /** `str.splitlines`, with the line being read in `current`. */
  function SplitLines(s: string, current: string): seq<string> {
    if s == [] then (if current == [] then [] else [current])
    else if |s| >= 2 && s[0] == '\r' && s[1] == '\n' then [current] + SplitLines(s[2..], [])
    else if IsLineBreak(s[0]) then [current] + SplitLines(s[1..], [])
    else SplitLines(s[1..], current + [s[0]])
  }

  const LINE_BREAKS := "\n\U{b}\U{c}\r\U{1c}\U{1d}\U{1e}\U{85}\U{2028}\U{2029}"

  /** The breaks that end the lines. */
  function Breaks(s: string): seq<string> {
    if s == [] then []
    else if |s| >= 2 && s[0] == '\r' && s[1] == '\n' then [s[..2]] + Breaks(s[2..])
    else if s[0] in LINE_BREAKS then [s[..1]] + Breaks(s[1..])
    else Breaks(s[1..])
  }

  /** Lines with a break after each; the last one may be without. */
  function Woven(lines: seq<string>, breaks: seq<string>): string {
    if lines == [] then ""
    else if breaks == [] then lines[0]
    else lines[0] + breaks[0] + Woven(lines[1..], breaks[1..])
  }

  /** Every line but the last, which is not empty, has its break; no break is inside a line; CR LF is one break. */
  ghost predicate IsSplit(s: string, lines: seq<string>, breaks: seq<string>) {
    && Woven(lines, breaks) == s
    && (|lines| == |breaks| || (|lines| == |breaks| + 1 && lines[|lines| - 1] != ""))
    && (forall i :: 0 <= i < |lines| ==> Unbroken(lines[i]))
    && (forall i :: 0 <= i < |breaks| ==> IsBreak(breaks[i]))
    && forall i :: 0 < i < |breaks| && lines[i] == "" && breaks[i - 1] == "\r" ==> breaks[i] != "\n"
  }

  predicate Unbroken(line: string) {
    forall j :: 0 <= j < |line| ==> line[j] !in LINE_BREAKS
  }

  predicate IsBreak(b: string) {
    b == "\r\n" || (|b| == 1 && b[0] in LINE_BREAKS)
  }

  lemma LineBreaksAre(c: char)
    ensures IsLineBreak(c) <==> c in LINE_BREAKS
  {
    var n := c as int;
    assert LINE_BREAKS[0] == '\n' && LINE_BREAKS[1] == '\U{b}' && LINE_BREAKS[2] == '\U{c}' && LINE_BREAKS[3] == '\r';
    assert LINE_BREAKS[4] == '\U{1c}' && LINE_BREAKS[5] == '\U{1d}' && LINE_BREAKS[6] == '\U{1e}';
    assert LINE_BREAKS[7] == '\U{85}' && LINE_BREAKS[8] == '\U{2028}' && LINE_BREAKS[9] == '\U{2029}';
  }

  /** Splitting a message into lines loses only the breaks between them. */
  lemma {:induction false} SplitIsUndone(s: string, current: string)
    requires Unbroken(current)
    ensures IsSplit(current + s, SplitLines(s, current), Breaks(s))
    decreases |s|
  {
    hide Unbroken, IsSplit, IsBreak, IsLineBreak, LINE_BREAKS;
    if s == [] {
      SplitEnd(current);
      assert current + s == current;
    } else if |s| >= 2 && s[0] == '\r' && s[1] == '\n' {
      EmptyUnbroken();
      SplitIsUndone(s[2..], []);
      assert [] + s[2..] == s[2..] && current + s == current + s[..2] + s[2..];
      BreakAt(s);
      SplitGoesOn(current, s[..2], s[2..], SplitLines(s[2..], []), Breaks(s[2..]));
    } else if IsLineBreak(s[0]) {
      LineBreaksAre(s[0]);
      EmptyUnbroken();
      SplitIsUndone(s[1..], []);
      assert [] + s[1..] == s[1..] && current + s == current + s[..1] + s[1..];
      BreakAt(s);
      SplitGoesOn(current, s[..1], s[1..], SplitLines(s[1..], []), Breaks(s[1..]));
    } else {
      LineBreaksAre(s[0]);
      UnbrokenGrows(current, s[0]);
      SplitIsUndone(s[1..], current + [s[0]]);
      assert current + [s[0]] + s[1..] == current + s;
    }
  }

  lemma BreakAt(s: string)
    requires s != []
    ensures |s| >= 2 && s[0] == '\r' && s[1] == '\n' ==> IsBreak(s[..2])
    ensures s[0] in LINE_BREAKS ==> IsBreak(s[..1])
  {
    hide LINE_BREAKS;
    assert |s| >= 2 && s[0] == '\r' && s[1] == '\n' ==> s[..2] == "\r\n";
  }

  lemma EmptyUnbroken()
    ensures Unbroken([])
  {
  }

  lemma UnbrokenGrows(line: string, c: char)
    requires Unbroken(line) && c !in LINE_BREAKS
    ensures Unbroken(line + [c])
  {
    hide LINE_BREAKS;
  }

  lemma SplitEnd(current: string)
    requires Unbroken(current)
    ensures IsSplit(current, if current == [] then [] else [current], [])
  {
  }

  lemma SplitGoesOn(line: string, b: string, s: string, lines: seq<string>, breaks: seq<string>)
    requires Unbroken(line) && IsBreak(b) && IsSplit(s, lines, breaks)
    requires b == "\r" && s != [] ==> s[0] != '\n'
    ensures IsSplit(line + b + s, [line] + lines, [b] + breaks)
  {
    hide Unbroken, IsBreak;
    var ls, bs := [line] + lines, [b] + breaks;
    assert ls[1..] == lines && bs[1..] == breaks;
    forall i | 0 < i < |bs| && ls[i] == "" && bs[i - 1] == "\r" ensures bs[i] != "\n" {
      if i == 1 {
        assert s == lines[0] + breaks[0] + Woven(lines[1..], breaks[1..]);
      }
    }
  }

  function Lines(groups: seq<Group>): seq<string> {
    if groups == [] then [] else Lines(groups[..|groups| - 1]) + groups[|groups| - 1].lines
  }

  const DEFAULT_SECTION := "project_overview"

  /** The name of a group by its first line. */
  function HeadName(line: string): string {
    var d := DetectSection(line);
    if d.Some? then d.value else DEFAULT_SECTION
  }

  ghost predicate IsGroup(g: Group) {
    && g.lines != [] && g.name == HeadName(g.lines[0])
    && forall j :: 0 < j < |g.lines| ==> DetectSection(g.lines[j]).None?
  }

  /** The lines, cut exactly in front of each line that opens a section. */
  ghost predicate IsGrouping(lines: seq<string>, groups: seq<Group>) {
    && Lines(groups) == lines && (forall i :: 0 <= i < |groups| ==> IsGroup(groups[i]))
    && forall i :: 0 < i < |groups| ==> DetectSection(groups[i].lines[0]).Some?
  }

  function GroupText(g: Group): string {
    Strip(JoinLines(g.lines))
  }

  function NonBlank(groups: seq<Group>): seq<Section> {
    if groups == [] then []
    else
      var g := groups[|groups| - 1];
      NonBlank(groups[..|groups| - 1]) + if GroupText(g) == "" then [] else [Section(g.name, GroupText(g))]
  }

  /** The grouping loop. */
  method GroupLines(lines: seq<string>) returns (closed: seq<Group>)
    ensures IsGrouping(lines, closed)
  {
    hide DetectSection;
    closed := [];
    var currentName, currentLines := DEFAULT_SECTION, [];
    var i := 0;
    while i < |lines|
      invariant i <= |lines| && (i == 0 <==> currentLines == []) && (i == 0 ==> closed == [] && currentName == DEFAULT_SECTION)
      invariant i > 0 ==> IsGrouping(lines[..i], closed + [Group(currentName, currentLines)])
    {
      var line := lines[i];
      var detected := DetectSection(line);
      assert lines[..i + 1] == lines[..i] + [line];
      if detected.Some? && currentLines != [] {
        NewGroup(lines[..i], closed + [Group(currentName, currentLines)], line);
        closed := closed + [Group(currentName, currentLines)];
        currentName, currentLines := detected.value, [line];
      } else {
        if detected.Some? {
          currentName := detected.value;
        }
        if i > 0 {
          LongerGroup(lines[..i], closed, Group(currentName, currentLines), line);
        } else {
          FirstGroup(line);
        }
        currentLines := currentLines + [line];
      }
      i := i + 1;
    }
    assert lines[..i] == lines;
    if currentLines != [] {
      closed := closed + [Group(currentName, currentLines)];
    }
  }

  /** Splitting loses no line and keeps their order: the groups are the grouping of the message's lines. */
  method SplitUserMessage(message: string) returns (sections: seq<Section>)
    ensures exists groups :: IsGrouping(SplitLines(message, []), groups) && sections == NonBlank(groups)
  {
    hide IsGrouping, GroupText, SplitLines;
    var groups := GroupLines(SplitLines(message, []));
    sections := [];
    var k := 0;
    while k < |groups|
      invariant k <= |groups| && sections == NonBlank(groups[..k])
    {
      var text := GroupText(groups[k]);
      assert groups[..k + 1][..k] == groups[..k];
      if text != "" {
        sections := sections + [Section(groups[k].name, text)];
      }
      k := k + 1;
    }
    assert groups[..k] == groups;
  }

  lemma FirstGroup(line: string)
    ensures IsGrouping([line], [] + [Group(HeadName(line), [line])])
  {
    hide DetectSection;
    assert Lines([Group(HeadName(line), [line])]) == [line];
  }

  lemma NewGroup(lines: seq<string>, groups: seq<Group>, line: string)
    requires IsGrouping(lines, groups) && groups != [] && DetectSection(line).Some?
    ensures IsGrouping(lines + [line], groups + [Group(DetectSection(line).value, [line])])
  {
    hide DetectSection;
    var g := Group(DetectSection(line).value, [line]);
    assert (groups + [g])[..|groups|] == groups;
    assert IsGroup(g);
  }

  lemma LongerGroup(lines: seq<string>, closed: seq<Group>, g: Group, line: string)
    requires IsGrouping(lines, closed + [g]) && DetectSection(line).None?
    ensures IsGrouping(lines + [line], closed + [Group(g.name, g.lines + [line])])
  {
    hide DetectSection;
    var h := Group(g.name, g.lines + [line]);
    var before, after := closed + [g], closed + [h];
    assert before[..|closed|] == closed == after[..|closed|];
    assert IsGroup(before[|closed|]);
    assert IsGroup(h);
    assert forall i :: 0 <= i < |closed| ==> before[i] == after[i];
  }

  lemma LastGroupNotShorter(lines: seq<string>, a: seq<Group>, b: seq<Group>)
    requires IsGrouping(lines, a) && IsGrouping(lines, b) && a != [] && b != []
    ensures |a[|a| - 1].lines| >= |b[|b| - 1].lines|
  {
    hide DetectSection;
    var x, y := a[|a| - 1].lines, b[|b| - 1].lines;
    assert IsGroup(a[|a| - 1]) && IsGroup(b[|b| - 1]);
    assert lines == Lines(a[..|a| - 1]) + x == Lines(b[..|b| - 1]) + y;
    assert x[0] == lines[|lines| - |x|];
    var start := |lines| - |y|;
    forall q | start < q < |lines| ensures DetectSection(lines[q]).None? {
      assert lines[q] == y[q - start];
    }
    if |a| == 1 {
      assert Lines(a[..0]) == [];
    }
  }

  /** There is only one way to group the lines. */
  lemma {:induction false} GroupingIsUnique(lines: seq<string>, a: seq<Group>, b: seq<Group>)
    requires IsGrouping(lines, a) && IsGrouping(lines, b)
    ensures a == b
    decreases |a|
  {
    hide DetectSection;
    if a == [] || b == [] {
      NoGroups(lines, a);
      NoGroups(lines, b);
    } else {
      var m, n := |a| - 1, |b| - 1;
      LastGroupNotShorter(lines, a, b);
      LastGroupNotShorter(lines, b, a);
      assert IsGroup(a[m]) && IsGroup(b[n]);
      assert lines == Lines(a[..m]) + a[m].lines == Lines(b[..n]) + b[n].lines;
      var rest := |lines| - |a[m].lines|;
      assert lines[..rest] == Lines(a[..m]) == Lines(b[..n]);
      assert a[m].lines == lines[rest..] == b[n].lines;
      GroupingIsUnique(lines[..rest], a[..m], b[..n]);
      assert a == a[..m] + [a[m]] && b == b[..n] + [b[n]];
    }
  }

  lemma NoGroups(lines: seq<string>, groups: seq<Group>)
    requires IsGrouping(lines, groups)
    ensures groups == [] <==> lines == []
  {
    hide DetectSection;
    if groups != [] {
      assert IsGroup(groups[|groups| - 1]);
    }
  }

  // ---- Sections and their joined text ----

  /** What splitting produces: a name, and text without surrounding white space. */
  predicate IsSection(x: Section) {
    x.name != "" && Trimmed(x.text)
  }

  lemma {:induction false} MatchHasName(stripped: string, table: seq<(string, seq<string>)>)
    requires forall i :: 0 <= i < |table| ==> table[i].0 != ""
    ensures FirstMatch(stripped, table).Some? ==> FirstMatch(stripped, table).value != ""
  {
    hide StartsWithAny;
    if table != [] && !StartsWithAny(stripped, table[0].1) {
      MatchHasName(stripped, table[1..]);
    }
  }

  lemma HeadHasName(line: string)
    ensures HeadName(line) != ""
  {
    MatchHasName(Strip(line), MARKERS);
  }

  lemma {:induction false} SplitGivesSections(groups: seq<Group>)
    requires forall i :: 0 <= i < |groups| ==> IsGroup(groups[i])
    ensures forall x :: x in NonBlank(groups) ==> IsSection(x)
  {
    hide HeadName;
    if groups != [] {
      var g := groups[|groups| - 1];
      SplitGivesSections(groups[..|groups| - 1]);
      assert IsGroup(g);
      HeadHasName(g.lines[0]);
      StripTrims(JoinLines(g.lines));
    }
  }

  function Texts(sections: seq<Section>): seq<string> {
    if sections == [] then []
    else
      var x := sections[|sections| - 1];
      Texts(sections[..|sections| - 1]) + if x.text == "" then [] else [x.text]
  }

  /** `_join_sections` */
  function Joined(sections: seq<Section>): string {
    Strip(JoinLines(Texts(sections)))
  }

  /** The sections whose position is not in `gone`, in order. */
  function Kept(sections: seq<Section>, gone: set<nat>): seq<Section> {
    if sections == [] then []
    else
      var n := |sections| - 1;
      Kept(sections[..n], gone) + if n in gone then [] else [sections[n]]
  }

  /** The working list: removed sections are blanked in place. */
  function Blanked(sections: seq<Section>, gone: set<nat>): (r: seq<Section>)
    ensures |r| == |sections|
    ensures forall i :: 0 <= i < |r| ==> r[i] == if i in gone then Section("", "") else sections[i]
  {
    seq(|sections|, i requires 0 <= i < |sections| => if i in gone then Section("", "") else sections[i])
  }

  function Present(sections: seq<Section>): seq<Section> {
    if sections == [] then []
    else
      var x := sections[|sections| - 1];
      Present(sections[..|sections| - 1]) + if x.name != "" && x.text != "" then [x] else []
  }

  lemma TextsAppend(sections: seq<Section>, x: Section)
    ensures Texts(sections + [x]) == Texts(sections) + if x.text == "" then [] else [x.text]
    ensures Present(sections + [x]) == Present(sections) + if x.name != "" && x.text != "" then [x] else []
  {
    assert (sections + [x])[..|sections|] == sections;
  }

  lemma {:induction false} BlankedIsKept(sections: seq<Section>, gone: set<nat>)
    requires forall x :: x in sections ==> IsSection(x)
    ensures Texts(Blanked(sections, gone)) == Texts(Kept(sections, gone))
    ensures Present(Blanked(sections, gone)) == Kept(sections, gone)
  {
    hide IsSection, Texts, Present;
    if sections == [] {
      assert Blanked(sections, gone) == [] == Kept(sections, gone);
      NoTexts();
    } else {
      var n := |sections| - 1;
      var init, last := sections[..n], sections[n];
      BlankedIsKept(init, gone);
      SectionHasText(last, sections);
      var here := if n in gone then Section("", "") else last;
      assert Blanked(sections, gone) == Blanked(init, gone) + [here];
      TextsAppend(Blanked(init, gone), here);
      TextsAppend(Kept(init, gone), last);
      assert Kept(sections, gone) == if n in gone then Kept(init, gone) else Kept(init, gone) + [last];
      assert Texts(Blanked(init, gone)) + [] == Texts(Blanked(init, gone));
    }
  }

  lemma NoTexts()
    ensures Texts([]) == [] && Present([]) == []
  {
  }

  lemma {:induction false} KeptAreSections(sections: seq<Section>, gone: set<nat>)
    requires forall x :: x in sections ==> IsSection(x)
    ensures forall x :: x in Kept(sections, gone) ==> IsSection(x)
  {
    hide IsSection;
    if sections != [] {
      KeptAreSections(sections[..|sections| - 1], gone);
      SectionHasText(sections[|sections| - 1], sections);
    }
  }

  lemma SectionHasText(x: Section, sections: seq<Section>)
    requires forall y :: y in sections ==> IsSection(y)
    ensures x in sections ==> IsSection(x) && x.name != "" && x.text != ""
  {
  }

  // ---- What fits ----

  /** The least positive number of tokens of the policy's size that the characters fill. */
  lemma TokensIsCeiling(policy: Policy, chars: nat)
    requires IsPolicy(policy)
    ensures var t, size := Tokens(policy, chars), policy.charsPerToken;
      t >= 1 && chars <= t * size && (t > 1 ==> chars > (t - 1) * size)
  {
    var size := policy.charsPerToken;
    var t := (chars + size - 1) / size;
    assert size * t <= chars + size - 1 < size * t + size;
    assert (t - 1) * size == size * t - size;
  }

  function SourceCharacters(sources: seq<Source>): nat {
    if sources == [] then 0
    else
      var n := |sources| - 1;
      var s := sources[n];
      (if n == 0 then 0 else SourceCharacters(sources[..n]) + 1)
      + |s.kind| + 1 + |s.identifier| + 1 + if s.hash.Some? then |s.hash.value| else 0
  }

  /** All a context is charged for: its messages, its metadata, and the separators between them. */
  function Characters(c: Context): nat {
    |c.systemMessage| + |c.userMessage| + |c.promptName| + |c.promptVersion| + |c.promptHash| + |c.projectContextHash|
    + |c.contextHash| + SourceCharacters(c.sources) + 5
  }

  lemma {:induction false} SourcesLength(sources: seq<Source>)
    ensures |JoinLines(Map(SourceLine, sources))| == SourceCharacters(sources)
  {
    hide Map, SourceLine;
    if sources == [] {
    } else {
      var n := |sources| - 1;
      var last := SourceLine(sources[n]);
      SourceLineLength(sources[n]);
      SourcesLength(sources[..n]);
      assert Map(SourceLine, sources) == Map(SourceLine, sources[..n]) + [last];
      if n == 0 {
        assert Map(SourceLine, sources) == [last];
      } else {
        JoinAppend(Map(SourceLine, sources[..n]), last);
      }
    }
  }

  lemma SourceLineLength(s: Source)
    ensures |SourceLine(s)| == |s.kind| + 1 + |s.identifier| + 1 + if s.hash.Some? then |s.hash.value| else 0
  {
  }

  lemma EstimateIsByCharacters(policy: Policy, c: Context)
    requires IsPolicy(policy)
    ensures Estimate(policy, c) == Tokens(policy, Characters(c))
  {
    hide Metadata, Tokens, SourceCharacters, IsPolicy;
    MetadataLength(c);
    SourcesLength(c.sources);
  }

  /** A context is within budget exactly when its characters fill no more tokens than are not reserved. */
  lemma FitsIff(policy: Policy, c: Context)
    requires IsPolicy(policy)
    ensures Estimate(policy, c) <= InputBudget(policy) <==>
      Characters(c) <= (policy.maxTokens - policy.reservedResponseTokens) * policy.charsPerToken
  {
    hide Estimate, Tokens, Characters;
    EstimateIsByCharacters(policy, c);
    TokensIsCeiling(policy, Characters(c));
    WithinThreshold(Estimate(policy, c), InputBudget(policy), policy.charsPerToken, Characters(c));
  }

  lemma WithinThreshold(t: int, budget: int, size: int, chars: nat)
    requires budget > 0 && size > 0 && chars <= t * size && (t > 1 ==> chars > (t - 1) * size)
    ensures t <= budget <==> chars <= budget * size
  {
    if t <= budget {
      assert t * size <= budget * size;
    } else {
      assert budget * size <= (t - 1) * size;
    }
  }

  // ---- The removal order ----

  function Priority(policy: Policy, name: string): int {
    if name in policy.priorities then policy.priorities[name] else 0
  }

  predicate PairLeq(a: (int, int), b: (int, int)) {
    a.0 < b.0 || (a.0 == b.0 && a.1 <= b.1)
  }

  /** By priority, then by position. */
  function OrderKey(policy: Policy, sections: seq<Section>): nat -> (int, int) {
    (i: nat) => (if i < |sections| then Priority(policy, sections[i].name) else 0, i)
  }

  function Indices(n: nat): (r: seq<nat>)
    ensures |r| == n && forall i :: 0 <= i < n ==> r[i] == i
  {
    seq(n, i => i)
  }

  /** `_removal_order`, as positions. */
  function RemovalOrder(policy: Policy, sections: seq<Section>): seq<nat> {
    SortBy(PairLeq, OrderKey(policy, sections), Indices(|sections|))
  }

  lemma PairOrder()
    ensures TotalOrder(PairLeq)
  {
  }

  /** The policy gives section `i` a lower number than section `j` (0 where it names none), or the same and `i` is earlier. */
  ghost predicate GoesFirst(policy: Policy, sections: seq<Section>, i: nat, j: nat) {
    && i < |sections| && j < |sections|
    && var a, b := sections[i].name, sections[j].name;
       var p := if a in policy.priorities then policy.priorities[a] else 0;
       var q := if b in policy.priorities then policy.priorities[b] else 0;
       p < q || (p == q && i < j)
  }

  /** Every position once, lower priorities first and earlier positions first among equals. */
  lemma RemovalOrderIsOrdered(policy: Policy, sections: seq<Section>)
    ensures var order := RemovalOrder(policy, sections);
      && NoDuplicates(order) && |order| == |sections| && (forall i: nat :: i in order <==> i < |sections|)
      && forall j, k :: 0 <= j < k < |order| ==> GoesFirst(policy, sections, order[j], order[k])
  {
    hide RemovalOrder, GoesFirst;
    EveryPositionOnce(policy, sections);
    var order := RemovalOrder(policy, sections);
    forall j, k | 0 <= j < k < |order| ensures GoesFirst(policy, sections, order[j], order[k]) {
      LowerGoesFirst(policy, sections, j, k);
    }
  }

  lemma LowerGoesFirst(policy: Policy, sections: seq<Section>, j: nat, k: nat)
    requires j < k < |RemovalOrder(policy, sections)|
    ensures GoesFirst(policy, sections, RemovalOrder(policy, sections)[j], RemovalOrder(policy, sections)[k])
  {
    hide SortBy, TotalOrder, NoDuplicates;
    PairOrder();
    SortByIsSorted(PairLeq, OrderKey(policy, sections), Indices(|sections|));
    EveryPositionOnce(policy, sections);
    var order := RemovalOrder(policy, sections);
    assert order[j] in order && order[k] in order;
    assert order[j] != order[k] by { NoRepeat(order, j, k); }
  }

  lemma NoRepeat(s: seq<nat>, j: nat, k: nat)
    requires NoDuplicates(s) && j < k < |s|
    ensures s[j] != s[k]
  {
  }

  lemma EveryPositionOnce(policy: Policy, sections: seq<Section>)
    ensures var order := RemovalOrder(policy, sections);
      NoDuplicates(order) && |order| == |sections| && (forall i: nat :: i in order <==> i < |sections|)
  {
    hide SortBy, TotalOrder;
    var n := |sections|;
    PairOrder();
    SortByIsSorted(PairLeq, OrderKey(policy, sections), Indices(n));
    SortKeepsListing(PairLeq, OrderKey(policy, sections), Indices(n));
    var order := RemovalOrder(policy, sections);
    forall i: nat ensures i in order <==> i < n {
      assert i in order <==> i in Elements(order);
      assert i in Indices(n) <==> i in Elements(Indices(n));
      assert i < n ==> Indices(n)[i] == i;
    }
    assert |multiset(order)| == |order| && |multiset(Indices(n))| == n;
  }

  // ---- Trimming ----

  datatype RemovedSection = RemovedSection(name: string, estimatedTokens: int, priority: int)

  function RemovedOf(policy: Policy, sections: seq<Section>, i: nat): RemovedSection
    requires IsPolicy(policy) && i < |sections|
  {
    RemovedSection(sections[i].name, Tokens(policy, |sections[i].text|), Priority(policy, sections[i].name))
  }

  /** The sections left after the first `k` removals. */
  function After(policy: Policy, sections: seq<Section>, k: nat): seq<Section>
    requires k <= |RemovalOrder(policy, sections)|
  {
    Kept(sections, Elements(RemovalOrder(policy, sections)[..k]))
  }

  /** The first `k` removals are enough. */
  predicate FitsAfter(policy: Policy, hasher: Hasher, c: Context, sections: seq<Section>, k: nat)
    requires IsPolicy(policy) && k <= |RemovalOrder(policy, sections)|
  {
    Estimate(policy, WithMessage(hasher, c, Joined(After(policy, sections, k)))) <= InputBudget(policy)
  }

  /** `k` removals are the fewest that fit, or all there are. */
  ghost predicate IsLeastCut(policy: Policy, hasher: Hasher, c: Context, sections: seq<Section>, k: nat)
    requires IsPolicy(policy)
  {
    var order := RemovalOrder(policy, sections);
    && k <= |order| && (k == |order| || FitsAfter(policy, hasher, c, sections, k))
    && forall j :: 0 <= j < k ==> !FitsAfter(policy, hasher, c, sections, j)
  }

  ghost predicate IsRemoved(policy: Policy, sections: seq<Section>, removed: seq<RemovedSection>)
    requires IsPolicy(policy)
  {
    var order := RemovalOrder(policy, sections);
    |removed| <= |order| && forall j :: 0 <= j < |removed| ==>
      order[j] < |sections| && removed[j] == RemovedOf(policy, sections, order[j])
  }

  /** The removed sections are those at `cut`, each with its name, size and priority; every other section goes later. */
  ghost predicate RemovedInOrder(policy: Policy, sections: seq<Section>, cut: seq<nat>, removed: seq<RemovedSection>)
    requires IsPolicy(policy)
  {
    && |cut| == |removed| && NoDuplicates(cut)
    && (forall j :: 0 <= j < |cut| ==> cut[j] < |sections| && IsRecordOf(policy, sections[cut[j]], removed[j]))
    && (forall j, k :: 0 <= j < k < |cut| ==> GoesFirst(policy, sections, cut[j], cut[k]))
    && forall j, i: nat :: 0 <= j < |cut| && i < |sections| && i !in cut ==> GoesFirst(policy, sections, cut[j], i)
  }

  ghost predicate IsRecordOf(policy: Policy, x: Section, r: RemovedSection)
    requires IsPolicy(policy)
  {
    && r.name == x.name && r.estimatedTokens == Tokens(policy, |x.text|)
    && r.priority == if x.name in policy.priorities then policy.priorities[x.name] else 0
  }

  lemma TakeHas(s: seq<nat>, n: nat, k: nat)
    requires n <= |s| && k < |s|
    ensures k < n ==> s[k] in s[..n]
  {
    assert k < n ==> s[..n][k] == s[k];
  }

  lemma CutIsInOrder(policy: Policy, sections: seq<Section>, removed: seq<RemovedSection>)
    requires IsPolicy(policy) && IsRemoved(policy, sections, removed)
    ensures RemovedInOrder(policy, sections, RemovalOrder(policy, sections)[..|removed|], removed)
  {
    hide RemovalOrder, GoesFirst, Tokens, IsPolicy;
    RemovalOrderIsOrdered(policy, sections);
    var order := RemovalOrder(policy, sections);
    var cut := order[..|removed|];
    forall j, i: nat | 0 <= j < |cut| && i < |sections| && i !in cut ensures GoesFirst(policy, sections, cut[j], i) {
      assert i in order;
      var k :| 0 <= k < |order| && order[k] == i;
      TakeHas(order, |removed|, k);
    }
  }

  method TrimSections(policy: Policy, hasher: Hasher, c: Context, sections: seq<Section>)
    returns (selected: seq<Section>, removed: seq<RemovedSection>)
    requires IsPolicy(policy) && forall x :: x in sections ==> IsSection(x)
    ensures IsRemoved(policy, sections, removed) && IsLeastCut(policy, hasher, c, sections, |removed|)
    ensures selected == After(policy, sections, |removed|)
  {
    hide SortBy, RemovalOrder, IsSection, Estimate, WithMessage, Joined, Kept, OrderKey, Elements;
    var order := RemovalOrder(policy, sections);
    RemovalOrderIsOrdered(policy, sections);
    selected, removed := sections, [];
    assert Blanked(sections, Elements(order[..0])) == sections by { NoElements(order); }
    var k := 0;
    while k < |order|
      invariant k <= |order| && k == |removed| && IsRemoved(policy, sections, removed)
      invariant selected == Blanked(sections, Elements(order[..k]))
      invariant forall j :: 0 <= j < k ==> !FitsAfter(policy, hasher, c, sections, j)
    {
      JoinBlanked(sections, Elements(order[..k]));
      if Estimate(policy, WithMessage(hasher, c, Joined(selected))) <= InputBudget(policy) {
        break;
      }
      var index := order[k];
      assert index in order;
      OneMoreElement(order, k);
      selected := selected[index := Section("", "")];
      removed := removed + [RemovedOf(policy, sections, index)];
      k := k + 1;
    }
    BlankedIsKept(sections, Elements(order[..k]));
    selected := Present(selected);
  }

  lemma NoElements(s: seq<nat>)
    ensures Elements(s[..0]) == {}
  {
  }

  lemma OneMoreElement(s: seq<nat>, k: nat)
    requires k < |s|
    ensures Elements(s[..k + 1]) == Elements(s[..k]) + {s[k]}
  {
    assert s[..k + 1] == s[..k] + [s[k]];
  }

  lemma JoinBlanked(sections: seq<Section>, gone: set<nat>)
    requires forall x :: x in sections ==> IsSection(x)
    ensures Joined(Blanked(sections, gone)) == Joined(Kept(sections, gone))
  {
    BlankedIsKept(sections, gone);
  }

  // ---- Removing never makes a message longer ----

  function JoinedLength(sections: seq<Section>): int {
    if sections == [] then -1 else JoinedLength(sections[..|sections| - 1]) + 1 + |sections[|sections| - 1].text|
  }

  lemma {:induction false} JoinLinesLength(sections: seq<Section>)
    requires forall x :: x in sections ==> IsSection(x)
    ensures |Texts(sections)| == |sections|
    ensures sections != [] ==> |JoinLines(Texts(sections))| == JoinedLength(sections) && Trimmed(JoinLines(Texts(sections)))
  {
    hide Trimmed, Texts, JoinLines;
    if sections == [] {
      NoTexts();
    } else {
      var n := |sections| - 1;
      var init, last := sections[..n], sections[n];
      SectionHasText(last, sections);
      JoinLinesLength(init);
      assert init + [last] == sections;
      TextsAppend(init, last);
      if n == 0 {
        JoinOne(last.text);
        assert Texts(init) + [last.text] == [last.text];
      } else {
        JoinAppend(Texts(init), last.text);
        JoinTrimmed(JoinLines(Texts(init)), last.text);
      }
    }
  }

  lemma JoinTrimmed(a: string, b: string)
    requires Trimmed(a) && Trimmed(b)
    ensures Trimmed(a + "\n" + b)
  {
  }

  /** The size of a joined message is that of its texts and the line breaks between them. */
  lemma JoinedSize(sections: seq<Section>)
    requires forall x :: x in sections ==> IsSection(x)
    ensures |Joined(sections)| == if sections == [] then 0 else JoinedLength(sections)
  {
    hide Trimmed, IsSection, Strip;
    JoinLinesLength(sections);
    StripTrims(JoinLines(Texts(sections)));
    if sections == [] {
      StripTrims("");
      NoTexts();
      EmptyStrip();
    }
  }

  lemma EmptyStrip()
    ensures Strip("") == ""
  {
  }

  lemma {:induction false} RemovingShortens(sections: seq<Section>, gone: set<nat>, i: nat)
    requires i < |sections|
    ensures JoinedLength(Kept(sections, gone + {i})) <= JoinedLength(Kept(sections, gone))
    ensures Kept(sections, gone) == [] ==> Kept(sections, gone + {i}) == []
    decreases |sections|
  {
    var n := |sections| - 1;
    var init, last := sections[..n], sections[n];
    KeptLength(init, gone, last);
    KeptLength(init, gone + {i}, last);
    if i < n {
      RemovingShortens(init, gone, i);
    } else {
      KeptOnlyLooksBefore(init, gone, i);
    }
  }

  lemma KeptLength(init: seq<Section>, gone: set<nat>, last: Section)
    ensures JoinedLength(Kept(init, gone) + [last]) == JoinedLength(Kept(init, gone)) + 1 + |last.text|
    ensures Kept(init, gone) + [] == Kept(init, gone)
  {
    assert (Kept(init, gone) + [last])[..|Kept(init, gone)|] == Kept(init, gone);
  }

  lemma {:induction false} KeptOnlyLooksBefore(sections: seq<Section>, gone: set<nat>, i: nat)
    requires i >= |sections|
    ensures Kept(sections, gone + {i}) == Kept(sections, gone)
    decreases |sections|
  {
    if sections != [] {
      KeptOnlyLooksBefore(sections[..|sections| - 1], gone, i);
    }
  }

  lemma LongerIsDearer(policy: Policy, hasher: Hasher, c: Context, m: string, m': string)
    requires IsPolicy(policy) && |m| <= |m'|
    ensures Estimate(policy, WithMessage(hasher, c, m)) <= Estimate(policy, WithMessage(hasher, c, m'))
  {
    hide Metadata, Tokens;
    var a, b := WithMessage(hasher, c, m), WithMessage(hasher, c, m');
    SameMetadata(a, b);
    MoreCharsMoreTokens(policy, |a.systemMessage| + |m| + |Metadata(a)|, |b.systemMessage| + |m'| + |Metadata(b)|);
  }

  lemma MoreCharsMoreTokens(policy: Policy, x: nat, y: nat)
    requires IsPolicy(policy) && x <= y
    ensures Tokens(policy, x) <= Tokens(policy, y)
  {
    DivMonotone(x + policy.charsPerToken - 1, y + policy.charsPerToken - 1, policy.charsPerToken);
  }

  lemma DivMonotone(x: nat, y: nat, d: nat)
    requires x <= y && d > 0
    ensures x / d <= y / d
  {
    var m, n := x / d, y / d;
    assert x == d * m + x % d && y == d * n + y % d;
    if n + 1 <= m {
      Scaled(d, n + 1, m);
    }
  }

  lemma Scaled(d: nat, m: nat, n: nat)
    requires m <= n
    ensures d * m <= d * n
  {
  }

  /** Contexts that differ in message and in hashes of one length have metadata of one length. */
  lemma SameMetadata(a: Context, b: Context)
    requires a.(userMessage := b.userMessage, contextHash := b.contextHash) == b && |a.contextHash| == |b.contextHash|
    ensures |Metadata(a)| == |Metadata(b)|
  {
    MetadataLength(a);
    MetadataLength(b);
  }

  lemma MetadataLength(c: Context)
    ensures |Metadata(c)| == |c.promptName| + |c.promptVersion| + |c.promptHash| + |c.projectContextHash|
                             + |c.contextHash| + |JoinLines(Map(SourceLine, c.sources))| + 5
  {
    hide JoinLines;
    var src := JoinLines(Map(SourceLine, c.sources));
    var name := [c.promptName];
    JoinOne(c.promptName);
    JoinAppend(name, c.promptVersion);
    JoinAppend(name + [c.promptVersion], c.promptHash);
    JoinAppend(name + [c.promptVersion] + [c.promptHash], c.projectContextHash);
    JoinAppend(name + [c.promptVersion] + [c.promptHash] + [c.projectContextHash], c.contextHash);
    JoinAppend(name + [c.promptVersion] + [c.promptHash] + [c.projectContextHash] + [c.contextHash], src);
    assert name + [c.promptVersion] + [c.promptHash] + [c.projectContextHash] + [c.contextHash] + [src] ==
      [c.promptName, c.promptVersion, c.promptHash, c.projectContextHash, c.contextHash, src];
  }

  lemma JoinOne(x: string)
    ensures JoinLines([x]) == x
  {
  }

  lemma JoinAppend(lines: seq<string>, x: string)
    requires lines != []
    ensures JoinLines(lines + [x]) == JoinLines(lines) + "\n" + x
  {
    assert (lines + [x])[..|lines|] == lines;
  }

  /** Once a cut fits, every further removal fits too: the least cut is the threshold. */
  lemma {:induction false} FurtherCutsFit(policy: Policy, hasher: Hasher, c: Context, sections: seq<Section>, j: nat, k: nat)
    requires IsPolicy(policy) && j <= k <= |RemovalOrder(policy, sections)|
    requires forall x :: x in sections ==> IsSection(x)
    requires FitsAfter(policy, hasher, c, sections, j)
    ensures FitsAfter(policy, hasher, c, sections, k)
    decreases k - j
  {
    if j < k {
      hide RemovalOrder, Joined, Estimate, WithMessage, IsSection, Kept, JoinedLength, Elements;
      var order := RemovalOrder(policy, sections);
      RemovalOrderIsOrdered(policy, sections);
      assert order[j] in order;
      OneMoreElement(order, j);
      RemovingShortens(sections, Elements(order[..j]), order[j]);
      KeptAreSections(sections, Elements(order[..j]));
      KeptAreSections(sections, Elements(order[..j + 1]));
      JoinedSize(After(policy, sections, j));
      JoinedSize(After(policy, sections, j + 1));
      LengthOfNone();
      LongerIsDearer(policy, hasher, c, Joined(After(policy, sections, j + 1)), Joined(After(policy, sections, j)));
      FurtherCutsFit(policy, hasher, c, sections, j + 1, k);
    }
  }

  lemma LengthOfNone()
    ensures JoinedLength([]) == -1
  {
  }

  // ---- Applying the budget ----

  datatype Outcome = Within(context: Context, tokens: int)
    | Cut(context: Context, tokens: int, removed: seq<RemovedSection>)
    | BaseTooLarge
    | ContextTooLarge

  /** The request without its message, and the least that trimming can leave. */
  function BaseEstimate(policy: Policy, c: Context): int
    requires IsPolicy(policy)
  {
    Estimate(policy, c.(userMessage := ""))
  }

  function EmptyEstimate(policy: Policy, hasher: Hasher, c: Context): int
    requires IsPolicy(policy)
  {
    Estimate(policy, WithMessage(hasher, c, ""))
  }

  /** Trimming is tried, but even the empty message does not fit. */
  predicate RefusedAgain(policy: Policy, hasher: Hasher, c: Context) {
    && IsPolicy(policy) && Estimate(policy, c) > InputBudget(policy) && BaseEstimate(policy, c) <= InputBudget(policy)
    && EmptyEstimate(policy, hasher, c) > InputBudget(policy)
  }

  lemma {:induction false} KeptNone(sections: seq<Section>, gone: set<nat>)
    requires forall i :: 0 <= i < |sections| ==> i in gone
    ensures Kept(sections, gone) == []
  {
    if sections != [] {
      KeptNone(sections[..|sections| - 1], gone);
    }
  }

  /** Removing every section leaves the empty message. */
  lemma AllRemoved(policy: Policy, sections: seq<Section>)
    ensures Joined(After(policy, sections, |RemovalOrder(policy, sections)|)) == ""
  {
    hide RemovalOrder;
    var order := RemovalOrder(policy, sections);
    RemovalOrderIsOrdered(policy, sections);
    assert order[..|order|] == order;
    forall i | 0 <= i < |sections| ensures i in Elements(order) {
      assert i in order;
    }
    KeptNone(sections, Elements(order));
    assert JoinLines(Texts([])) == "";
    EmptyStrip();
  }

  /** If even the empty message does not fit, no cut does; if it fits, some cut does. */
  lemma CutFitsIffEmptyDoes(policy: Policy, hasher: Hasher, c: Context, sections: seq<Section>, k: nat)
    requires IsPolicy(policy) && IsLeastCut(policy, hasher, c, sections, k)
    ensures FitsAfter(policy, hasher, c, sections, k) <==> EmptyEstimate(policy, hasher, c) <= InputBudget(policy)
  {
    hide RemovalOrder, Joined, Estimate, WithMessage, After;
    AllRemoved(policy, sections);
    LongerIsDearer(policy, hasher, c, "", Joined(After(policy, sections, k)));
  }

  /**
   * A context within budget is returned as it is. Otherwise the fewest sections that make it fit are removed in
   * removal order, or the request is refused: for its base, or because even the empty message does not fit.
   */
  method Apply(policy: Policy, hasher: Hasher, c: Context) returns (r: Outcome, ghost sections: seq<Section>)
    requires IsPolicy(policy)
    ensures exists groups :: IsGrouping(SplitLines(c.userMessage, []), groups) && sections == NonBlank(groups)
    ensures r.Within? <==> Estimate(policy, c) <= InputBudget(policy)
    ensures r.Within? ==> r.context == c && r.tokens == Estimate(policy, c)
    ensures r.BaseTooLarge? <==>
      Estimate(policy, c) > InputBudget(policy) && BaseEstimate(policy, c) > InputBudget(policy)
    ensures r.ContextTooLarge? <==> RefusedAgain(policy, hasher, c)
    ensures r.Cut? ==>
      && IsLeastCut(policy, hasher, c, sections, |r.removed|)
      && r.context == WithMessage(hasher, c, Joined(After(policy, sections, |r.removed|)))
      && r.tokens == Estimate(policy, r.context) <= InputBudget(policy)
    ensures r.Cut? ==>
      var m := r.context.userMessage;
      && r.context == c.(userMessage := m, contextHash := hasher(c.(userMessage := m, contextHash := "")))
      && exists cut ::
           RemovedInOrder(policy, sections, cut, r.removed) && m == Joined(Kept(sections, Elements(cut)))
  {
    hide Estimate, Joined, NonBlank, IsGrouping, RemovalOrder, IsSection, SplitLines, RemovedInOrder, Kept, Elements;
    var split := SplitUserMessage(c.userMessage);
    ghost var groups :| IsGrouping(SplitLines(c.userMessage, []), groups) && split == NonBlank(groups);
    sections := split;
    var originalTokens := Estimate(policy, c);
    if originalTokens <= InputBudget(policy) {
      return Within(c, originalTokens), sections;
    }
    var baseContext := c.(userMessage := "");
    if Estimate(policy, baseContext) > InputBudget(policy) {
      return BaseTooLarge, sections;
    }
    GroupingSections(SplitLines(c.userMessage, []), groups);
    var selected, removed := TrimSections(policy, hasher, c, split);
    var trimmed := WithMessage(hasher, c, Joined(selected));
    var finalTokens := Estimate(policy, trimmed);
    CutFitsIffEmptyDoes(policy, hasher, c, split, |removed|);
    if finalTokens > InputBudget(policy) {
      return ContextTooLarge, sections;
    }
    CutIsInOrder(policy, split, removed);
    assert trimmed.userMessage == Joined(Kept(split, Elements(RemovalOrder(policy, split)[..|removed|])));
    return Cut(trimmed, finalTokens, removed), sections;
  }

  lemma GroupingSections(lines: seq<string>, groups: seq<Group>)
    requires IsGrouping(lines, groups)
    ensures forall x :: x in NonBlank(groups) ==> IsSection(x)
  {
    hide IsGroup, IsSection;
    SplitGivesSections(groups);
  }

  /** With a context hash of 64 characters or more, trimming everything is never dearer than the base. */
  lemma LongHashIsNotDearer(policy: Policy, hasher: Hasher, c: Context)
    requires IsPolicy(policy) && |c.contextHash| >= 64
    ensures EmptyEstimate(policy, hasher, c) <= BaseEstimate(policy, c)
    ensures |c.contextHash| == 64 ==> EmptyEstimate(policy, hasher, c) == BaseEstimate(policy, c)
  {
    hide Metadata, Tokens, IsPolicy, JoinLines, Map;
    var base, empty := c.(userMessage := ""), WithMessage(hasher, c, "");
    MetadataLength(base);
    MetadataLength(empty);
    MoreCharsMoreTokens(policy, |empty.systemMessage| + |Metadata(empty)|, |base.systemMessage| + |Metadata(base)|);
  }

  /** Some policy refuses the context a second time exactly when it has a message and a hash that is too short. */
  lemma SecondRefusalIff(hasher: Hasher, c: Context)
    ensures (exists policy :: RefusedAgain(policy, hasher, c)) <==> |c.contextHash| < 64 && c.userMessage != ""
  {
    hide Metadata;
    assert c.userMessage == "" ==> c.(userMessage := "") == c;
    forall policy | RefusedAgain(policy, hasher, c) ensures |c.contextHash| < 64 && c.userMessage != "" {
      if |c.contextHash| >= 64 {
        LongHashIsNotDearer(policy, hasher, c);
      }
    }
    if |c.contextHash| < 64 && c.userMessage != "" {
      var base, empty := c.(userMessage := ""), WithMessage(hasher, c, "");
      MetadataLength(c);
      MetadataLength(base);
      MetadataLength(empty);
      assert RefusedAgain(Policy(|c.systemMessage| + |Metadata(base)|, 0, 1, map[]), hasher, c);
    }
  }

  /** A caller's one-character hash makes it happen: the base fits, and the recomputed hash alone overflows. */
  lemma ShortHashIsRefused(hasher: Hasher)
    ensures RefusedAgain(Policy(6, 0, 1, map[]), hasher, Context("", "ab", [], "", "", "", "", "h"))
  {
    hide Metadata;
    var c := Context("", "ab", [], "", "", "", "", "h");
    MetadataLength(c);
    MetadataLength(c.(userMessage := ""));
    MetadataLength(WithMessage(hasher, c, ""));
    assert Map(SourceLine, c.sources) == [] && JoinLines([]) == "";
  }
}
