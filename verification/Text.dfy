/** White space as `str.strip` sees it. */
module Text {

  predicate IsSpace(c: char) {
    || '\t' <= c <= '\r' || '\U{1c}' <= c <= ' ' || c in {'\U{85}', '\U{a0}', '\U{1680}'} || '\U{2000}' <= c <= '\U{200a}'
    || c in {'\U{2028}', '\U{2029}', '\U{202f}', '\U{205f}', '\U{3000}'}
  }

  function StripLeft(s: string): string {
    if s != [] && IsSpace(s[0]) then StripLeft(s[1..]) else s
  }

  function StripRight(s: string): string {
    if s != [] && IsSpace(s[|s| - 1]) then StripRight(s[..|s| - 1]) else s
  }

  function Strip(s: string): string {
    StripRight(StripLeft(s))
  }

  lemma {:induction false} StripShortens(s: string)
    ensures |StripLeft(s)| <= |s| && (|StripLeft(s)| == |s| ==> StripLeft(s) == s)
    ensures |StripRight(s)| <= |s| && (|StripRight(s)| == |s| ==> StripRight(s) == s)
  {
    if s != [] {
      StripShortens(s[1..]);
      StripShortens(s[..|s| - 1]);
    }
  }

  /** What is left begins and ends with something other than white space. */
  lemma {:induction false} StripLeftEnds(s: string)
    ensures StripLeft(s) != [] ==> !IsSpace(StripLeft(s)[0])
  {
    if s != [] && IsSpace(s[0]) {
      StripLeftEnds(s[1..]);
    }
  }

  lemma {:induction false} StripRightEnds(s: string)
    ensures StripRight(s) <= s && (StripRight(s) != [] ==> !IsSpace(StripRight(s)[|StripRight(s)| - 1]))
  {
    if s != [] && IsSpace(s[|s| - 1]) {
      StripRightEnds(s[..|s| - 1]);
    }
  }

  predicate Trimmed(s: string) {
    s != [] && !IsSpace(s[0]) && !IsSpace(s[|s| - 1])
  }

  lemma StripTrims(s: string)
    ensures Strip(s) == [] || Trimmed(Strip(s))
    ensures Trimmed(s) ==> Strip(s) == s
  {
    StripLeftEnds(s);
    StripRightEnds(StripLeft(s));
  }

  lemma {:induction false} StripLeftDrops(s: string)
    ensures var n := |s| - |StripLeft(s)|; n >= 0 && StripLeft(s) == s[n..] && forall i :: 0 <= i < n ==> IsSpace(s[i])
  {
    if s != [] && IsSpace(s[0]) {
      StripLeftDrops(s[1..]);
      assert forall i :: 0 < i < |s| ==> s[i] == s[1..][i - 1];
    }
  }

  lemma {:induction false} StripRightDrops(s: string)
    ensures var n := |StripRight(s)|; n <= |s| && StripRight(s) == s[..n] && forall i :: n <= i < |s| ==> IsSpace(s[i])
  {
    if s != [] && IsSpace(s[|s| - 1]) {
      StripRightDrops(s[..|s| - 1]);
    }
  }

  /** Only white space is stripped, and only at the ends. */
  lemma StripDropsSpace(s: string) returns (left: string, right: string)
    ensures s == left + Strip(s) + right
    ensures forall i :: 0 <= i < |left| ==> IsSpace(left[i])
    ensures forall i :: 0 <= i < |right| ==> IsSpace(right[i])
  {
    StripLeftDrops(s);
    StripRightDrops(StripLeft(s));
    left, right := s[..|s| - |StripLeft(s)|], StripLeft(s)[|Strip(s)|..];
  }
}
