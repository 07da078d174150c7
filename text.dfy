/** The string operations the status parser and the legend use:
    Python's `str.strip()`, `str.startswith`, `str.replace` and
    `str.split('/')[-1]`, on `string` = `seq<char>`. */
module Text {

  /** The characters Python's `str.isspace()` accepts, which is what
      `str.strip()` with no argument removes. */
  predicate IsSpace(c: char) {
    c in {' ', '\t', '\n', '\r', '\U{000B}', '\U{000C}',
          '\U{001C}', '\U{001D}', '\U{001E}', '\U{001F}', '\U{0085}', '\U{00A0}',
          '\U{1680}', '\U{2000}', '\U{2001}', '\U{2002}', '\U{2003}', '\U{2004}',
          '\U{2005}', '\U{2006}', '\U{2007}', '\U{2008}', '\U{2009}', '\U{200A}',
          '\U{2028}', '\U{2029}', '\U{202F}', '\U{205F}', '\U{3000}'}
  }

  /** `s` without its leading whitespace: a suffix of `s`, everything cut
      off is whitespace, and what remains does not start with whitespace. */
  function StripLeft(s: string): (r: string)
    ensures |r| <= |s| && r == s[|s| - |r|..]
    ensures forall i :: 0 <= i < |s| - |r| ==> IsSpace(s[i])
    ensures |r| > 0 ==> !IsSpace(r[0])
  {
    if |s| > 0 && IsSpace(s[0]) then
      var t := StripLeft(s[1..]);
      StripLeftStep(s, t);
      t
    else s
  }

  /** Stripping a leading space and then the rest of the leading
      whitespace strips the leading whitespace of the whole. */
  lemma StripLeftStep(s: string, t: string)
    requires |s| > 0 && IsSpace(s[0])
    requires |t| <= |s| - 1 && t == s[1..][|s| - 1 - |t|..]
    requires forall i :: 0 <= i < |s| - 1 - |t| ==> IsSpace(s[1..][i])
    ensures t == s[|s| - |t|..]
    ensures forall i :: 0 <= i < |s| - |t| ==> IsSpace(s[i])
  {
    forall i | 0 < i < |s| - |t| ensures IsSpace(s[i]) {
      assert s[i] == s[1..][i - 1];
    }
  }

  /** `s` without its trailing whitespace: a prefix of `s`, everything cut
      off is whitespace, and what remains does not end with whitespace. */
  function StripRight(s: string): (r: string)
    ensures |r| <= |s| && r == s[..|r|]
    ensures forall i :: |r| <= i < |s| ==> IsSpace(s[i])
    ensures |r| > 0 ==> !IsSpace(r[|r| - 1])
  {
    if |s| > 0 && IsSpace(s[|s| - 1]) then StripRight(s[..|s| - 1]) else s
  }

  /** Python's `s.strip()`. */
  function Strip(s: string): (r: string)
    ensures |r| <= |s|
    ensures |r| > 0 ==> !IsSpace(r[0]) && !IsSpace(r[|r| - 1])
  {
    StripRight(StripLeft(s))
  }

  /** `r` is the slice of `s` starting at `i`, and everything in `s`
      before and after that slice is whitespace. */
  predicate TrimmedSlice(s: string, i: int, r: string) {
    0 <= i && i + |r| <= |s| && r == s[i..i + |r|] &&
    (forall k :: 0 <= k < i ==> IsSpace(s[k])) &&
    (forall k :: i + |r| <= k < |s| ==> IsSpace(s[k]))
  }

  /** The stripped line is the slice of the line that starts after its
      leading whitespace and ends before its trailing whitespace. */
  lemma {:induction false} StripIsSlice(s: string)
    ensures TrimmedSlice(s, |s| - |StripLeft(s)|, Strip(s))
  {
    var l := StripLeft(s);
    var r := StripRight(l);
    StripSlice(s, l, r);
    assert TrimmedSlice(s, |s| - |l|, r);
  }

  /** Cutting a prefix of whitespace and then a suffix of whitespace leaves
      a slice of the original with whitespace on both sides of it. */
  lemma {:induction false} StripSlice(s: string, l: string, r: string)
    requires |l| <= |s| && l == s[|s| - |l|..] && forall k :: 0 <= k < |s| - |l| ==> IsSpace(s[k])
    requires |r| <= |l| && r == l[..|r|] && forall k :: |r| <= k < |l| ==> IsSpace(l[k])
    ensures TrimmedSlice(s, |s| - |l|, r)
  {
    var i := |s| - |l|;
    forall k | i + |r| <= k < |s| ensures IsSpace(s[k]) {
      assert s[k] == l[k - i];
    }
  }

  /** Python's `s.startswith("{")`. */
  predicate StartsWithBrace(s: string) {
    |s| > 0 && s[0] == '{'
  }

  /** The stripped line starts with `{` exactly when the first character of
      the raw line that is not whitespace is `{`. */
  lemma StrippedStartsWithBraceIff(s: string)
    ensures StartsWithBrace(Strip(s)) <==>
            exists i :: 0 <= i < |s| && s[i] == '{' && forall j :: 0 <= j < i ==> IsSpace(s[j])
  {
    var l := StripLeft(s);
    var k := |s| - |l|;
    if StartsWithBrace(Strip(s)) {
      var r := StripRight(l);
      assert r[0] == l[0] == s[k];
    }
    if exists i :: 0 <= i < |s| && s[i] == '{' && forall j :: 0 <= j < i ==> IsSpace(s[j]) {
      var i :| 0 <= i < |s| && s[i] == '{' && forall j :: 0 <= j < i ==> IsSpace(s[j]);
      assert !IsSpace(s[i]);
      assert k <= i;
      assert k < |s| ==> l[0] == s[k];
      assert k == i;
      var r := StripRight(l);
      assert |r| > 0 && r[0] == '{';
    }
  }

  /** `p` occurs in `s` starting at index `i`. */
  predicate OccursAt(s: string, p: string, i: nat) {
    i + |p| <= |s| && s[i..i + |p|] == p
  }

  /** Python's `p in s`. */
  predicate Contains(s: string, p: string) {
    exists i: nat | i <= |s| :: OccursAt(s, p, i)
  }

  /** Python's `s.replace(pat, rep)` for a non-empty `pat`: scan from the
      left, and replace each occurrence of `pat` that does not overlap an
      earlier replaced one. */
  function ReplaceAll(s: string, pat: string, rep: string): (r: string)
    requires |pat| > 0
    ensures |rep| <= |pat| ==> |r| <= |s|
    decreases |s|
  {
    if |s| < |pat| then s
    else if s[..|pat|] == pat then rep + ReplaceAll(s[|pat|..], pat, rep)
    else [s[0]] + ReplaceAll(s[1..], pat, rep)
  }

  /** With a strictly shorter replacement, `replace` leaves a string
      unchanged exactly when the pattern does not occur in it. */
  lemma {:induction false} ReplaceAllIdentityIff(s: string, pat: string, rep: string)
    requires 0 <= |rep| < |pat|
    ensures ReplaceAll(s, pat, rep) == s <==> !Contains(s, pat)
    decreases |s|
  {
    if |s| < |pat| {
      forall i: nat ensures !OccursAt(s, pat, i) { }
    } else if s[..|pat|] == pat {
      assert OccursAt(s, pat, 0);
      assert |ReplaceAll(s, pat, rep)| < |s|;
    } else {
      var t := s[1..];
      ReplaceAllIdentityIff(t, pat, rep);
      ContainsPastFirst(s, pat);
      var r := ReplaceAll(t, pat, rep);
      assert ReplaceAll(s, pat, rep) == [s[0]] + r;
      assert s == [s[0]] + t;
      assert ([s[0]] + r)[1..] == r;
    }
  }

  /** When the pattern does not occur at the start of `s`, it occurs in `s`
      exactly when it occurs in `s` without its first character. */
  lemma ContainsPastFirst(s: string, pat: string)
    requires |pat| > 0 && |s| >= |pat| && s[..|pat|] != pat
    ensures Contains(s, pat) <==> Contains(s[1..], pat)
  {
    var t := s[1..];
    if Contains(s, pat) {
      var i: nat :| i <= |s| && OccursAt(s, pat, i);
      assert i != 0;
      assert t[i - 1..i - 1 + |pat|] == s[i..i + |pat|];
      assert OccursAt(t, pat, i - 1);
    }
    if Contains(t, pat) {
      var i: nat :| i <= |t| && OccursAt(t, pat, i);
      assert s[i + 1..i + 1 + |pat|] == t[i..i + |pat|];
      assert OccursAt(s, pat, i + 1);
    }
  }

  /** Python's `s.split('/')[-1]`: the text after the last `/`, or all of
      `s` when it has none. */
  function LastSegment(s: string): (r: string)
  {
    if |s| == 0 then ""
    else if s[|s| - 1] == '/' then ""
    else LastSegment(s[..|s| - 1]) + [s[|s| - 1]]
  }

  /** The last segment is a suffix of `s` that is either all of `s` or
      preceded by a `/`. */
  lemma {:induction false} LastSegmentIsSuffix(s: string)
    ensures |LastSegment(s)| <= |s| && LastSegment(s) == s[|s| - |LastSegment(s)|..]
    ensures |LastSegment(s)| < |s| ==> s[|s| - |LastSegment(s)| - 1] == '/'
  {
    if |s| > 0 && s[|s| - 1] != '/' {
      var t := s[..|s| - 1];
      LastSegmentIsSuffix(t);
      var r := LastSegment(t);
      var c := s[|s| - 1];
      assert LastSegment(s) == r + [c];
      assert r == t[|t| - |r|..];
      assert s == t + [c];
      assert s[|s| - |r| - 1..] == t[|t| - |r|..] + [c];
      if |r| < |t| {
        assert s[|s| - |r| - 2] == t[|t| - |r| - 1];
      }
    }
  }

  /** The last segment holds no `/`. */
  lemma {:induction false} LastSegmentHasNoSlash(s: string)
    ensures '/' !in LastSegment(s)
  {
    if |s| > 0 && s[|s| - 1] != '/' {
      var t := s[..|s| - 1];
      LastSegmentHasNoSlash(t);
      assert LastSegment(s) == LastSegment(t) + [s[|s| - 1]];
    }
  }

  /** A string is its own last segment exactly when it holds no `/`. */
  lemma {:induction false} LastSegmentIdentityIff(s: string)
    ensures LastSegment(s) == s <==> '/' !in s
  {
    LastSegmentHasNoSlash(s);
    if '/' !in s && |s| > 0 {
      var t := s[..|s| - 1];
      assert s == t + [s[|s| - 1]];
      assert '/' !in t by {
        forall i | 0 <= i < |t| ensures t[i] != '/' {
          assert t[i] == s[i];
        }
      }
      LastSegmentIdentityIff(t);
    }
  }

  /** Whatever precedes a `/` never shows in the last segment. */
  lemma {:induction false} LastSegmentAfterSlash(a: string, b: string)
    ensures LastSegment(a + "/" + b) == LastSegment(b)
    decreases |b|
  {
    var s := a + "/" + b;
    if |b| == 0 {
      assert s[|s| - 1] == '/';
    } else {
      assert s[|s| - 1] == b[|b| - 1];
      assert s[..|s| - 1] == a + "/" + b[..|b| - 1];
      LastSegmentAfterSlash(a, b[..|b| - 1]);
    }
  }
}
