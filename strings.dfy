/**
  The three string operations the prompt engine relies on: whitespace trimming
  (both ends), removal of trailing newlines, and lower-casing. Whitespace is
  the set of code points that Go's `unicode.IsSpace` accepts; lower-casing is
  modelled for ASCII letters only.
 */
module Strings {

  /** Code points treated as white space when a line is trimmed. */
  predicate IsSpace(c: char) {
    c == ' ' || ('\t' <= c <= '\r') || c == '\U{85}' || c == '\U{A0}' ||
    c == '\U{1680}' || ('\U{2000}' <= c <= '\U{200A}') || c == '\U{2028}' ||
    c == '\U{2029}' || c == '\U{202F}' || c == '\U{205F}' || c == '\U{3000}'
  }

  predicate AllSpace(s: string) {
    forall i :: 0 <= i < |s| ==> IsSpace(s[i])
  }

  /** Neither end of `s` is white space (vacuously true of the empty string). */
  predicate Trimmed(s: string) {
    s == [] || (!IsSpace(s[0]) && !IsSpace(s[|s| - 1]))
  }

  /** Drops the leading white space of `s`. */
  function TrimLeftSpace(s: string): (r: string)
    ensures |r| <= |s| && r == s[|s| - |r|..]
    ensures AllSpace(s[..|s| - |r|])
    ensures r == [] || !IsSpace(r[0])
  {
    if s != [] && IsSpace(s[0]) then
      var r := TrimLeftSpace(s[1..]);
      assert s[..|s| - |r|] == [s[0]] + s[1..][..|s| - 1 - |r|];
      assert s[1..][|s| - 1 - |r|..] == s[|s| - |r|..];
      r
    else s
  }

  /** Drops the trailing white space of `s`. */
  function TrimRightSpace(s: string): (r: string)
    ensures |r| <= |s| && r == s[..|r|]
    ensures AllSpace(s[|r|..])
    ensures r == [] || !IsSpace(r[|r| - 1])
  {
    if s != [] && IsSpace(s[|s| - 1]) then
      var r := TrimRightSpace(s[..|s| - 1]);
      assert s[|r|..] == s[..|s| - 1][|r|..] + [s[|s| - 1]];
      assert s[..|s| - 1][..|r|] == s[..|r|];
      r
    else s
  }

  /** `strings.TrimSpace`: the longest factor of `s` whose ends are not white space. */
  function TrimSpace(s: string): (r: string)
    ensures |r| <= |s|
    ensures Trimmed(r)
    ensures r == [] <==> AllSpace(s)
  {
    var l := TrimLeftSpace(s);
    var r := TrimRightSpace(l);
    assert l != [] ==> l[0] == s[|s| - |l|];
    assert r == [] ==> AllSpace(s) by {
      if r == [] {
        assert s == s[..|s| - |l|] + l;
        assert l == l[|r|..];
      }
    }
    r
  }

  /**
    An independent description of trimming: any split of `s` into white
    space, a factor with non-space ends, and white space determines the
    outcome of `TrimSpace`.
   */
  lemma TrimSpaceIsFactor(s: string, a: nat, b: nat)
    requires a <= b <= |s|
    requires AllSpace(s[..a]) && AllSpace(s[b..])
    requires Trimmed(s[a..b])
    ensures TrimSpace(s) == s[a..b]
  {
    if a == b {
      LeftSplit(s, a, b);
      assert s[a..b] == [];
    } else {
      assert !IsSpace(s[a]) by { assert s[a..b][0] == s[a]; }
      LeftSplit(s, a, b);
      FactorRight(s, a, b);
    }
  }

  /** The right-hand half of `TrimSpaceIsFactor`, once the leading blanks are gone. */
  lemma FactorRight(s: string, a: nat, b: nat)
    requires a < b <= |s|
    requires AllSpace(s[b..])
    requires Trimmed(s[a..b])
    ensures TrimRightSpace(s[a..]) == s[a..b]
  {
    assert !IsSpace(s[b - 1]) by { assert s[a..b][b - a - 1] == s[b - 1]; }
    var l := s[a..];
    assert l[b - a..] == s[b..];
    assert l[b - a - 1] == s[b - 1];
    RightSplit(l, b - a);
    assert l[..b - a] == s[a..b];
  }

  lemma {:induction false} LeftSplit(s: string, a: nat, b: nat)
    requires a <= b <= |s|
    requires AllSpace(s[..a])
    requires a == b ==> AllSpace(s[b..])
    requires a < b ==> !IsSpace(s[a])
    ensures TrimLeftSpace(s) == (if a < b then s[a..] else [])
    decreases |s|
  {
    if a > 0 {
      assert s[..a][0] == s[0];
      assert s[1..][..a - 1] == s[..a][1..];
      assert s[1..][b - 1..] == s[b..];
      LeftSplit(s[1..], a - 1, b - 1);
      assert s[1..][a - 1..] == s[a..];
    } else if b == 0 && s != [] {
      assert s[b..] == s;
      assert AllSpace(s[1..]) by {
        forall i | 0 <= i < |s[1..]| ensures IsSpace(s[1..][i]) {
          assert s[1..][i] == s[i + 1];
        }
      }
      LeftSplit(s[1..], 0, 0);
    }
  }

  lemma {:induction false} RightSplit(s: string, b: nat)
    requires b <= |s|
    requires AllSpace(s[b..])
    requires b > 0 ==> !IsSpace(s[b - 1])
    ensures TrimRightSpace(s) == s[..b]
    decreases |s|
  {
    if b < |s| {
      assert s[b..][|s| - 1 - b] == s[|s| - 1];
      var t := s[..|s| - 1];
      assert t[b..] == s[b..][..|s| - 1 - b];
      RightSplit(t, b);
      assert t[..b] == s[..b];
    }
  }

  /** Trimming twice is trimming once. */
  lemma TrimSpaceIdempotent(s: string)
    ensures TrimSpace(TrimSpace(s)) == TrimSpace(s)
  {
    var t := TrimSpace(s);
    assert t[..0] == [] && t[|t|..] == [] && t[0..|t|] == t;
    TrimSpaceIsFactor(t, 0, |t|);
  }

  /** `strings.TrimRight(s, "\n")`: drops every trailing newline character. */
  function TrimRightNewlines(s: string): (r: string)
    ensures |r| <= |s| && r == s[..|r|]
    ensures forall i :: |r| <= i < |s| ==> s[i] == '\n'
    ensures r == [] || r[|r| - 1] != '\n'
  {
    if s != [] && s[|s| - 1] == '\n' then TrimRightNewlines(s[..|s| - 1]) else s
  }

  /** Lower-cases an ASCII upper-case letter and leaves every other character alone. */
  function LowerChar(c: char): (d: char)
    ensures 'A' <= c <= 'Z' ==> 'a' <= d <= 'z' && d as int - c as int == 32
    ensures !('A' <= c <= 'Z') ==> d == c
  {
    if 'A' <= c <= 'Z' then (c as int + 32) as char else c
  }

  /** `strings.ToLower`, restricted to ASCII case mapping. */
  function ToLower(s: string): (r: string)
    ensures |r| == |s|
    ensures forall i :: 0 <= i < |s| ==> r[i] == LowerChar(s[i])
  {
    seq(|s|, i requires 0 <= i < |s| => LowerChar(s[i]))
  }

  /** Lower-casing is idempotent and leaves no ASCII upper-case letter behind. */
  lemma ToLowerIdempotent(s: string)
    ensures ToLower(ToLower(s)) == ToLower(s)
    ensures forall i :: 0 <= i < |s| ==> !('A' <= ToLower(s)[i] <= 'Z')
  {
  }
}
