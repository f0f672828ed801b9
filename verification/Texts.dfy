/** String operations shared by the text formats: searching, trimming, comparing without case. */
module Texts {
  const CRLF := "\r\n"

  predicate Occurs(s: string, pat: string, k: nat) {
    k + |pat| <= |s| && s[k..k + |pat|] == pat
  }

  /** `s.find(pat)`; -1 stands for npos. */
  function Find(s: string, pat: string): (k: int)
    ensures -1 <= k && (k >= 0 ==> k + |pat| <= |s|)
  {
    if |s| < |pat| then -1
    else if s[..|pat|] == pat then 0
    else
      var k := Find(s[1..], pat);
      if k < 0 then -1 else k + 1
  }

  lemma OccursDrop(s: string, pat: string, d: nat, j: nat)
    requires d <= |s|
    ensures Occurs(s[d..], pat, j) <==> Occurs(s, pat, d + j)
  {
    if d + j + |pat| <= |s| {
      assert s[d..][j..j + |pat|] == s[d + j..d + j + |pat|];
    }
  }

  /** The result is an occurrence, and there is none before it; -1 only without any. */
  lemma {:induction false} FindFirst(s: string, pat: string)
    ensures Find(s, pat) >= 0 ==> Occurs(s, pat, Find(s, pat))
    ensures forall j: nat :: j < (if Find(s, pat) >= 0 then Find(s, pat) else |s| + 1) ==> !Occurs(s, pat, j)
  {
    if |s| >= |pat| && s[..|pat|] != pat {
      hide Occurs;
      NotAtFront(s, pat);
      FindFirst(s[1..], pat);
      var k := Find(s[1..], pat);
      if k >= 0 {
        OccursDrop(s, pat, 1, k);
      }
      forall j: nat | j < (if k >= 0 then k + 1 else |s| + 1) ensures !Occurs(s, pat, j) {
        if j > 0 {
          OccursDrop(s, pat, 1, j - 1);
        }
      }
    }
  }

  lemma NotAtFront(s: string, pat: string)
    requires |s| >= |pat| && s[..|pat|] != pat
    ensures !Occurs(s, pat, 0)
  {
  }

  lemma FindIs(s: string, pat: string, k: nat)
    requires Occurs(s, pat, k) && forall j: nat :: j < k ==> !Occurs(s, pat, j)
    ensures Find(s, pat) == k
  {
    FindFirst(s, pat);
  }

  /** A text without the pattern, then a pattern whose first character comes only once: found behind the text. */
  lemma FindBehind(s: string, pat: string, t: string)
    requires |pat| > 0 && (forall m :: 1 <= m < |pat| ==> pat[m] != pat[0]) && Find(s, pat) < 0
    ensures Find(s + pat + t, pat) == |s|
  {
    var u := s + pat + t;
    FindFirst(s, pat);
    forall j: nat | j < |s| ensures !Occurs(u, pat, j) {
      assert !Occurs(s, pat, j);
      if j + |pat| <= |s| {
        assert u[j..j + |pat|] == s[j..j + |pat|];
      } else if j + |pat| <= |u| {
        assert u[j..j + |pat|][|s| - j] == pat[0] != pat[|s| - j];
      }
    }
    assert Occurs(u, pat, |s|);
    FindIs(u, pat, |s|);
  }

  /** Dropping text in front of the first occurrence moves it by so much. */
  lemma FindAfterDrop(s: string, pat: string, d: nat)
    requires d <= Find(s, pat)
    ensures Find(s[d..], pat) == Find(s, pat) - d
  {
    hide Occurs;
    var k := Find(s, pat);
    FindFirst(s, pat);
    forall j: nat | j < k - d ensures !Occurs(s[d..], pat, j) {
      OccursDrop(s, pat, d, j);
    }
    OccursDrop(s, pat, d, k - d);
    FindIs(s[d..], pat, k - d);
  }

  /** An occurrence of a longer pattern is one of its beginning. */
  lemma FindPrefix(s: string, pat: string, more: string)
    requires Find(s, pat + more) >= 0
    ensures 0 <= Find(s, pat) <= Find(s, pat + more)
  {
    var k := Find(s, pat + more);
    FindFirst(s, pat + more);
    FindFirst(s, pat);
    assert s[k..k + |pat|] == (pat + more)[..|pat|];
    assert Occurs(s, pat, k);
  }

  function Lower(c: char): char {
    if 'A' <= c <= 'Z' then (c as int + 32) as char else c
  }

  /** `start_with`, which ignores case. */
  predicate StartsWith(s: string, p: string) {
    |s| >= |p| && forall i :: 0 <= i < |p| ==> Lower(s[i]) == Lower(p[i])
  }

  /** The same character, or the two cases of one ASCII letter. */
  predicate SameLetter(c: char, d: char) {
    || c == d
    || (65 <= c as int <= 90 && d as int == c as int + 32)
    || (65 <= d as int <= 90 && c as int == d as int + 32)
  }

  lemma LowerSame(c: char, d: char)
    ensures Lower(c) == Lower(d) <==> SameLetter(c, d)
  {
  }

  /** Case is ignored for the 26 letters, and for nothing else. */
  lemma StartsWithIs(s: string, p: string)
    ensures StartsWith(s, p) <==> |p| <= |s| && forall i :: 0 <= i < |p| ==> SameLetter(s[i], p[i])
  {
    hide Lower, SameLetter;
    forall i | 0 <= i < |p| && i < |s| ensures Lower(s[i]) == Lower(p[i]) <==> SameLetter(s[i], p[i]) {
      LowerSame(s[i], p[i]);
    }
  }

  predicate Blank(c: char) { c == ' ' || c == '\t' }

  function TrimLeft(s: string): string {
    if |s| > 0 && Blank(s[0]) then TrimLeft(s[1..]) else s
  }

  function TrimRight(s: string): string {
    if |s| > 0 && Blank(s[|s| - 1]) then TrimRight(s[..|s| - 1]) else s
  }

  /** `trim_copy`: without spaces and tabs at either end. */
  function Trim(s: string): string { TrimRight(TrimLeft(s)) }

  lemma TrimRightStep(s: string, left: nat, right: nat)
    requires left < right <= |s| && Blank(s[right - 1])
    ensures TrimRight(s[left..right]) == TrimRight(s[left..right - 1])
  {
    var t := s[left..right];
    assert t[..|t| - 1] == s[left..right - 1];
  }

  /** `trim_copy` as it is written: two indices move towards each other; they cross when there is nothing else. */
  method TrimCopy(s: string) returns (r: string)
    ensures r == Trim(s)
  {
    hide Blank;
    var left, right := 0, |s|;
    while left < |s| && Blank(s[left])
      invariant left <= |s| && TrimLeft(s) == TrimLeft(s[left..])
    {
      left := left + 1;
    }
    assert s[left..] == s[left..right];
    while right > 0 && Blank(s[right - 1])
      invariant right <= |s| && (left < |s| ==> left < right && TrimRight(s[left..]) == TrimRight(s[left..right]))
    {
      if left < |s| {
        assert right - 1 != left;
        TrimRightStep(s, left, right);
      }
      right := right - 1;
    }
    r := if left < right then s[left..right] else "";
  }

  predicate Trimmed(s: string) {
    |s| > 0 ==> !Blank(s[0]) && !Blank(s[|s| - 1])
  }

  lemma {:induction false} TrimLeftEnds(s: string)
    ensures |TrimLeft(s)| > 0 ==> !Blank(TrimLeft(s)[0]) && TrimLeft(s)[|TrimLeft(s)| - 1] == s[|s| - 1]
    ensures |TrimLeft(s)| <= |s|
  {
    if |s| > 0 && Blank(s[0]) {
      TrimLeftEnds(s[1..]);
    }
  }

  lemma {:induction false} TrimRightEnds(s: string)
    ensures |TrimRight(s)| > 0 ==> !Blank(TrimRight(s)[|TrimRight(s)| - 1]) && TrimRight(s)[0] == s[0]
    ensures |TrimRight(s)| <= |s|
  {
    if |s| > 0 && Blank(s[|s| - 1]) {
      TrimRightEnds(s[..|s| - 1]);
    }
  }

  /** Trimming changes exactly the texts that have a blank at an end. */
  lemma TrimFixes(s: string)
    ensures Trimmed(Trim(s)) && (Trim(s) == s <==> Trimmed(s))
  {
    TrimLeftEnds(s);
    TrimRightEnds(TrimLeft(s));
    if Trimmed(s) {
      assert TrimLeft(s) == s;
      assert TrimRight(s) == s;
    }
  }

  /** Spaces and tabs are taken away at both ends, and nothing else. */
  lemma TrimIs(s: string) returns (i: nat, j: nat)
    ensures i <= j <= |s| && Trim(s) == s[i..j]
    ensures forall k :: 0 <= k < i || j <= k < |s| ==> s[k] == ' ' || s[k] == '\t'
    ensures i < j ==> s[i] != ' ' && s[i] != '\t' && s[j - 1] != ' ' && s[j - 1] != '\t'
  {
    i := LeftIs(s);
    var n := RightIs(s[i..]);
    j := i + n;
  }

  lemma {:induction false} LeftIs(s: string) returns (i: nat)
    ensures i <= |s| && TrimLeft(s) == s[i..] && forall k :: 0 <= k < i ==> s[k] == ' ' || s[k] == '\t'
    ensures i < |s| ==> s[i] != ' ' && s[i] != '\t'
  {
    i := 0;
    if |s| > 0 && Blank(s[0]) {
      var n := LeftIs(s[1..]);
      i := n + 1;
      forall k | 0 <= k < i ensures s[k] == ' ' || s[k] == '\t' {
        assert k > 0 ==> s[k] == s[1..][k - 1];
      }
    }
  }

  lemma {:induction false} RightIs(s: string) returns (n: nat)
    ensures n <= |s| && TrimRight(s) == s[..n] && forall k :: n <= k < |s| ==> s[k] == ' ' || s[k] == '\t'
    ensures n > 0 ==> s[n - 1] != ' ' && s[n - 1] != '\t'
  {
    n := |s|;
    if |s| > 0 && Blank(s[|s| - 1]) {
      n := RightIs(s[..|s| - 1]);
    }
  }
}
