// Byte strings and substring search. A byte is a char below 256; nothing here
// depends on that bound.
module Text {
  import opened Sequences

  predicate MatchesAt(s: string, pat: string, i: nat) {
    i + |pat| <= |s| && forall j :: 0 <= j < |pat| ==> s[i + j] == pat[j]
  }

  // std::string::find: the first match at or after from.
  function Find(s: string, pat: string, from: nat): (r: Option<nat>)
    ensures r.Some? ==> from <= r.value && MatchesAt(s, pat, r.value)
    ensures r.Some? ==> forall i :: from <= i < r.value ==> !MatchesAt(s, pat, i)
    ensures r.None? ==> forall i :: from <= i ==> !MatchesAt(s, pat, i)
    decreases |s| - from
  {
    if from + |pat| > |s| then None
    else if MatchesAt(s, pat, from) then Some(from)
    else Find(s, pat, from + 1)
  }

  lemma {:induction false} FindIs(s: string, pat: string, from: nat, i: nat)
    requires from <= i && MatchesAt(s, pat, i)
    requires forall j :: from <= j < i ==> !MatchesAt(s, pat, j)
    ensures Find(s, pat, from) == Some(i)
  {
  }

  lemma MatchSplit(s: string, a: string, b: string, i: nat)
    ensures MatchesAt(s, a + b, i) <==> MatchesAt(s, a, i) && MatchesAt(s, b, i + |a|)
  {
    if MatchesAt(s, a + b, i) {
      forall j | 0 <= j < |a| ensures s[i + j] == a[j] { assert (a + b)[j] == a[j]; }
      forall j | 0 <= j < |b| ensures s[i + |a| + j] == b[j] {
        assert (a + b)[|a| + j] == b[j] && s[i + (|a| + j)] == (a + b)[|a| + j];
      }
    }
  }

  lemma MatchSlice(s: string, pat: string, i: nat)
    ensures MatchesAt(s, pat, i) <==> i + |pat| <= |s| && s[i..i + |pat|] == pat
  {
    if i + |pat| <= |s| {
      var t := s[i..i + |pat|];
      assert forall j :: 0 <= j < |pat| ==> t[j] == s[i + j];
    }
  }

  lemma MatchIndex(s: string, pat: string, i: nat, j: nat)
    requires MatchesAt(s, pat, i) && j < |pat|
    ensures s[i + j] == pat[j]
  {
  }

  lemma {:induction false} FindChar(s: string, c: char, from: nat, i: nat)
    requires from <= i < |s| && s[i] == c
    requires forall j :: from <= j < i ==> s[j] != c
    ensures Find(s, [c], from) == Some(i)
  {
    forall j | from <= j < i ensures !MatchesAt(s, [c], j) {
      assert s[j + 0] != [c][0];
    }
    FindIs(s, [c], from, i);
  }

  // std::isspace in the C locale.
  predicate IsSpace(c: char) { c == ' ' || '\t' <= c <= '\r' }

  function SkipSpaces(s: string, pos: nat): (r: nat)
    requires pos <= |s|
    ensures pos <= r <= |s|
    ensures forall i :: pos <= i < r ==> IsSpace(s[i])
    ensures r < |s| ==> !IsSpace(s[r])
    decreases |s| - pos
  {
    if pos < |s| && IsSpace(s[pos]) then SkipSpaces(s, pos + 1) else pos
  }

  lemma {:induction false} SkipSpacesIs(s: string, pos: nat, r: nat)
    requires pos <= r <= |s| && (forall i :: pos <= i < r ==> IsSpace(s[i])) && (r < |s| ==> !IsSpace(s[r]))
    ensures SkipSpaces(s, pos) == r
    decreases r - pos
  {
    if pos < r { SkipSpacesIs(s, pos + 1, r); }
  }

  // Where a pattern occurs first, from a position on.
  ghost predicate FirstAt(s: string, pat: string, from: nat, i: nat) {
    from <= i && MatchesAt(s, pat, i) && forall j :: from <= j < i ==> !MatchesAt(s, pat, j)
  }

  lemma FindFirst(s: string, pat: string, from: nat, i: nat)
    ensures Find(s, pat, from) == Some(i) <==> FirstAt(s, pat, from, i)
  {
    if FirstAt(s, pat, from, i) { FindIs(s, pat, from, i); }
  }

  method SkipSpacesLoop(s: string, pos: nat) returns (r: nat)
    requires pos <= |s|
    ensures r == SkipSpaces(s, pos)
    ensures pos <= r <= |s|
    ensures forall i :: pos <= i < r ==> s[i] as int == 32 || 9 <= s[i] as int <= 13
    ensures r < |s| ==> s[r] as int != 32 && (s[r] as int < 9 || s[r] as int > 13)
  {
    r := pos;
    while r < |s| && IsSpace(s[r])
      invariant pos <= r <= |s|
      invariant SkipSpaces(s, pos) == SkipSpaces(s, r)
    {
      r := r + 1;
    }
  }
}
