/** Searching a text, as std::string::find does. */
module TextSearch {

  /** The first index at or after i that holds c, or the length. */
  function FirstFrom(c: char, s: string, i: nat): (r: nat)
    requires i <= |s|
    ensures i <= r <= |s| && (r < |s| ==> s[r] == c)
    ensures forall j :: i <= j < r ==> s[j] != c
    decreases |s| - i
  {
    if i == |s| || s[i] == c then i else FirstFrom(c, s, i + 1)
  }

  /** The first index of c, or the length. */
  function FirstOf(c: char, s: string): (r: nat)
    ensures r <= |s| && (r < |s| ==> s[r] == c)
    ensures c !in s[..r]
  {
    FirstFrom(c, s, 0)
  }

  lemma FirstIs(c: char, s: string, i: nat)
    requires i <= |s| && c !in s[..i] && (i < |s| ==> s[i] == c)
    ensures FirstOf(c, s) == i
  {
    var f := FirstOf(c, s);
    assert forall j :: 0 <= j < i ==> s[j] in s[..i];
    assert forall j :: 0 <= j < f ==> s[j] in s[..f];
  }

  predicate StartsAt(pattern: string, s: string, i: nat) {
    i + |pattern| <= |s| && s[i..i + |pattern|] == pattern
  }

  predicate StartsWith(s: string, x: string) {
    StartsAt(x, s, 0)
  }

  predicate EndsWith(s: string, x: string) {
    |x| <= |s| && s[|s| - |x|..] == x
  }

  /** The first index where the pattern starts, or the length. */
  function Find(pattern: string, s: string): (r: nat)
    requires pattern != ""
    ensures r <= |s| && (r < |s| ==> r + |pattern| <= |s|)
  {
    if s == "" || StartsAt(pattern, s, 0) then 0 else 1 + Find(pattern, s[1..])
  }

  lemma StartsAtRest(pattern: string, s: string, i: nat)
    requires i < |s|
    ensures StartsAt(pattern, s[1..], i) <==> StartsAt(pattern, s, i + 1)
  {
    if i + 1 + |pattern| <= |s| {
      assert s[1..][i..i + |pattern|] == s[i + 1..i + 1 + |pattern|];
    }
  }

  /** It is a start, and there is none before it. */
  lemma {:induction false} FindIsFirst(pattern: string, s: string, j: nat)
    requires pattern != ""
    ensures Find(pattern, s) < |s| ==> StartsAt(pattern, s, Find(pattern, s))
    ensures j < Find(pattern, s) ==> !StartsAt(pattern, s, j)
  {
    if s != "" && !StartsAt(pattern, s, 0) {
      var r := Find(pattern, s[1..]);
      FindIsFirst(pattern, s[1..], if j > 0 then j - 1 else 0);
      if r < |s| - 1 { StartsAtRest(pattern, s, r); }
      if 0 < j <= r { StartsAtRest(pattern, s, j - 1); }
    }
  }
}
