/**
 * The part of Go's `strings` package that the language server's path helpers
 * and signature splice rely on, over `string` = `seq<char>`.
 */
module Strings {
  import opened Wrappers

  /** strings.HasPrefix */
  predicate HasPrefix(s: string, prefix: string) {
    |prefix| <= |s| && s[..|prefix|] == prefix
  }

  /** `HasPrefix` holds exactly when `prefix` agrees with the start of `s` character by character. */
  lemma HasPrefixIff(s: string, prefix: string)
    ensures HasPrefix(s, prefix) <==> |prefix| <= |s| && forall i :: 0 <= i < |prefix| ==> s[i] == prefix[i]
  {
    if |prefix| <= |s| && forall i :: 0 <= i < |prefix| ==> s[i] == prefix[i] {
      assert s[..|prefix|] == prefix;
    }
  }

  /** strings.HasSuffix */
  predicate HasSuffix(s: string, suffix: string) {
    |suffix| <= |s| && s[|s| - |suffix|..] == suffix
  }

  /** `HasSuffix` holds exactly when `suffix` agrees with the end of `s` character by character. */
  lemma HasSuffixIff(s: string, suffix: string)
    ensures HasSuffix(s, suffix) <==>
              |suffix| <= |s| && forall i :: 0 <= i < |suffix| ==> s[|s| - |suffix| + i] == suffix[i]
  {
    if |suffix| <= |s| && forall i :: 0 <= i < |suffix| ==> s[|s| - |suffix| + i] == suffix[i] {
      assert s[|s| - |suffix|..] == suffix;
    }
  }

  /** strings.TrimPrefix: drop `prefix` when `s` starts with it, otherwise keep `s`. */
  function TrimPrefix(s: string, prefix: string): (r: string)
    ensures HasPrefix(s, prefix) ==> prefix + r == s
    ensures !HasPrefix(s, prefix) ==> r == s
  {
    if HasPrefix(s, prefix) then s[|prefix|..] else s
  }

  /** `pat` occurs in `s` starting at index `i`. */
  predicate OccursAt(s: string, pat: string, i: int) {
    0 <= i && i + |pat| <= |s| && s[i..i + |pat|] == pat
  }

  /** The first occurrence of `pat` in `s` at or after `from`. */
  function IndexFrom(s: string, pat: string, from: nat): (r: Option<nat>)
    ensures r.None? <==> forall i :: from <= i ==> !OccursAt(s, pat, i)
    ensures r.Some? ==> from <= r.value && OccursAt(s, pat, r.value)
    ensures r.Some? ==> forall j :: from <= j < r.value ==> !OccursAt(s, pat, j)
    decreases |s| - from
  {
    if from + |pat| > |s| then None
    else if OccursAt(s, pat, from) then Some(from)
    else IndexFrom(s, pat, from + 1)
  }

  /** strings.Index: the first position of `pat` in `s`, if any. */
  function Index(s: string, pat: string): (r: Option<nat>)
    ensures r.None? <==> forall i :: !OccursAt(s, pat, i)
    ensures r.Some? ==> OccursAt(s, pat, r.value)
    ensures r.Some? ==> forall j :: 0 <= j < r.value ==> !OccursAt(s, pat, j)
  {
    IndexFrom(s, pat, 0)
  }

  /** strings.Contains */
  predicate Contains(s: string, sub: string)
    ensures Contains(s, sub) <==> exists i :: OccursAt(s, sub, i)
  {
    Index(s, sub).Some?
  }

  /**
   * strings.Replace(s, pat, rep, 1): only the first occurrence of `pat` is
   * replaced; without one, `s` comes back unchanged.
   */
  function ReplaceFirst(s: string, pat: string, rep: string): (r: string)
    ensures !Contains(s, pat) ==> r == s
    ensures |r| == |s| + (if Contains(s, pat) then |rep| - |pat| else 0)
  {
    match Index(s, pat)
    case None => s
    case Some(i) => s[..i] + rep + s[i + |pat|..]
  }

  /** With no occurrence of `pat`, ReplaceFirst changes nothing. */
  lemma ReplaceFirstAbsent(s: string, pat: string, rep: string)
    requires forall i :: !OccursAt(s, pat, i)
    ensures ReplaceFirst(s, pat, rep) == s
  {
  }

  /** The first occurrence of `pat`, at `i`, is the one replaced. */
  lemma ReplaceFirstAt(s: string, pat: string, rep: string, i: nat)
    requires OccursAt(s, pat, i)
    requires forall j :: 0 <= j < i ==> !OccursAt(s, pat, j)
    ensures ReplaceFirst(s, pat, rep) == s[..i] + rep + s[i + |pat|..]
  {
    var k := Index(s, pat).value;
    assert k == i;
  }

  /** strings.Join */
  function Join(elems: seq<string>, sep: string): (r: string)
    ensures |elems| == 0 ==> r == ""
    ensures |elems| > 0 ==> HasPrefix(r, elems[0]) && HasSuffix(r, elems[|elems| - 1])
  {
    if |elems| == 0 then ""
    else if |elems| == 1 then elems[0]
    else elems[0] + sep + Join(elems[1..], sep)
  }

  /** Where `Join(elems, sep)` puts element `k`: each earlier element and one separator before it. */
  function JoinOffset(elems: seq<string>, sep: string, k: nat): nat
    requires k < |elems|
  {
    if k == 0 then 0 else |elems[0]| + |sep| + JoinOffset(elems[1..], sep, k - 1)
  }

  lemma OccursAtShift(a: string, t: string, u: string, pat: string, i: int)
    requires OccursAt(t, pat, i)
    ensures OccursAt(a + t + u, pat, |a| + i)
  {
    assert (a + t + u)[|a| + i..|a| + i + |pat|] == t[i..i + |pat|];
  }

  /** Each element of a join sits, unaltered, at its offset. */
  lemma {:induction false} JoinAt(elems: seq<string>, sep: string, k: nat)
    requires k < |elems|
    ensures OccursAt(Join(elems, sep), elems[k], JoinOffset(elems, sep, k))
  {
    if k == 0 {
      assert HasPrefix(Join(elems, sep), elems[0]);
    } else {
      JoinAt(elems[1..], sep, k - 1);
      OccursAtShift(elems[0] + sep, Join(elems[1..], sep), "", elems[k], JoinOffset(elems[1..], sep, k - 1));
      assert elems[0] + sep + Join(elems[1..], sep) + "" == Join(elems, sep);
    }
  }

  /** Between element `k` and element `k + 1` of a join stands exactly one separator. */
  lemma {:induction false} JoinSepAt(elems: seq<string>, sep: string, k: nat)
    requires k + 1 < |elems|
    ensures OccursAt(Join(elems, sep), sep, JoinOffset(elems, sep, k) + |elems[k]|)
  {
    if k == 0 {
      OccursAtShift(elems[0], sep, Join(elems[1..], sep), sep, 0);
    } else {
      JoinSepAt(elems[1..], sep, k - 1);
      OccursAtShift(elems[0] + sep, Join(elems[1..], sep), "", sep,
                    JoinOffset(elems[1..], sep, k - 1) + |elems[k]|);
      assert elems[0] + sep + Join(elems[1..], sep) + "" == Join(elems, sep);
    }
  }

  /** A join ends right after its last element: the elements plus one separator per gap. */
  lemma {:induction false} JoinLength(elems: seq<string>, sep: string)
    requires |elems| > 0
    ensures |Join(elems, sep)| == JoinOffset(elems, sep, |elems| - 1) + |elems[|elems| - 1]|
  {
    var n := |elems| - 1;
    if n > 0 {
      var rest := elems[1..];
      JoinLength(rest, sep);
      assert rest[n - 1] == elems[n];
      assert JoinOffset(elems, sep, n) == |elems[0]| + |sep| + JoinOffset(rest, sep, n - 1);
      assert Join(elems, sep) == elems[0] + sep + Join(rest, sep);
    }
  }
}
