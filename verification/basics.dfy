/** Small shared vocabulary: an Option type, substring search on strings,
    sequence selection by a keep-mask, subsequences, and "first element not in a set". */
module Basics {

  datatype Option<T> = None | Some(value: T)

  /** `pat` occurs in `s` starting at index `i`. */
  predicate OccursAt(s: string, i: int, pat: string)
  {
    0 <= i && i + |pat| <= |s| && s[i..i + |pat|] == pat
  }

  /** Python's `pat in s` for two strings. */
  predicate Contains(s: string, pat: string)
  {
    exists i :: 0 <= i <= |s| - |pat| && OccursAt(s, i, pat)
  }

  /** `sub` is obtained from `s` by deleting elements, without changing or reordering the rest. */
  predicate IsSubsequence<T(==)>(sub: seq<T>, s: seq<T>)
    decreases |s|
  {
    if |sub| == 0 then true
    else if |s| == 0 then false
    else if sub[0] == s[0] then IsSubsequence(sub[1..], s[1..])
    else IsSubsequence(sub, s[1..])
  }

  /** The elements of `xs` whose mask entry is true, in their original order. */
  function Select<T>(xs: seq<T>, mask: seq<bool>): (r: seq<T>)
    requires |mask| == |xs|
    ensures |r| <= |xs|
    decreases |xs|
  {
    if |xs| == 0 then []
    else (if mask[0] then [xs[0]] else []) + Select(xs[1..], mask[1..])
  }

  lemma {:induction false} SelectIsSubsequence<T>(xs: seq<T>, mask: seq<bool>)
    requires |mask| == |xs|
    ensures IsSubsequence(Select(xs, mask), xs)
    decreases |xs|
  {
    if |xs| > 0 {
      SelectIsSubsequence(xs[1..], mask[1..]);
      if mask[0] {
        assert Select(xs, mask) == [xs[0]] + Select(xs[1..], mask[1..]);
        assert ([xs[0]] + Select(xs[1..], mask[1..]))[1..] == Select(xs[1..], mask[1..]);
      } else {
        assert Select(xs, mask) == Select(xs[1..], mask[1..]);
        SubsequenceSkipsHead(Select(xs, mask), xs);
      }
    }
  }

  lemma {:induction false} SubsequenceSkipsHead<T>(sub: seq<T>, s: seq<T>)
    requires |s| > 0 && IsSubsequence(sub, s[1..])
    ensures IsSubsequence(sub, s)
    decreases |s|, 0
  {
    if |sub| > 0 && sub[0] == s[0] {
      // Taking s[0] for sub[0] leaves sub[1..] to be found in s[1..], which it is.
      SubsequenceDropHead(sub, s[1..]);
    }
  }

  lemma {:induction false} SubsequenceDropHead<T>(sub: seq<T>, s: seq<T>)
    requires |sub| > 0 && IsSubsequence(sub, s)
    ensures IsSubsequence(sub[1..], s)
    decreases |s|, 1
  {
    if sub[0] == s[0] {
      SubsequenceSkipsHead(sub[1..], s);
    } else {
      SubsequenceDropHead(sub, s[1..]);
      SubsequenceSkipsHead(sub[1..], s);
    }
  }

  /** The first element of `xs`, in list order, that is not in `present`; None when all are. */
  function FirstNotIn<T(==)>(xs: seq<T>, present: set<T>): (r: Option<T>)
    ensures r.None? <==> forall k :: 0 <= k < |xs| ==> xs[k] in present
    ensures r.Some? ==> exists k :: 0 <= k < |xs| && xs[k] == r.value && r.value !in present
                                    && forall j :: 0 <= j < k ==> xs[j] in present
    decreases |xs|
  {
    if |xs| == 0 then None
    else if xs[0] !in present then Some(xs[0])
    else
      assert forall k :: 0 <= k < |xs| - 1 ==> xs[1..][k] == xs[k + 1];
      FirstNotIn(xs[1..], present)
  }
}
