// The filename extraction of apps/omnitak/fix_duplicates.py: Python's
// `re.search(r'/\* (.+?) in Sources \*/', line).group(1)`.
//
// `re.search` tries start positions left to right and, at each start, the lazy
// `.+?` tries content lengths 1, 2, ... ; `.` matches any character except a
// newline. The first (start, length) pair that completes the pattern wins.
module SourceComment {
  import opened Basics

  const CommentOpen: string := "/* "
  const SourcesClose: string := " in Sources */"

  predicate NoNewline(w: string)
  {
    forall j :: 0 <= j < |w| ==> w[j] != '\n'
  }

  /** The pattern matches `line` with the comment opener at `i` and a captured
      filename of length `k` (so the filename is line[i + 3 .. i + 3 + k]). */
  predicate IsMatch(line: string, i: int, k: int)
  {
    && 0 <= i
    && 1 <= k
    && i + |CommentOpen| + k + |SourcesClose| <= |line|
    && OccursAt(line, i, CommentOpen)
    && NoNewline(line[i + |CommentOpen| .. i + |CommentOpen| + k])
    && OccursAt(line, i + |CommentOpen| + k, SourcesClose)
  }

  /** The lazy `(.+?)` at a fixed start `i`: the shortest admissible length that is at least `k`. */
  function ShortestFrom(line: string, i: nat, k: nat): (r: Option<nat>)
    requires OccursAt(line, i, CommentOpen) && 1 <= k
    requires i + |CommentOpen| + k - 1 <= |line|
    requires NoNewline(line[i + |CommentOpen| .. i + |CommentOpen| + k - 1])
    ensures r.Some? ==> k <= r.value && IsMatch(line, i, r.value)
                        && forall k' :: k <= k' < r.value ==> !IsMatch(line, i, k')
    ensures r.None? ==> forall k' :: k <= k' ==> !IsMatch(line, i, k')
    decreases |line| - (i + k)
  {
    var start := i + |CommentOpen|;
    if start + k > |line| then None
    else if line[start + k - 1] == '\n' then
      NewlineEndsSearch(line, i, k);
      None
    else
      NoNewlineExtends(line, start, k);
      if OccursAt(line, start + k, SourcesClose) then Some(k)
      else ShortestFrom(line, i, k + 1)
  }

  /** `.` cannot cross a newline: once the content reaches one, no longer content matches. */
  lemma NewlineEndsSearch(line: string, i: nat, k: nat)
    requires 1 <= k && i + |CommentOpen| + k <= |line|
    requires line[i + |CommentOpen| + k - 1] == '\n'
    ensures forall k' :: k <= k' ==> !IsMatch(line, i, k')
  {
    var start := i + |CommentOpen|;
    forall k' | k <= k'
      ensures !IsMatch(line, i, k')
    {
      if start + k' <= |line| {
        assert line[start .. start + k'][k - 1] == '\n';
      }
    }
  }

  lemma NoNewlineExtends(line: string, start: nat, k: nat)
    requires 1 <= k && start + k <= |line|
    requires NoNewline(line[start .. start + k - 1]) && line[start + k - 1] != '\n'
    ensures NoNewline(line[start .. start + k])
  {
    assert line[start .. start + k] == line[start .. start + k - 1] + [line[start + k - 1]];
  }

  /** `re.search`: the leftmost start at or after `i` where the pattern matches at all,
      together with the shortest filename length there. */
  function SearchFrom(line: string, i: nat): (r: Option<(nat, nat)>)
    ensures r.Some? ==> && i <= r.value.0
                        && IsMatch(line, r.value.0, r.value.1)
                        && (forall i', k :: i <= i' < r.value.0 ==> !IsMatch(line, i', k))
                        && (forall k :: k < r.value.1 ==> !IsMatch(line, r.value.0, k))
    ensures r.None? ==> forall i', k :: i <= i' ==> !IsMatch(line, i', k)
    decreases |line| - i
  {
    if i + |CommentOpen| > |line| then None
    else if OccursAt(line, i, CommentOpen) then
      assert line[i + |CommentOpen| .. i + |CommentOpen|] == [];
      match ShortestFrom(line, i, 1)
      case Some(k) => Some((i, k))
      case None => SearchFrom(line, i + 1)
    else SearchFrom(line, i + 1)
  }

  /** The filename captured by group 1, or None when the pattern does not match. */
  function ExtractFilename(line: string): (r: Option<string>)
    ensures r.None? <==> forall i, k :: !IsMatch(line, i, k)
    ensures r.Some? ==> exists i, k :: && IsMatch(line, i, k)
                                       && r.value == line[i + |CommentOpen| .. i + |CommentOpen| + k]
  {
    match SearchFrom(line, 0)
    case Some((i, k)) => Some(line[i + |CommentOpen| .. i + |CommentOpen| + k])
    case None => None
  }

  /** The capture is the leftmost-then-shortest match: any match (i, k) either starts
      later, or starts at the same place and is at least as long. */
  lemma ExtractIsLeftmostShortest(line: string, i: int, k: int)
    requires IsMatch(line, i, k)
    ensures SearchFrom(line, 0).Some?
    ensures var (i0, k0) := SearchFrom(line, 0).value;
            i0 < i || (i0 == i && k0 <= k)
  {
  }

  // An extracted filename never contains a newline and sits inside a
  // "/* ... in Sources */" comment, so the line passes the " in Sources */" gate.
  lemma ExtractedNameIsInComment(line: string)
    requires ExtractFilename(line).Some?
    ensures NoNewline(ExtractFilename(line).value)
    ensures |ExtractFilename(line).value| >= 1
    ensures Contains(line, SourcesClose)
    ensures Contains(line, CommentOpen)
  {
    var (i, k) := SearchFrom(line, 0).value;
    assert OccursAt(line, i + |CommentOpen| + k, SourcesClose);
    assert OccursAt(line, i, CommentOpen);
  }

  // A line with no "/* " yields no filename.
  lemma NoOpenerNoFilename(line: string)
    requires !Contains(line, CommentOpen)
    ensures ExtractFilename(line) == None
  {
  }

  // A line holding the comment "/* NAME in Sources */" yields NAME, provided no
  // match of the pattern starts inside PREFIX and no proper prefix of NAME is
  // itself followed by " in Sources */".
  lemma ExtractFromEntry(prefix: string, name: string, suffix: string)
    requires |name| >= 1 && NoNewline(name)
    requires var line := prefix + CommentOpen + name + SourcesClose + suffix;
             forall i, k :: 0 <= i < |prefix| ==> !IsMatch(line, i, k)
    requires var line := prefix + CommentOpen + name + SourcesClose + suffix;
             forall j :: |prefix| + |CommentOpen| < j < |prefix| + |CommentOpen| + |name| ==>
               !OccursAt(line, j, SourcesClose)
    ensures ExtractFilename(prefix + CommentOpen + name + SourcesClose + suffix) == Some(name)
  {
    var line := prefix + CommentOpen + name + SourcesClose + suffix;
    var p := |prefix|;
    assert line[p .. p + 3] == CommentOpen;
    assert line[p + 3 .. p + 3 + |name|] == name;
    assert line[p + 3 + |name| .. p + 3 + |name| + 14] == SourcesClose;
    assert IsMatch(line, p, |name|);
    forall k | 1 <= k < |name|
      ensures !IsMatch(line, p, k)
    {
      assert !OccursAt(line, p + 3 + k, SourcesClose);
    }
    var (i0, k0) := SearchFrom(line, 0).value;
    assert i0 == p;
  }
}
