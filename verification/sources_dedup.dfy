/** The line filter of apps/omnitak/fix_duplicates.py: inside every
    "PBXSourcesBuildPhase" section of an Xcode project file, a build-file line
    whose comment names a file already listed earlier in the same section is
    dropped. Everything else passes through unchanged. */
module SourcesDedup {
  import opened Basics
  import opened SourceComment

  const BeginMarker: string := "Begin PBXSourcesBuildPhase"
  const EndMarker: string := "End PBXSourcesBuildPhase"

  /** How the loop treats a line; the tests run in the source's order, so a line
      holding both markers is a Begin line. */
  datatype LineKind =
    | PhaseBegin
    | PhaseEnd
    | SourceEntry(name: Option<string>)  // holds " in Sources */"; name is the regex capture
    | Other

  function Classify(line: string): LineKind
  {
    if Contains(line, BeginMarker) then PhaseBegin
    else if Contains(line, EndMarker) then PhaseEnd
    else if Contains(line, SourcesClose) then SourceEntry(ExtractFilename(line))
    else Other
  }

  /** The loop state: `in_sources_phase` and `seen_files`. */
  datatype Phase = Phase(inSources: bool, seen: set<string>)

  const Initial: Phase := Phase(false, {})

  /** Whether the current line is written out, and the state for the next line. */
  datatype Decision = Decision(keep: bool, next: Phase)

  /** One iteration of the loop body. */
  function Step(ph: Phase, line: string): (d: Decision)
    ensures !d.keep ==> d.next == ph
    ensures !d.keep ==> ph.inSources && Classify(line).SourceEntry?
  {
    match Classify(line)
    case PhaseBegin => Decision(true, Phase(true, ph.seen))
    case PhaseEnd => Decision(true, Initial)
    case SourceEntry(Some(f)) =>
      if !ph.inSources then Decision(true, ph)
      else if f in ph.seen then Decision(false, ph)
      else Decision(true, Phase(true, ph.seen + {f}))
    case _ => Decision(true, ph)
  }

  /** The written lines and `duplicates_removed`. */
  datatype Outcome = Outcome(lines: seq<string>, removed: nat)

  /** The loop as a fold over the remaining lines, starting in state `ph`. */
  function Scan(ph: Phase, lines: seq<string>): (r: Outcome)
    ensures |r.lines| + r.removed == |lines|
    ensures IsSubsequence(r.lines, lines)
    decreases |lines|
  {
    if |lines| == 0 then Outcome([], 0)
    else
      var d := Step(ph, lines[0]);
      var rest := Scan(d.next, lines[1..]);
      if d.keep then
        assert ([lines[0]] + rest.lines)[1..] == rest.lines;
        Outcome([lines[0]] + rest.lines, rest.removed)
      else
        SubsequenceSkipsHead(rest.lines, lines);
        Outcome(rest.lines, rest.removed + 1)
  }

  /** `fix_duplicate_build_files` without its file I/O: the kept lines and the removal count. */
  function Dedup(lines: seq<string>): (r: Outcome)
    ensures r.removed == |lines| - |r.lines|
    ensures IsSubsequence(r.lines, lines)
  {
    Scan(Initial, lines)
  }

  /** The body of the source's loop for one line: whether the line is written, and the
      updated `in_sources_phase` and `seen_files`. */
  method ProcessLine(inSourcesPhase: bool, seenFiles: set<string>, line: string)
    returns (keep: bool, inSourcesAfter: bool, seenAfter: set<string>)
    ensures Decision(keep, Phase(inSourcesAfter, seenAfter)) == Step(Phase(inSourcesPhase, seenFiles), line)
  {
    keep, inSourcesAfter, seenAfter := true, inSourcesPhase, seenFiles;
    if Contains(line, BeginMarker) {
      inSourcesAfter := true;
    } else if Contains(line, EndMarker) {
      inSourcesAfter := false;
      seenAfter := {};
    } else if inSourcesPhase && Contains(line, SourcesClose) {
      var filenameMatch := ExtractFilename(line);
      if filenameMatch.Some? {
        var filename := filenameMatch.value;
        if filename !in seenFiles {
          seenAfter := seenFiles + {filename};
        } else {
          keep := false;
        }
      }
    }
  }

  /** The loop of the source: lines are written out in order, duplicates are counted. */
  method FixDuplicateBuildFiles(lines: seq<string>) returns (newLines: seq<string>, duplicatesRemoved: nat)
    ensures newLines == Dedup(lines).lines && duplicatesRemoved == Dedup(lines).removed
    ensures duplicatesRemoved == |lines| - |newLines|
  {
    var inSourcesPhase := false;
    var seenFiles: set<string> := {};
    newLines := [];
    duplicatesRemoved := 0;
    var i := 0;
    assert lines[0..] == lines;
    while i < |lines|
      invariant 0 <= i <= |lines|
      invariant Scan(Initial, lines) == Then(newLines, duplicatesRemoved, Scan(Phase(inSourcesPhase, seenFiles), lines[i..]))
    {
      var line := lines[i];
      var before := Phase(inSourcesPhase, seenFiles);
      var keep;
      keep, inSourcesPhase, seenFiles := ProcessLine(inSourcesPhase, seenFiles, line);
      ThenAdvance(before, lines, i, newLines, duplicatesRemoved, Decision(keep, Phase(inSourcesPhase, seenFiles)));
      if keep {
        newLines := newLines + [line];
      } else {
        duplicatesRemoved := duplicatesRemoved + 1;
      }
      i := i + 1;
    }
    assert lines[i..] == [];
  }

  /** Prefix already written lines and an already counted number of removals to an outcome. */
  function Then(written: seq<string>, removed: nat, o: Outcome): Outcome
  {
    Outcome(written + o.lines, removed + o.removed)
  }

  /** Consuming line i moves it either into the written lines or into the removal count. */
  lemma ThenAdvance(ph: Phase, lines: seq<string>, i: nat, written: seq<string>, removed: nat, d: Decision)
    requires i < |lines| && d == Step(ph, lines[i])
    ensures Then(written, removed, Scan(ph, lines[i..]))
              == if d.keep then Then(written + [lines[i]], removed, Scan(d.next, lines[i + 1..]))
                 else Then(written, removed + 1, Scan(d.next, lines[i + 1..]))
  {
    ScanUnfold(ph, lines, i);
    if d.keep {
      var rest := Scan(d.next, lines[i + 1..]).lines;
      assert written + ([lines[i]] + rest) == (written + [lines[i]]) + rest;
    }
  }

  lemma ScanUnfold(ph: Phase, lines: seq<string>, i: nat)
    requires i < |lines|
    ensures var d := Step(ph, lines[i]);
            var rest := Scan(d.next, lines[i + 1..]);
            Scan(ph, lines[i..]) == if d.keep then Outcome([lines[i]] + rest.lines, rest.removed)
                                    else Outcome(rest.lines, rest.removed + 1)
  {
    assert lines[i..][0] == lines[i] && lines[i..][1..] == lines[i + 1..];
  }

  // ---------------------------------------------------------------------------
  // Per-line view: the state before line i and whether line i is kept.

  function PhaseBefore(lines: seq<string>, i: nat): Phase
    requires i <= |lines|
    decreases i
  {
    if i == 0 then Initial else Step(PhaseBefore(lines, i - 1), lines[i - 1]).next
  }

  predicate KeptAt(lines: seq<string>, i: nat)
    requires i < |lines|
  {
    Step(PhaseBefore(lines, i), lines[i]).keep
  }

  function KeepMask(lines: seq<string>): (m: seq<bool>)
    ensures |m| == |lines|
    ensures forall i :: 0 <= i < |lines| ==> m[i] == KeptAt(lines, i)
  {
    seq(|lines|, i requires 0 <= i < |lines| => KeptAt(lines, i))
  }

  lemma {:induction false} ScanFromIndex(lines: seq<string>, n: nat)
    requires n <= |lines|
    ensures Scan(PhaseBefore(lines, n), lines[n..]).lines == Select(lines[n..], KeepMask(lines)[n..])
    decreases |lines| - n
  {
    if n < |lines| {
      ScanFromIndex(lines, n + 1);
      assert lines[n..][0] == lines[n] && lines[n..][1..] == lines[n + 1..];
      assert KeepMask(lines)[n..][1..] == KeepMask(lines)[n + 1..];
    }
  }

  /** The output is exactly the input lines whose per-line decision is "keep", in order. */
  lemma DedupSelectsKeptLines(lines: seq<string>)
    ensures Dedup(lines).lines == Select(lines, KeepMask(lines))
  {
    ScanFromIndex(lines, 0);
    assert lines[0..] == lines && KeepMask(lines)[0..] == KeepMask(lines);
  }

  // ---------------------------------------------------------------------------
  // Reference definitions of regions, stated on positions rather than on the loop state.

  /** No End line lies strictly between positions j and i. */
  predicate NoEndBetween(lines: seq<string>, j: int, i: int)
    requires 0 <= j <= i <= |lines|
  {
    forall k :: j < k < i ==> !Classify(lines[k]).PhaseEnd?
  }

  /** Line i lies inside a sources section: some Begin line precedes it with no End after that Begin. */
  ghost predicate InSourcesRef(lines: seq<string>, i: int)
    requires 0 <= i <= |lines|
  {
    exists j :: 0 <= j < i && Classify(lines[j]).PhaseBegin? && NoEndBetween(lines, j, i)
  }

  /** An entry naming f appears before position i, inside a section, with no End since. */
  ghost predicate SeenRef(lines: seq<string>, i: int, f: string)
    requires 0 <= i <= |lines|
  {
    exists j :: 0 <= j < i && InSourcesRef(lines, j) && Classify(lines[j]) == SourceEntry(Some(f))
                && NoEndBetween(lines, j, i)
  }

  /** Line i repeats, inside a section, a filename already listed earlier in that section. */
  ghost predicate IsRegionDuplicate(lines: seq<string>, i: int)
    requires 0 <= i < |lines|
  {
    && InSourcesRef(lines, i)
    && Classify(lines[i]).SourceEntry?
    && Classify(lines[i]).name.Some?
    && SeenRef(lines, i, Classify(lines[i]).name.value)
  }

  lemma NoEndExtend(lines: seq<string>, j: int, p: int)
    requires 0 <= j <= p < |lines|
    ensures NoEndBetween(lines, j, p + 1) <==> NoEndBetween(lines, j, p) && (j == p || !Classify(lines[p]).PhaseEnd?)
  {
    if j < p && NoEndBetween(lines, j, p + 1) {
      assert !Classify(lines[p]).PhaseEnd?;
    }
  }

  /** The loop state before line i, described by the reference definitions:
      the flag says "inside a section", and the seen set holds exactly the names of
      the section entries met since the last End. */
  lemma {:induction false} PhaseBeforeMeaning(lines: seq<string>, i: nat)
    requires i <= |lines|
    ensures PhaseBefore(lines, i).inSources <==> InSourcesRef(lines, i)
    ensures forall f :: f in PhaseBefore(lines, i).seen <==> SeenRef(lines, i, f)
    decreases i
  {
    if i > 0 {
      var p := i - 1;
      PhaseBeforeMeaning(lines, p);
      var ph := PhaseBefore(lines, p);
      var ph' := PhaseBefore(lines, i);
      var kind := Classify(lines[p]);
      forall j | 0 <= j <= p
        ensures NoEndBetween(lines, j, i) <==> NoEndBetween(lines, j, p) && (j == p || !kind.PhaseEnd?)
      {
        NoEndExtend(lines, j, p);
      }
      if kind.PhaseEnd? {
        assert !InSourcesRef(lines, i);
        forall f ensures !SeenRef(lines, i, f) { }
      } else {
        if kind.PhaseBegin? {
          assert NoEndBetween(lines, p, i);
        } else {
          assert InSourcesRef(lines, i) <==> InSourcesRef(lines, p);
        }
        forall f
          ensures f in ph'.seen <==> SeenRef(lines, i, f)
        {
          if kind == SourceEntry(Some(f)) && ph.inSources {
            assert NoEndBetween(lines, p, i);
          } else {
            assert SeenRef(lines, i, f) <==> SeenRef(lines, p, f);
          }
        }
      }
    }
  }

  /** A line is dropped exactly when it is a section entry repeating a filename
      already listed earlier in the same section. */
  lemma KeptAtMeaning(lines: seq<string>, i: nat)
    requires i < |lines|
    ensures KeptAt(lines, i) <==> !IsRegionDuplicate(lines, i)
  {
    PhaseBeforeMeaning(lines, i);
  }

  /** Begin and End marker lines, and lines outside every section, are always kept. */
  lemma MarkersAndOutsideLinesKept(lines: seq<string>, i: nat)
    requires i < |lines|
    requires Classify(lines[i]).PhaseBegin? || Classify(lines[i]).PhaseEnd? || !InSourcesRef(lines, i)
    ensures KeptAt(lines, i)
  {
    KeptAtMeaning(lines, i);
  }

  // A line on which the filename pattern finds no match is kept, even inside a section:
  // this covers lines without "/* ", an empty name as in "/* in Sources */", and an
  // opener that only follows the closer.
  lemma UnmatchedEntryKept(lines: seq<string>, i: nat)
    requires i < |lines|
    requires ExtractFilename(lines[i]).None?
    ensures KeptAt(lines, i)
  {
  }

  lemma {:induction false} InSourcesPersists(lines: seq<string>, i: int, j: int)
    requires 0 <= i <= j <= |lines|
    requires InSourcesRef(lines, i) && NoEndBetween(lines, i, j)
    requires i < j ==> !Classify(lines[i]).PhaseEnd?
    ensures InSourcesRef(lines, j)
  {
    var b :| 0 <= b < i && Classify(lines[b]).PhaseBegin? && NoEndBetween(lines, b, i);
    assert NoEndBetween(lines, b, j);
  }

  /** Within one section no two kept lines carry the same filename: two kept entries
      with the same name always have an End line between them. */
  lemma NoRepeatWithinRegion(lines: seq<string>, i: nat, j: nat, f: string)
    requires i < j < |lines|
    requires InSourcesRef(lines, i)
    requires Classify(lines[i]) == SourceEntry(Some(f)) && Classify(lines[j]) == SourceEntry(Some(f))
    requires KeptAt(lines, i) && KeptAt(lines, j)
    ensures exists k :: i < k < j && Classify(lines[k]).PhaseEnd?
  {
    if NoEndBetween(lines, i, j) {
      InSourcesPersists(lines, i, j);
      assert SeenRef(lines, j, f);
      KeptAtMeaning(lines, j);
      assert false;
    }
  }

  /** Uniqueness is per section: after an End line, the first entry naming f is kept
      whatever came before that End. */
  lemma RepeatInLaterRegionKept(lines: seq<string>, e: nat, i: nat, f: string)
    requires e < i < |lines|
    requires Classify(lines[e]).PhaseEnd?
    requires forall k :: e < k < i ==> Classify(lines[k]) != SourceEntry(Some(f))
    requires Classify(lines[i]) == SourceEntry(Some(f))
    ensures KeptAt(lines, i)
  {
    forall j | 0 <= j < i && Classify(lines[j]) == SourceEntry(Some(f))
      ensures !NoEndBetween(lines, j, i)
    {
      assert j < e && j < e < i && Classify(lines[e]).PhaseEnd?;
    }
    assert !SeenRef(lines, i, f);
    KeptAtMeaning(lines, i);
  }

  /** Running the filter from any state over its own output from that state drops nothing
      and ends in the same state; the proof follows the loop line by line. */
  lemma {:induction false} ScanOwnOutput(ph: Phase, lines: seq<string>)
    ensures Scan(ph, Scan(ph, lines).lines) == Outcome(Scan(ph, lines).lines, 0)
    decreases |lines|
  {
    if |lines| > 0 {
      var d := Step(ph, lines[0]);
      ScanOwnOutput(d.next, lines[1..]);
      var out := Scan(ph, lines).lines;
      if d.keep {
        assert out[0] == lines[0] && out[1..] == Scan(d.next, lines[1..]).lines;
      }
    }
  }

  /** Idempotence: a second run over the output removes nothing and returns the same lines. */
  lemma DedupIdempotent(lines: seq<string>)
    ensures Dedup(Dedup(lines).lines) == Outcome(Dedup(lines).lines, 0)
  {
    ScanOwnOutput(Initial, lines);
  }

  /** A section listing A, B, A, C keeps A, B, C and reports one removal. */
  lemma FirstOccurrenceKeptScenario(
    begin: string, a1: string, b: string, a2: string, c: string, end: string,
    fa: string, fb: string, fc: string)
    requires Classify(begin) == PhaseBegin && Classify(end) == PhaseEnd
    requires Classify(a1) == SourceEntry(Some(fa)) && Classify(a2) == SourceEntry(Some(fa))
    requires Classify(b) == SourceEntry(Some(fb)) && Classify(c) == SourceEntry(Some(fc))
    requires fa != fb && fa != fc && fb != fc
    ensures Dedup([begin, a1, b, a2, c, end]) == Outcome([begin, a1, b, c, end], 1)
  {
    var p1 := Phase(true, {});
    var p2 := Phase(true, {fa});
    var p3 := Phase(true, {fa, fb});
    var p4 := Phase(true, {fa, fb, fc});
    ScenarioSteps(begin, a1, b, a2, c, end, fa, fb, fc);
    var t3 := [a2, c, end];
    var t2 := [b] + t3;
    var t1 := [a1] + t2;
    ScenarioSuffix(a2, c, end, fa, fb, fc);
    ScanCons(p2, b, t3);
    ScanCons(p1, a1, t2);
    ScanCons(Initial, begin, t1);
    assert [begin] + t1 == [begin, a1, b, a2, c, end];
    assert [begin] + ([a1] + ([b] + [c, end])) == [begin, a1, b, c, end];
  }

  /** The last three lines of the scenario: the repeated entry is the one dropped. */
  lemma ScenarioSuffix(a2: string, c: string, end: string, fa: string, fb: string, fc: string)
    requires Step(Phase(true, {fa, fb}), a2) == Decision(false, Phase(true, {fa, fb}))
    requires Step(Phase(true, {fa, fb}), c) == Decision(true, Phase(true, {fa, fb, fc}))
    requires Step(Phase(true, {fa, fb, fc}), end) == Decision(true, Initial)
    ensures Scan(Phase(true, {fa, fb}), [a2, c, end]) == Outcome([c, end], 1)
  {
    var t5: seq<string> := [end];
    var t4 := [c] + t5;
    ScanCons(Phase(true, {fa, fb, fc}), end, []);
    assert Scan(Phase(true, {fa, fb, fc}), t5) == Outcome(t5, 0);
    ScanCons(Phase(true, {fa, fb}), c, t5);
    ScanCons(Phase(true, {fa, fb}), a2, t4);
    assert [a2] + t4 == [a2, c, end];
  }

  /** The state after each line of the scenario above. */
  lemma ScenarioSteps(
    begin: string, a1: string, b: string, a2: string, c: string, end: string,
    fa: string, fb: string, fc: string)
    requires Classify(begin) == PhaseBegin && Classify(end) == PhaseEnd
    requires Classify(a1) == SourceEntry(Some(fa)) && Classify(a2) == SourceEntry(Some(fa))
    requires Classify(b) == SourceEntry(Some(fb)) && Classify(c) == SourceEntry(Some(fc))
    requires fa != fb && fa != fc && fb != fc
    ensures Step(Initial, begin) == Decision(true, Phase(true, {}))
    ensures Step(Phase(true, {}), a1) == Decision(true, Phase(true, {fa}))
    ensures Step(Phase(true, {fa}), b) == Decision(true, Phase(true, {fa, fb}))
    ensures Step(Phase(true, {fa, fb}), a2) == Decision(false, Phase(true, {fa, fb}))
    ensures Step(Phase(true, {fa, fb}), c) == Decision(true, Phase(true, {fa, fb, fc}))
    ensures Step(Phase(true, {fa, fb, fc}), end) == Decision(true, Initial)
  {
    assert {fa} + {fb} == {fa, fb};
    assert {fa, fb} + {fc} == {fa, fb, fc};
  }

  /** Scanning a line followed by more lines. */
  lemma ScanCons(ph: Phase, line: string, rest: seq<string>)
    ensures var d := Step(ph, line);
            var o := Scan(d.next, rest);
            Scan(ph, [line] + rest) == if d.keep then Outcome([line] + o.lines, o.removed)
                                       else Outcome(o.lines, o.removed + 1)
  {
    assert ([line] + rest)[0] == line && ([line] + rest)[1..] == rest;
  }

  /** The seen set is cleared only by an End line: a second Begin without an End in
      between continues the same section, so a name listed before it is still a duplicate. */
  lemma SecondBeginKeepsSeenSet(begin1: string, a1: string, begin2: string, a2: string, fa: string)
    requires Classify(begin1) == PhaseBegin && Classify(begin2) == PhaseBegin
    requires Classify(a1) == SourceEntry(Some(fa)) && Classify(a2) == SourceEntry(Some(fa))
    ensures Dedup([begin1, a1, begin2, a2]) == Outcome([begin1, a1, begin2], 1)
  {
    var seen := Phase(true, {fa});
    ScanCons(seen, a2, []);
    ScanCons(seen, begin2, [a2]);
    ScanCons(Phase(true, {}), a1, [begin2, a2]);
    ScanCons(Initial, begin1, [a1, begin2, a2]);
    assert [begin1] + [a1, begin2, a2] == [begin1, a1, begin2, a2];
    assert [begin1] + ([a1] + [begin2]) == [begin1, a1, begin2];
  }

  // A build-file line "PREFIX/* NAME in Sources */SUFFIX" without either marker is an
  // entry naming NAME, when no match of the pattern starts inside PREFIX and no proper
  // prefix of NAME is itself followed by " in Sources */".
  lemma EntryLineClassified(prefix: string, name: string, suffix: string)
    requires |name| >= 1 && NoNewline(name)
    requires var line := prefix + CommentOpen + name + SourcesClose + suffix;
             forall i, k :: 0 <= i < |prefix| ==> !IsMatch(line, i, k)
    requires var line := prefix + CommentOpen + name + SourcesClose + suffix;
             forall j :: |prefix| + |CommentOpen| < j < |prefix| + |CommentOpen| + |name| ==>
               !OccursAt(line, j, SourcesClose)
    requires var line := prefix + CommentOpen + name + SourcesClose + suffix;
             !Contains(line, BeginMarker) && !Contains(line, EndMarker)
    ensures Classify(prefix + CommentOpen + name + SourcesClose + suffix) == SourceEntry(Some(name))
  {
    ExtractFromEntry(prefix, name, suffix);
    ExtractedNameIsInComment(prefix + CommentOpen + name + SourcesClose + suffix);
  }
}
