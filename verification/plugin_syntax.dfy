/** The two regular expressions of plugin-template/scripts/validate_plugin.py,
    written as hand-made recognisers with a parse/render round trip each:

      plugin id  ^[a-z][a-z0-9]*(\.[a-z][a-z0-9]*)+$
      version    ^\d+\.\d+\.\d+(-[a-zA-Z0-9]+)?$

    Every character class here excludes '.', '-' and newline, so the greedy
    repetitions never need to give characters back and a left-to-right scan
    decides the match. Python's `$` also matches just before a final newline,
    and Python 3's `\d` matches every Unicode decimal digit; both are modelled. */
module PluginSyntax {
  import opened Basics

  predicate IsLowerLetter(c: char) { 'a' <= c <= 'z' }

  predicate IsIdChar(c: char) { IsLowerLetter(c) || '0' <= c <= '9' }

  predicate IsAsciiAlnum(c: char) { 'a' <= c <= 'z' || 'A' <= c <= 'Z' || '0' <= c <= '9' }

  /** First code points of the runs of ten non-ASCII decimal digits (Unicode
      general category Nd, Unicode 15.0 as shipped with Python 3.12); the run of
      fifty mathematical digits at U+1D7CE is listed as five runs of ten. */
  const OtherDigitRuns: seq<int> := [
    0x660, 0x6F0, 0x7C0, 0x966, 0x9E6, 0xA66, 0xAE6, 0xB66,
    0xBE6, 0xC66, 0xCE6, 0xD66, 0xDE6, 0xE50, 0xED0, 0xF20,
    0x1040, 0x1090, 0x17E0, 0x1810, 0x1946, 0x19D0, 0x1A80, 0x1A90,
    0x1B50, 0x1BB0, 0x1C40, 0x1C50, 0xA620, 0xA8D0, 0xA900, 0xA9D0,
    0xA9F0, 0xAA50, 0xABF0, 0xFF10, 0x104A0, 0x10D30, 0x11066, 0x110F0,
    0x11136, 0x111D0, 0x112F0, 0x11450, 0x114D0, 0x11650, 0x116C0, 0x11730,
    0x118E0, 0x11950, 0x11C50, 0x11D50, 0x11DA0, 0x11F50, 0x16A60, 0x16AC0,
    0x16B50, 0x1D7CE, 0x1D7D8, 0x1D7E2, 0x1D7EC, 0x1D7F6, 0x1E140, 0x1E2F0,
    0x1E4F0, 0x1E950, 0x1FBF0]

  /** Python 3's `\d` on str: an ASCII digit or a non-ASCII decimal digit. */
  predicate IsDecimalDigit(c: char)
  {
    ('0' <= c <= '9') || IsOtherDigit(c as int)
  }

  /** `n` lies in one of the runs above (all of which start at or after U+0660). */
  predicate IsOtherDigit(n: int)
  {
    0x660 <= n && InDigitRuns(n, 0)
  }

  /** `n` lies in one of the runs from index `k` of the table on. */
  predicate InDigitRuns(n: int, k: nat)
    decreases |OtherDigitRuns| - k
  {
    k < |OtherDigitRuns| && (OtherDigitRuns[k] <= n < OtherDigitRuns[k] + 10 || InDigitRuns(n, k + 1))
  }

  /** The character classes the patterns repeat with `+` and `*`. */
  datatype CharClass = Digits | AsciiAlnum | IdChars

  predicate InClass(cls: CharClass, c: char)
  {
    match cls
    case Digits => IsDecimalDigit(c)
    case AsciiAlnum => IsAsciiAlnum(c)
    case IdChars => IsIdChar(c)
  }

  /** The end of the longest run of characters of class `cls` that starts at `i`. */
  function SpanEnd(s: string, i: nat, cls: CharClass): (e: nat)
    requires i <= |s|
    ensures i <= e <= |s|
    ensures forall k :: i <= k < e ==> InClass(cls, s[k])
    ensures e < |s| ==> !InClass(cls, s[e])
    decreases |s| - i
  {
    if i == |s| || !InClass(cls, s[i]) then i else SpanEnd(s, i + 1, cls)
  }

  /** A run end is determined by where the run stops. */
  lemma SpanEndAt(s: string, i: nat, cls: CharClass, e: nat)
    requires i <= e <= |s|
    requires forall k :: i <= k < e ==> InClass(cls, s[k])
    requires e < |s| ==> !InClass(cls, s[e])
    ensures SpanEnd(s, i, cls) == e
  {
  }

  /** Python's `re.match(pattern + '$', s)` for a body that can never consume a newline. */
  predicate EndAnchored(s: string, body: string -> bool)
  {
    body(s) || (|s| > 0 && s[|s| - 1] == '\n' && body(s[..|s| - 1]))
  }

  // ---------------------------------------------------------------------------
  // Plugin ids: reverse-domain names such as "com.example.radar".

  predicate IsIdSegment(w: string)
  {
    |w| >= 1 && IsLowerLetter(w[0]) && forall k :: 1 <= k < |w| ==> IsIdChar(w[k])
  }

  predicate AllIdSegments(ws: seq<string>)
  {
    forall k :: 0 <= k < |ws| ==> IsIdSegment(ws[k])
  }

  function JoinDots(ws: seq<string>): string
    requires |ws| >= 1
    decreases |ws|
  {
    if |ws| == 1 then ws[0] else ws[0] + "." + JoinDots(ws[1..])
  }

  /** `[a-z][a-z0-9]*(\.[a-z][a-z0-9]*)*`, returning the segments it read. */
  function ParseSegments(s: string): (r: Option<seq<string>>)
    ensures r.Some? ==> |r.value| >= 1 && AllIdSegments(r.value) && JoinDots(r.value) == s
    decreases |s|
  {
    if |s| == 0 || !IsLowerLetter(s[0]) then None
    else
      var e := SpanEnd(s, 1, IdChars);
      if e == |s| then Some([s])
      else if s[e] != '.' then None
      else
        match ParseSegments(s[e + 1..])
        case None => None
        case Some(rest) =>
          assert ([s[..e]] + rest)[1..] == rest;
          assert s == s[..e] + "." + s[e + 1..];
          Some([s[..e]] + rest)
  }

  /** The plugin-id pattern without its `$`: at least two segments. */
  predicate MatchesPluginIdBody(s: string)
  {
    var r := ParseSegments(s);
    r.Some? && |r.value| >= 2
  }

  lemma {:induction false} ParseSegmentsOfJoin(ws: seq<string>)
    requires |ws| >= 1 && AllIdSegments(ws)
    ensures ParseSegments(JoinDots(ws)) == Some(ws)
    decreases |ws|
  {
    var s := JoinDots(ws);
    var w := ws[0];
    assert IsIdSegment(w);
    if |ws| == 1 {
      SpanEndAt(s, 1, IdChars, |s|);
      assert ws == [w];
    } else {
      var tail := JoinDots(ws[1..]);
      assert AllIdSegments(ws[1..]) by {
        forall k | 0 <= k < |ws[1..]| ensures IsIdSegment(ws[1..][k]) {
          assert ws[1..][k] == ws[k + 1];
        }
      }
      ParseSegmentsOfJoin(ws[1..]);
      DotLayout(w, tail);
      assert s[1..|w|] == w[1..];
      RunEnd(s, 1, |w|, IdChars);
      assert [w] + ws[1..] == ws;
    }
  }

  /** Where the parts of `w + "." + tail` sit in the text. */
  lemma DotLayout(w: string, tail: string)
    ensures var s := w + "." + tail;
            s[..|w|] == w && s[|w|] == '.' && s[|w| + 1..] == tail
  {
    var x := w + ".";
    assert x[..|w|] == w;
    assert (x + tail)[..|x|] == x && (x + tail)[|x|..] == tail;
  }

  /** What the id regex accepts: two or more segments, each a lowercase letter
      followed by lowercase letters and digits, joined by single dots. */
  ghost predicate IsDottedId(s: string)
  {
    exists ws :: |ws| >= 2 && AllIdSegments(ws) && JoinDots(ws) == s
  }

  lemma PluginIdBodyMeaning(s: string)
    ensures MatchesPluginIdBody(s) <==> IsDottedId(s)
  {
    if IsDottedId(s) {
      var ws :| |ws| >= 2 && AllIdSegments(ws) && JoinDots(ws) == s;
      ParseSegmentsOfJoin(ws);
    }
  }

  // ---------------------------------------------------------------------------
  // Versions: MAJOR.MINOR.PATCH with an optional single pre-release identifier.

  datatype Version = Version(major: string, minor: string, patch: string, prerelease: Option<string>)

  predicate IsDigitRun(w: string)
  {
    |w| >= 1 && forall k :: 0 <= k < |w| ==> IsDecimalDigit(w[k])
  }

  predicate IsAlnumRun(w: string)
  {
    |w| >= 1 && forall k :: 0 <= k < |w| ==> IsAsciiAlnum(w[k])
  }

  predicate WellFormedVersion(v: Version)
  {
    && IsDigitRun(v.major) && IsDigitRun(v.minor) && IsDigitRun(v.patch)
    && (v.prerelease.Some? ==> IsAlnumRun(v.prerelease.value))
  }

  function ReleaseSuffix(pre: Option<string>): string
  {
    match pre case None => "" case Some(p) => "-" + p
  }

  function RenderVersion(v: Version): string
  {
    v.major + "." + v.minor + "." + v.patch + ReleaseSuffix(v.prerelease)
  }

  /** `\d+` at index `i` followed by `sep`: the index of the separator. Since `sep` is
      not a digit, the only candidate is the end of the digit run starting at `i`. */
  function NumberThen(s: string, i: nat, sep: char): (r: Option<nat>)
    requires i <= |s| && !IsDecimalDigit(sep)
    ensures r.Some? ==> && i < r.value < |s| && s[r.value] == sep
                        && forall k :: i <= k < r.value ==> IsDecimalDigit(s[k])
    ensures r.None? ==> forall e :: i < e < |s| && s[e] == sep ==>
                          exists k :: i <= k < e && !IsDecimalDigit(s[k])
  {
    var e := SpanEnd(s, i, Digits);
    if i < e < |s| && s[e] == sep then Some(e)
    else
      NoNumberBefore(s, i, sep);
      None
  }

  /** When the digit run from `i` is empty or is not followed by `sep`, no later `sep`
      is preceded by digits only. */
  lemma NoNumberBefore(s: string, i: nat, sep: char)
    requires i <= |s| && !IsDecimalDigit(sep)
    requires var e := SpanEnd(s, i, Digits); !(i < e < |s| && s[e] == sep)
    ensures forall e :: i < e < |s| && s[e] == sep ==> exists k :: i <= k < e && !IsDecimalDigit(s[k])
  {
    var end := SpanEnd(s, i, Digits);
    forall e | i < e < |s| && s[e] == sep
      ensures exists k :: i <= k < e && !IsDecimalDigit(s[k])
    {
      if end < e {
        assert !InClass(Digits, s[end]);
      }
    }
  }

  /** `(-[a-zA-Z0-9]+)?` at index `c`, followed by the end of the text. */
  function ParseRelease(s: string, c: nat): Option<Option<string>>
    requires c <= |s|
  {
    if c == |s| then Some(None)
    else if s[c] != '-' then None
    else
      var d := SpanEnd(s, c + 1, AsciiAlnum);
      if d == c + 1 || d != |s| then None
      else Some(Some(s[c + 1..]))
  }

  /** An accepted suffix is a well-formed pre-release tag and renders back to the text it was read from. */
  lemma ParseReleaseSound(s: string, c: nat)
    requires c <= |s| && ParseRelease(s, c).Some?
    ensures var pre := ParseRelease(s, c).value;
            && (pre.Some? ==> IsAlnumRun(pre.value))
            && s[c..] == ReleaseSuffix(pre)
  {
    if c < |s| {
      var t := s[c + 1..];
      assert s[c..] == "-" + t;
      forall k | 0 <= k < |t|
        ensures IsAsciiAlnum(t[k])
      {
        assert InClass(AsciiAlnum, s[c + 1 + k]);
      }
    }
  }

  /** `\d+\.\d+\.\d+(-[a-zA-Z0-9]+)?` over the whole string, returning its parts. */
  function ParseVersion(s: string): Option<Version>
  {
    match NumberThen(s, 0, '.')
    case None => None
    case Some(a) =>
      match NumberThen(s, a + 1, '.')
      case None => None
      case Some(b) =>
        var c := SpanEnd(s, b + 1, Digits);
        if c == b + 1 then None
        else
          match ParseRelease(s, c)
          case None => None
          case Some(pre) => Some(Version(s[..a], s[a + 1..b], s[b + 1..c], pre))
  }

  /** Only renderings of well-formed versions are accepted, and the parts read back
      render to the input. */
  lemma ParseVersionSound(s: string)
    requires ParseVersion(s).Some?
    ensures WellFormedVersion(ParseVersion(s).value)
    ensures RenderVersion(ParseVersion(s).value) == s
  {
    var a := NumberThen(s, 0, '.').value;
    var b := NumberThen(s, a + 1, '.').value;
    var c := SpanEnd(s, b + 1, Digits);
    var pre := ParseRelease(s, c).value;
    assert ParseVersion(s).value == Version(s[..a], s[a + 1..b], s[b + 1..c], pre);
    ParseReleaseSound(s, c);
    DigitRunSlice(s, 0, a);
    DigitRunSlice(s, a + 1, b);
    DigitRunSlice(s, b + 1, c);
    ReassembleVersion(s, a, b, c);
  }

  /** The characters between a run's start and end form a digit run. */
  lemma DigitRunSlice(s: string, i: nat, j: nat)
    requires i < j <= |s|
    requires forall k :: i <= k < j ==> IsDecimalDigit(s[k])
    ensures IsDigitRun(s[i..j])
  {
    forall k | 0 <= k < j - i
      ensures IsDecimalDigit(s[i..j][k])
    {
      assert s[i..j][k] == s[i + k];
    }
  }

  /** Cutting the text at its two dots and putting the pieces back together gives the text. */
  lemma ReassembleVersion(s: string, a: nat, b: nat, c: nat)
    requires a < b < c <= |s| && s[a] == '.' && s[b] == '.'
    ensures s[..a] + "." + s[a + 1..b] + "." + s[b + 1..c] + s[c..] == s
  {
    assert s[..a] + "." == s[..a + 1];
    assert s[..a + 1] + s[a + 1..b] == s[..b];
    assert s[..b] + "." == s[..b + 1];
    assert s[..b + 1] + s[b + 1..c] == s[..c];
    assert s[..c] + s[c..] == s;
  }

  lemma ParseReleaseOfRender(core: string, pre: Option<string>)
    requires pre.Some? ==> IsAlnumRun(pre.value)
    ensures ParseRelease(core + ReleaseSuffix(pre), |core|) == Some(pre)
  {
    if pre.Some? {
      var x := core + "-";
      var s := x + pre.value;
      assert core + ReleaseSuffix(pre) == s;
      assert s[|core|] == '-' && s[|x|..] == s[|x|..|s|] == pre.value;
      RunEnd(s, |x|, |s|, AsciiAlnum);
    }
  }

  /** The parser's decisions, given where the runs of the text end. */
  lemma ParseVersionFromRuns(s: string, a: nat, b: nat, c: nat, pre: Option<string>)
    requires NumberThen(s, 0, '.') == Some(a) && NumberThen(s, a + 1, '.') == Some(b)
    requires b + 1 < c == SpanEnd(s, b + 1, Digits)
    requires ParseRelease(s, c) == Some(pre)
    ensures ParseVersion(s) == Some(Version(s[..a], s[a + 1..b], s[b + 1..c], pre))
  {
  }

  /** Every well-formed version is accepted and read back into the same parts. */
  lemma ParseVersionOfRender(v: Version)
    requires WellFormedVersion(v)
    ensures ParseVersion(RenderVersion(v)) == Some(v)
  {
    var s := RenderVersion(v);
    var a := |v.major|;
    var b := a + 1 + |v.minor|;
    var c := b + 1 + |v.patch|;
    RenderedRuns(v);
    ParseReleaseOfRender(s[..c], v.prerelease);
    ParseVersionFromRuns(s, a, b, c, v.prerelease);
  }

  /** In a rendered version the three digit runs end exactly at the part boundaries. */
  lemma RenderedRuns(v: Version)
    requires WellFormedVersion(v)
    ensures var s := RenderVersion(v);
            var a := |v.major|;
            var b := a + 1 + |v.minor|;
            var c := b + 1 + |v.patch|;
            && c <= |s|
            && NumberThen(s, 0, '.') == Some(a)
            && NumberThen(s, a + 1, '.') == Some(b)
            && SpanEnd(s, b + 1, Digits) == c
            && s[..a] == v.major && s[a + 1..b] == v.minor && s[b + 1..c] == v.patch
            && s[..c] + ReleaseSuffix(v.prerelease) == s
  {
    var s := RenderVersion(v);
    var tail := ReleaseSuffix(v.prerelease);
    var a := |v.major|;
    var b := a + 1 + |v.minor|;
    var c := b + 1 + |v.patch|;
    VersionLayout(v.major, v.minor, v.patch, tail);
    DigitRunEnd(s, 0, a, v.major);
    DigitRunEnd(s, a + 1, b, v.minor);
    assert c < |s| ==> s[c] == '-';
    DigitRunEnd(s, b + 1, c, v.patch);
  }

  /** A digit run followed by a dot, a hyphen or the end of the text ends there. */
  lemma DigitRunEnd(s: string, i: nat, j: nat, w: string)
    requires i <= j <= |s| && s[i..j] == w && IsDigitRun(w)
    requires j < |s| ==> s[j] == '.' || s[j] == '-'
    ensures SpanEnd(s, i, Digits) == j
  {
    assert !IsDecimalDigit('.') && !IsDecimalDigit('-');
    RunEnd(s, i, j, Digits);
  }

  /** Where each part of a rendered version sits in the text. */
  lemma VersionLayout(major: string, minor: string, patch: string, tail: string)
    ensures var s := major + "." + minor + "." + patch + tail;
            var a := |major|;
            var b := a + 1 + |minor|;
            var c := b + 1 + |patch|;
            && |s| == c + |tail|
            && s[..a] == major && s[a] == '.'
            && s[a + 1..b] == minor && s[b] == '.'
            && s[b + 1..c] == patch
            && s[..c] + tail == s
            && (|tail| > 0 ==> s[c] == tail[0])
  {
    var x1 := major + ".";
    var x2 := x1 + minor;
    var x3 := x2 + ".";
    var x4 := x3 + patch;
    var s := x4 + tail;
    assert s[..|x4|] == x4;
    assert x4[..|x3|] == x3 && x4[|x3|..] == patch;
    assert x3[..|x2|] == x2;
    assert x2[..|x1|] == x1 && x2[|x1|..] == minor;
    assert x1[..|major|] == major;
  }

  /** A run of `p` characters from `i` to `j` that stops at `j` ends at `j`. */
  lemma RunEnd(s: string, i: nat, j: nat, cls: CharClass)
    requires i <= j <= |s|
    requires forall k :: 0 <= k < j - i ==> InClass(cls, s[i..j][k])
    requires j < |s| ==> !InClass(cls, s[j])
    ensures SpanEnd(s, i, cls) == j
  {
    forall k | i <= k < j
      ensures InClass(cls, s[k])
    {
      assert s[k] == s[i..j][k - i];
    }
    SpanEndAt(s, i, cls, j);
  }

  /** What the version regex accepts without its `$`: the rendering of a well-formed version. */
  ghost predicate IsVersionText(s: string)
  {
    exists v :: WellFormedVersion(v) && RenderVersion(v) == s
  }

  lemma VersionBodyMeaning(s: string)
    ensures ParseVersion(s).Some? <==> IsVersionText(s)
  {
    if IsVersionText(s) {
      var v :| WellFormedVersion(v) && RenderVersion(v) == s;
      ParseVersionOfRender(v);
    }
    if ParseVersion(s).Some? {
      ParseVersionSound(s);
    }
  }
}
