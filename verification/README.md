# omniTAK helper scripts in Dafny

This project models two small Python scripts from the omniTAK mobile repository.

- **`apps/omnitak/fix_duplicates.py`** cleans an Xcode `project.pbxproj` file.
  - Inside each `PBXSourcesBuildPhase` section, a build-file line whose
    `/* NAME in Sources */` comment repeats a NAME already listed in that section is dropped.
  - The script also counts how many lines it dropped.
  - Files: `basics.dfy`, `source_comment.dfy` (the filename regular expression) and
    `sources_dedup.dfy` (the line loop).
- **`plugin-template/scripts/validate_plugin.py`** checks a plugin.
  - It checks the parsed `plugin.json` manifest field by field: required fields, id format,
    version format, permission allow-list, iOS platform, iOS entry point and plugin type.
    It stops at the first failure.
  - It then checks that four required files exist.
  - Its exit status is 0 or 1.
  - Files: `plugin_syntax.dfy` (the id and version regular expressions) and
    `plugin_validator.dfy` (the checks and the exit status).

Three design points:

- **Regular expressions.** Each one is written as a recogniser and given an independent
  description: the captured filename is the leftmost, then shortest, match.
  - A plugin id is a dot-join of at least two segments.
  - A version is the rendering of a well-formed `Version` record.
  - Parse/render round trips connect each recogniser to its description.
- **Python's regex details are kept.**
  - `$` also accepts one final newline.
  - `\d` accepts every Unicode decimal digit.
  - `.` does not cross a newline.
- **The line loop** is a fold (`Scan`) over a `Phase` state. The per-line view connects it to
  definitions stated on positions only:
  - "inside a section";
  - "already seen in this section";
  - "is a duplicate".

The seen names are cleared only on the `End PBXSourcesBuildPhase` line, not when a section
begins (`SourcesDedup.SecondBeginKeepsSeenSet`).

## Model

| member | source | states |
|---|---|---|
| SourceComment.ExtractFilename | apps/omnitak/fix_duplicates.py:46-48 | There is no filename exactly when no "/* NAME in Sources */" match exists anywhere in the line. A returned filename is the capture of some match. |
| SourceComment.ShortestFrom | apps/omnitak/fix_duplicates.py:46 | The lazy `(.+?)` at a fixed opener takes the shortest capture that is followed by " in Sources */". It answers None when no capture there works, for example because a newline comes first. |
| SourceComment.SearchFrom | apps/omnitak/fix_duplicates.py:46 | `re.search` picks the leftmost opener at which a match exists. No earlier start matches, and no shorter capture at that start matches. |
| SourceComment.ExtractIsLeftmostShortest | apps/omnitak/fix_duplicates.py:46 | Any match of the pattern starts after the chosen one, or starts at the same place and is at least as long. |
| SourceComment.ExtractedNameIsInComment | apps/omnitak/fix_duplicates.py:44-48 | An extracted filename is non-empty and has no newline. Its line contains "/* " and " in Sources */". |
| SourceComment.NoOpenerNoFilename | apps/omnitak/fix_duplicates.py:46-47 | A line without "/* " yields no filename. |
| SourceComment.ExtractFromEntry | apps/omnitak/fix_duplicates.py:46-48 | On "PREFIX/* NAME in Sources */SUFFIX", with NAME non-empty and newline-free, the captured filename is NAME. This holds when no match of the pattern starts inside PREFIX and no proper prefix of NAME is followed by " in Sources */". |
| SourcesDedup.Step | apps/omnitak/fix_duplicates.py:29-58 | One loop iteration drops a line only when the line is a section entry and the loop is inside a section. A dropped line leaves the state unchanged. |
| SourcesDedup.ProcessLine | apps/omnitak/fix_duplicates.py:29-58 | The loop body, with its in-phase flag and seen set, takes the same decision and reaches the same next state as `Step`. |
| SourcesDedup.Scan | apps/omnitak/fix_duplicates.py:29-58 | Kept lines plus removals equal the number of input lines. The kept lines are a subsequence of the input. |
| SourcesDedup.Dedup | apps/omnitak/fix_duplicates.py:24-58 | The removal count is the number of input lines minus the number of output lines. The output is a subsequence of the input. |
| SourcesDedup.FixDuplicateBuildFiles | apps/omnitak/fix_duplicates.py:24-58 | The imperative loop produces the same lines and the same removal count as the fold `Dedup`. |
| SourcesDedup.ThenAdvance | apps/omnitak/fix_duplicates.py:29-58 | Processing one line either appends it to the written lines or adds one to the removal count. The rest of the run continues from the next state. |
| SourcesDedup.DedupSelectsKeptLines | apps/omnitak/fix_duplicates.py:29-58 | The output is exactly the input lines whose per-line decision is "keep", in their original order. |
| SourcesDedup.PhaseBeforeMeaning | apps/omnitak/fix_duplicates.py:31-50 | Before line i, the flag is true exactly when some Begin line precedes i with no End after it. The seen set holds exactly the names of section entries met since the last End. |
| SourcesDedup.KeptAtMeaning | apps/omnitak/fix_duplicates.py:44-58 | Line i is dropped if and only if it is an entry inside a section whose filename was already listed earlier in that section. |
| SourcesDedup.MarkersAndOutsideLinesKept | apps/omnitak/fix_duplicates.py:31-41 | Begin lines, End lines and lines outside every section are always kept. |
| SourcesDedup.UnmatchedEntryKept | apps/omnitak/fix_duplicates.py:55-56 | Every line on which the filename pattern finds no match is kept, even inside a section. |
| SourcesDedup.InSourcesPersists | apps/omnitak/fix_duplicates.py:31-41 | Once inside a section, the loop stays inside until an End line. |
| SourcesDedup.NoRepeatWithinRegion | apps/omnitak/fix_duplicates.py:44-54 | Two kept entries of a section that carry the same filename always have an End line between them. |
| SourcesDedup.RepeatInLaterRegionKept | apps/omnitak/fix_duplicates.py:37-41 | After an End line, the first entry naming a file is kept, whatever came before that End. |
| SourcesDedup.ScanOwnOutput | apps/omnitak/fix_duplicates.py:29-58 | Running the loop again, from the same state, over its own output drops nothing. |
| SourcesDedup.DedupIdempotent | apps/omnitak/fix_duplicates.py:24-58 | A second run over the fixed file removes nothing and returns the same lines. |
| SourcesDedup.FirstOccurrenceKeptScenario | apps/omnitak/fix_duplicates.py:44-54 | A section listing A, B, A, C keeps A, B, C and reports one removal. |
| SourcesDedup.SecondBeginKeepsSeenSet | apps/omnitak/fix_duplicates.py:31-34 | A second Begin line without an End in between does not clear the seen names. A name listed before it is still dropped. |
| SourcesDedup.EntryLineClassified | apps/omnitak/fix_duplicates.py:44-48 | A line "PREFIX/* NAME in Sources */SUFFIX" without either marker is treated as an entry naming NAME. NAME must be non-empty and newline-free, no match of the pattern may start inside PREFIX, and no proper prefix of NAME may be followed by " in Sources */". |
| PluginSyntax.SpanEnd | plugin-template/scripts/validate_plugin.py:13 | Returns the end of the longest run of one character class. Every character before it is in the class, and the character at it is not. |
| PluginSyntax.ParseSegments | plugin-template/scripts/validate_plugin.py:13 | A successful parse returns lower-case segments that join with dots back to the input. |
| PluginSyntax.ParseSegmentsOfJoin | plugin-template/scripts/validate_plugin.py:13 | Joining any well-formed segments with dots and parsing the result returns those segments. |
| PluginSyntax.PluginIdBodyMeaning | plugin-template/scripts/validate_plugin.py:13 | The id recogniser accepts a string exactly when the string is a dot-join of at least two segments, each of the form `[a-z][a-z0-9]*`. |
| PluginSyntax.NumberThen | plugin-template/scripts/validate_plugin.py:20 | For a non-digit separator: a result is an index holding the separator, after a non-empty run of decimal digits. No result means every later occurrence of the separator has a non-digit somewhere before it. |
| PluginSyntax.ParseReleaseSound | plugin-template/scripts/validate_plugin.py:20 | An accepted optional suffix is "-" followed by ASCII letters and digits, running to the end of the string. |
| PluginSyntax.ParseVersionSound | plugin-template/scripts/validate_plugin.py:20 | An accepted version parses into three digit runs and an optional alphanumeric release tag, and renders back to the input. |
| PluginSyntax.ParseVersionOfRender | plugin-template/scripts/validate_plugin.py:20 | Rendering any well-formed version and parsing the text gives the same version back. |
| PluginSyntax.VersionBodyMeaning | plugin-template/scripts/validate_plugin.py:20 | The version recogniser accepts a string exactly when it is the rendering of a well-formed version. |
| PluginValidator.AsPair | plugin-template/scripts/validate_plugin.py:14-16 | The `(valid, error)` pair is `(True, None)` exactly for a valid verdict. Otherwise the error is the failure's message. |
| PluginValidator.ValidatePluginId | plugin-template/scripts/validate_plugin.py:11-16 | An id is valid if and only if it is a dotted id, optionally followed by one final newline. Otherwise the failure names the id. |
| PluginValidator.PluginIdAnchoredMeaning | plugin-template/scripts/validate_plugin.py:13-14 | `re.match` with the `$`-anchored id pattern accepts a string exactly when it is a dotted id, optionally followed by one final newline. |
| PluginValidator.ValidateVersion | plugin-template/scripts/validate_plugin.py:18-23 | A version is valid if and only if it is a rendered well-formed version, optionally followed by one final newline. Otherwise the failure names the version. |
| PluginValidator.VersionAnchoredMeaning | plugin-template/scripts/validate_plugin.py:20-21 | `re.match` with the `$`-anchored version pattern accepts a string exactly when it is a rendered well-formed version, optionally followed by one final newline. |
| PluginValidator.TwoPartVersionRejected | plugin-template/scripts/validate_plugin.py:20-22 | "1.2" is rejected as a version. |
| PluginValidator.ValidatePermissions | plugin-template/scripts/validate_plugin.py:25-48 | Valid if and only if every permission is on the allow-list of 14. Otherwise the first permission, in list order, that is not on it is reported. |
| PluginValidator.UnknownPermissionRejected | plugin-template/scripts/validate_plugin.py:44-46 | In ["network.access", "root.access"], "root.access" is the permission reported. |
| PluginValidator.ValidateManifest | plugin-template/scripts/validate_plugin.py:50-91 | Valid if and only if all seven checks pass. Otherwise the result is the first failing check in source order, and it names the offending value: missing field, id, version, permission or type. |
| PluginValidator.CheckIdentity | plugin-template/scripts/validate_plugin.py:63-71 | Once all fields are present, the id check comes before the version check, and both come before the later checks. |
| PluginValidator.CheckCapabilities | plugin-template/scripts/validate_plugin.py:73-91 | The checks run in this order: permissions, then "ios" in platforms, then an "ios" entry point, then the plugin type. |
| PluginValidator.PassesChecksSplit | plugin-template/scripts/validate_plugin.py:58-91 | A range of checks passes exactly when its first check passes and the rest of the range passes. |
| PluginValidator.MissingVersionReported | plugin-template/scripts/validate_plugin.py:52-61 | With "id" and "name" present and "version" absent, the missing "version" field is what gets reported. |
| PluginValidator.ExampleManifestValid | plugin-template/scripts/validate_plugin.py:50-91 | A complete manifest with id "com.example.radar" and version "1.0.0" passes. |
| PluginValidator.AndroidOnlyRejected | plugin-template/scripts/validate_plugin.py:78-80 | The same manifest declaring only "android" fails with "iOS platform not supported". |
| PluginValidator.ValidateStructure | plugin-template/scripts/validate_plugin.py:93-106 | Valid if and only if all four required files exist. Otherwise the first missing one, in list order, is reported. |
| PluginValidator.RunValidation | plugin-template/scripts/validate_plugin.py:108-145 | The exit status is 0 or 1. It is 0 exactly when plugin.json was read and decoded, every manifest check passes, and every required file exists. |
| PluginValidator.CompletePluginSucceeds | plugin-template/scripts/validate_plugin.py:124-145 | The example manifest, with all required files present, gives exit status 0. |

## Left out

- Backup and I/O in fix_duplicates.py are not modelled:
  - making the backup file;
  - reading and writing the project file;
  - the hard-coded project path;
  - every `print`.
- The lines are the list `readlines` would return. Each line keeps its own trailing newline as a character.
- Reading `plugin.json` and `json.load` are replaced by the `ManifestLoad` parameter. It says whether the file was found and decoded.
- `os.path.exists` is replaced by a set of existing paths given as a parameter.
- `main`'s printed messages are left out, including the summary on lines 140-143. Only the exit status is modelled.
- JSON values are modelled only with the kinds the checks inspect: strings, string lists and the entry-point object.
  - `WellTyped` requires those kinds.
  - A manifest that is not an object, or has a field of a different kind, is outside the model. Python would test membership on it or raise an error.
- The Unicode `\d` table is the one of Python 3.12, Unicode 15.0. Other Python versions may accept slightly different digits.
