/** The checks of plugin-template/scripts/validate_plugin.py: a plugin manifest
    (the parsed plugin.json) is checked field by field in a fixed order, stopping
    at the first failure, and then the plugin directory is checked for four
    required files. Each check answers "valid" or names what is wrong. */
module PluginValidator {
  import opened Basics
  import opened PluginSyntax

  /** A manifest value, with the JSON kind each inspected field is expected to have. */
  datatype Value =
    | Text(text: string)
    | TextList(items: seq<string>)
    | EntryPoints(entries: map<string, string>)

  /** The parsed manifest: field name to value. */
  type Manifest = map<string, Value>

  const RequiredFields: seq<string> := [
    "id", "name", "version", "description", "author",
    "license", "omnitak_version", "type", "platforms",
    "permissions", "entry_points"]

  const AllowedPermissions: set<string> := {
    "network.access", "location.read", "location.write", "cot.read", "cot.write",
    "map.read", "map.write", "storage.read", "storage.write", "ui.create",
    "notifications.send", "bluetooth.access", "filesystem.read", "filesystem.write"}

  const PluginTypes: set<string> := {"ui", "data", "protocol", "map", "hybrid"}

  const RequiredPlatform: string := "ios"

  const RequiredFiles: seq<string> := [
    "plugin.json", "ios/BUILD.bazel", "ios/Info.plist", "ios/Sources/PluginMain.swift"]

  /** What a failed check reports; the payload is the offending value. */
  datatype Failure =
    | MissingField(field: string)
    | InvalidId(id: string)
    | InvalidVersion(version: string)
    | InvalidPermission(permission: string)
    | IosNotSupported
    | MissingIosEntryPoint
    | InvalidType(pluginType: string)
    | MissingFile(path: string)

  datatype Verdict = Valid | Invalid(failure: Failure)

  /** The message text each failure is reported with. */
  function Message(f: Failure): string
  {
    match f
    case MissingField(x) => "Missing required field: " + x
    case InvalidId(x) => "Invalid plugin ID format: " + x
    case InvalidVersion(x) => "Invalid version format: " + x
    case InvalidPermission(x) => "Invalid permission: " + x
    case IosNotSupported => "iOS platform not supported"
    case MissingIosEntryPoint => "Missing iOS entry point"
    case InvalidType(x) => "Invalid plugin type: " + x
    case MissingFile(x) => "Missing required file: " + x
  }

  /** The `(valid, error)` pair the Python functions return. */
  function AsPair(v: Verdict): (r: (bool, Option<string>))
    ensures r.0 <==> v == Valid
    ensures r.0 <==> r.1.None?
    ensures v.Invalid? ==> r.1 == Some(Message(v.failure))
  {
    match v
    case Valid => (true, None)
    case Invalid(f) => (false, Some(Message(f)))
  }

  // ---------------------------------------------------------------------------
  // Single-value checks.

  /** The id pattern under `re.match`, including the final newline `$` tolerates. */
  ghost predicate IsPluginIdText(s: string)
  {
    IsDottedId(s) || (|s| > 0 && s[|s| - 1] == '\n' && IsDottedId(s[..|s| - 1]))
  }

  function ValidatePluginId(id: string): (r: Verdict)
    ensures r == Valid <==> IsPluginIdText(id)
    ensures r != Valid ==> r == Invalid(InvalidId(id))
  {
    PluginIdAnchoredMeaning(id);
    if EndAnchored(id, MatchesPluginIdBody) then Valid else Invalid(InvalidId(id))
  }

  /** The anchored id recogniser accepts exactly the id texts. */
  lemma PluginIdAnchoredMeaning(id: string)
    ensures EndAnchored(id, MatchesPluginIdBody) <==> IsPluginIdText(id)
  {
    PluginIdBodyMeaning(id);
    if |id| > 0 {
      PluginIdBodyMeaning(id[..|id| - 1]);
    }
  }

  /** The version pattern under `re.match`, including the final newline `$` tolerates. */
  ghost predicate IsVersionString(s: string)
  {
    IsVersionText(s) || (|s| > 0 && s[|s| - 1] == '\n' && IsVersionText(s[..|s| - 1]))
  }

  predicate MatchesVersionBody(s: string)
  {
    ParseVersion(s).Some?
  }

  function ValidateVersion(version: string): (r: Verdict)
    ensures r == Valid <==> IsVersionString(version)
    ensures r != Valid ==> r == Invalid(InvalidVersion(version))
  {
    VersionAnchoredMeaning(version);
    if EndAnchored(version, MatchesVersionBody) then Valid else Invalid(InvalidVersion(version))
  }

  /** The anchored version recogniser accepts exactly the version strings. */
  lemma VersionAnchoredMeaning(version: string)
    ensures EndAnchored(version, MatchesVersionBody) <==> IsVersionString(version)
  {
    VersionBodyMeaning(version);
    if |version| > 0 {
      VersionBodyMeaning(version[..|version| - 1]);
    }
  }

  /** Every permission must be on the allow-list; the first one that is not is reported. */
  function ValidatePermissions(permissions: seq<string>): (r: Verdict)
    ensures r == Valid <==> forall k :: 0 <= k < |permissions| ==> permissions[k] in AllowedPermissions
    ensures r != Valid ==> exists k :: && 0 <= k < |permissions|
                                       && r == Invalid(InvalidPermission(permissions[k]))
                                       && permissions[k] !in AllowedPermissions
                                       && forall j :: 0 <= j < k ==> permissions[j] in AllowedPermissions
  {
    match FirstNotIn(permissions, AllowedPermissions)
    case None => Valid
    case Some(p) => Invalid(InvalidPermission(p))
  }

  // ---------------------------------------------------------------------------
  // The manifest check.

  /** The kinds the inspected fields must have when present; the Python code relies on them. */
  predicate WellTyped(m: Manifest)
  {
    && ("id" in m ==> m["id"].Text?)
    && ("version" in m ==> m["version"].Text?)
    && ("type" in m ==> m["type"].Text?)
    && ("permissions" in m ==> m["permissions"].TextList?)
    && ("platforms" in m ==> m["platforms"].TextList?)
    && ("entry_points" in m ==> m["entry_points"].EntryPoints?)
  }

  /** The number of manifest checks, run in order 0 to 6. */
  const ManifestChecks: nat := 7

  /** Check number `c` of the manifest, stated independently of the code that runs it:
      0 fields, 1 id, 2 version, 3 permissions, 4 platform, 5 entry point, 6 type. */
  ghost predicate PassesCheck(m: Manifest, c: nat)
  {
    match c
    case 0 => forall k :: 0 <= k < |RequiredFields| ==> RequiredFields[k] in m
    case 1 => "id" in m && m["id"].Text? && IsPluginIdText(m["id"].text)
    case 2 => "version" in m && m["version"].Text? && IsVersionString(m["version"].text)
    case 3 => "permissions" in m && m["permissions"].TextList?
              && forall k :: 0 <= k < |m["permissions"].items| ==> m["permissions"].items[k] in AllowedPermissions
    case 4 => "platforms" in m && m["platforms"].TextList? && RequiredPlatform in m["platforms"].items
    case 5 => "entry_points" in m && m["entry_points"].EntryPoints? && RequiredPlatform in m["entry_points"].entries
    case 6 => "type" in m && m["type"].Text? && m["type"].text in PluginTypes
    case _ => true
  }

  /** Which check reports each kind of failure (7 is the structure check). */
  function CheckOf(f: Failure): nat
  {
    match f
    case MissingField(_) => 0
    case InvalidId(_) => 1
    case InvalidVersion(_) => 2
    case InvalidPermission(_) => 3
    case IosNotSupported => 4
    case MissingIosEntryPoint => 5
    case InvalidType(_) => 6
    case MissingFile(_) => 7
  }

  /** The failure names the value that made its check fail. */
  ghost predicate NamesOffender(m: Manifest, f: Failure)
  {
    match f
    case MissingField(x) => FirstNotIn(RequiredFields, m.Keys) == Some(x)
    case InvalidId(x) => "id" in m && m["id"] == Text(x)
    case InvalidVersion(x) => "version" in m && m["version"] == Text(x)
    case InvalidPermission(x) => "permissions" in m && m["permissions"].TextList?
                                 && FirstNotIn(m["permissions"].items, AllowedPermissions) == Some(x)
    case InvalidType(x) => "type" in m && m["type"] == Text(x)
    case IosNotSupported => true
    case MissingIosEntryPoint => true
    case MissingFile(_) => false
  }

  /** Checks `lo` up to (not including) `hi` all pass. */
  ghost predicate PassesChecks(m: Manifest, lo: nat, hi: nat)
  {
    forall c :: lo <= c < hi ==> PassesCheck(m, c)
  }

  /** `r` is valid exactly when checks `lo`..6 pass, and otherwise reports the
      first of them that fails, naming the offending value. */
  ghost predicate FirstFailureFrom(m: Manifest, lo: nat, r: Verdict)
  {
    && (r == Valid <==> PassesChecks(m, lo, ManifestChecks))
    && (r.Invalid? ==> && lo <= CheckOf(r.failure) < ManifestChecks
                       && PassesChecks(m, lo, CheckOf(r.failure))
                       && !PassesCheck(m, CheckOf(r.failure))
                       && NamesOffender(m, r.failure))
  }

  /** A range of checks passes exactly when its first check and the rest do. */
  lemma PassesChecksSplit(m: Manifest, lo: nat, hi: nat)
    requires lo < hi
    ensures PassesChecks(m, lo, hi) <==> PassesCheck(m, lo) && PassesChecks(m, lo + 1, hi)
  {
    if PassesCheck(m, lo) && PassesChecks(m, lo + 1, hi) {
      forall c | lo <= c < hi
        ensures PassesCheck(m, c)
      {
        if c > lo {
          assert lo + 1 <= c < hi;
        }
      }
    }
  }

  /** `validate_manifest`: valid exactly when all seven checks pass; otherwise the
      first failing check is reported, naming the offending value. */
  function ValidateManifest(m: Manifest): (r: Verdict)
    requires WellTyped(m)
    ensures FirstFailureFrom(m, 0, r)
  {
    PassesChecksSplit(m, 0, ManifestChecks);
    match FirstNotIn(RequiredFields, m.Keys)
    case Some(field) => Invalid(MissingField(field))
    case None => CheckIdentity(m)
  }

  /** Checks 1 and 2, the id and version formats, once every required field is present. */
  function CheckIdentity(m: Manifest): (r: Verdict)
    requires WellTyped(m) && PassesCheck(m, 0)
    ensures FirstFailureFrom(m, 1, r)
  {
    assert "id" in m && "version" in m && "permissions" in m && "platforms" in m
           && "entry_points" in m && "type" in m by {
      assert RequiredFields[0] == "id" && RequiredFields[2] == "version" && RequiredFields[7] == "type";
      assert RequiredFields[8] == "platforms" && RequiredFields[9] == "permissions";
      assert RequiredFields[10] == "entry_points";
    }
    PassesChecksSplit(m, 1, ManifestChecks);
    PassesChecksSplit(m, 2, ManifestChecks);
    var idCheck := ValidatePluginId(m["id"].text);
    if idCheck != Valid then idCheck
    else
      var versionCheck := ValidateVersion(m["version"].text);
      if versionCheck != Valid then versionCheck
      else CheckCapabilities(m)
  }

  /** Checks 3 to 6: permissions, the iOS platform and entry point, and the plugin type. */
  function CheckCapabilities(m: Manifest): (r: Verdict)
    requires WellTyped(m)
    requires "permissions" in m && "platforms" in m && "entry_points" in m && "type" in m
    ensures FirstFailureFrom(m, 3, r)
  {
    PassesChecksSplit(m, 3, ManifestChecks);
    PassesChecksSplit(m, 4, ManifestChecks);
    PassesChecksSplit(m, 5, ManifestChecks);
    PassesChecksSplit(m, 6, ManifestChecks);
    var permissionCheck := ValidatePermissions(m["permissions"].items);
    if permissionCheck != Valid then permissionCheck
    else if RequiredPlatform !in m["platforms"].items then Invalid(IosNotSupported)
    else if RequiredPlatform !in m["entry_points"].entries then Invalid(MissingIosEntryPoint)
    else if m["type"].text !in PluginTypes then Invalid(InvalidType(m["type"].text))
    else Valid
  }

  // ---------------------------------------------------------------------------
  // The structure check and the exit status.

  /** `validate_structure`, with the paths that exist on disk given as a set. */
  function ValidateStructure(existing: set<string>): (r: Verdict)
    ensures r == Valid <==> forall k :: 0 <= k < |RequiredFiles| ==> RequiredFiles[k] in existing
    ensures r != Valid ==> exists k :: && 0 <= k < |RequiredFiles|
                                       && r == Invalid(MissingFile(RequiredFiles[k]))
                                       && RequiredFiles[k] !in existing
                                       && forall j :: 0 <= j < k ==> RequiredFiles[j] in existing
  {
    match FirstNotIn(RequiredFiles, existing)
    case None => Valid
    case Some(path) => Invalid(MissingFile(path))
  }

  /** The outcome of reading and decoding plugin.json. */
  datatype ManifestLoad = Loaded(manifest: Manifest) | FileNotFound | MalformedJson

  /** `main`: exit status 0 exactly when the manifest was read, passes every check,
      and all required files exist; 1 otherwise. */
  function RunValidation(load: ManifestLoad, existing: set<string>): (exitCode: int)
    requires load.Loaded? ==> WellTyped(load.manifest)
    ensures exitCode == 0 || exitCode == 1
    ensures exitCode == 0 <==> && load.Loaded?
                               && PassesChecks(load.manifest, 0, ManifestChecks)
                               && (forall k :: 0 <= k < |RequiredFiles| ==> RequiredFiles[k] in existing)
  {
    match load
    case FileNotFound => 1
    case MalformedJson => 1
    case Loaded(manifest) =>
      if ValidateManifest(manifest) != Valid then 1
      else if ValidateStructure(existing) != Valid then 1
      else 0
  }

  // ---------------------------------------------------------------------------
  // Consequences for particular manifests.

  /** With "id" and "name" present but "version" absent, the missing version is what is reported. */
  lemma MissingVersionReported(m: Manifest)
    requires WellTyped(m)
    requires "id" in m && "name" in m && "version" !in m
    ensures ValidateManifest(m) == Invalid(MissingField("version"))
  {
    assert RequiredFields[0] == "id" && RequiredFields[1] == "name" && RequiredFields[2] == "version";
  }

  /** A version with only two numeric components is rejected. */
  lemma TwoPartVersionRejected()
    ensures ValidateVersion("1.2") == Invalid(InvalidVersion("1.2"))
  {
    VersionBodyMeaning("1.2");
    assert ParseVersion("1.2").None?;
  }

  /** A permission outside the allow-list is reported by name. */
  lemma UnknownPermissionRejected()
    ensures ValidatePermissions(["network.access", "root.access"]) == Invalid(InvalidPermission("root.access"))
  {
  }

  /** A manifest that passes every check. */
  const ExampleManifest: Manifest := map[
    "name" := Text("Radar"),
    "version" := Text("1.0.0"),
    "description" := Text("Radar overlay"),
    "author" := Text("Example"),
    "license" := Text("MIT"),
    "omnitak_version" := Text(">=1.0.0"),
    "type" := Text("ui"),
    "platforms" := TextList(["ios"]),
    "permissions" := TextList(["network.access", "map.read"]),
    "entry_points" := EntryPoints(map["ios" := "RadarPlugin"]),
    "id" := Text("com.example.radar")]

  lemma ExampleIdValid()
    ensures ValidatePluginId("com.example.radar") == Valid
  {
    var ws := ["com", "example", "radar"];
    assert AllIdSegments(ws);
    assert JoinDots(ws[2..]) == "radar";
    assert JoinDots(ws[1..]) == "example.radar";
    assert JoinDots(ws) == "com.example.radar";
  }

  lemma ExampleVersionValid()
    ensures ValidateVersion("1.0.0") == Valid
  {
    var v := Version("1", "0", "0", None);
    assert WellFormedVersion(v);
    assert RenderVersion(v) == "1.0.0";
  }

  lemma ExampleIdentityChecks()
    ensures PassesCheck(ExampleManifest, 1) && PassesCheck(ExampleManifest, 2)
  {
    var m := ExampleManifest;
    assert m["id"] == Text("com.example.radar");
    assert m["version"] == Text("1.0.0");
    ExampleIdValid();
    ExampleVersionValid();
  }

  lemma ExampleFieldsPresent()
    ensures PassesCheck(ExampleManifest, 0)
  {
    forall k | 0 <= k < |RequiredFields|
      ensures RequiredFields[k] in ExampleManifest
    {
    }
  }

  lemma ExamplePermissionsAllowed()
    ensures PassesCheck(ExampleManifest, 3)
  {
    assert ExampleManifest["permissions"] == TextList(["network.access", "map.read"]);
  }

  lemma ExampleTargetsIos()
    ensures PassesCheck(ExampleManifest, 4) && PassesCheck(ExampleManifest, 5)
  {
    assert ExampleManifest["platforms"] == TextList(["ios"]);
    assert ExampleManifest["entry_points"] == EntryPoints(map["ios" := "RadarPlugin"]);
  }

  lemma ExampleTypeKnown()
    ensures PassesCheck(ExampleManifest, 6)
  {
    assert ExampleManifest["type"] == Text("ui");
  }

  /** Every one of the seven checks passes on the example manifest. */
  lemma ExampleManifestPassesChecks()
    ensures PassesChecks(ExampleManifest, 0, ManifestChecks)
  {
    ExampleFieldsPresent();
    ExampleIdentityChecks();
    ExamplePermissionsAllowed();
    ExampleTargetsIos();
    ExampleTypeKnown();
  }

  lemma ExampleManifestValid()
    ensures ValidateManifest(ExampleManifest) == Valid
  {
    ExampleManifestPassesChecks();
  }

  /** The same manifest declaring only Android fails on the platform check. */
  lemma AndroidOnlyRejected()
    ensures ValidateManifest(ExampleManifest["platforms" := TextList(["android"])]) == Invalid(IosNotSupported)
  {
    var e := ExampleManifest;
    var m := e["platforms" := TextList(["android"])];
    ExampleManifestPassesChecks();
    forall c | 0 <= c < 4
      ensures PassesCheck(m, c)
    {
      assert PassesCheck(e, c);
      if c == 0 {
        forall k | 0 <= k < |RequiredFields|
          ensures RequiredFields[k] in m
        {
          assert RequiredFields[k] in e;
        }
      } else if c == 1 {
        assert m["id"] == e["id"];
      } else if c == 2 {
        assert m["version"] == e["version"];
      } else {
        assert m["permissions"] == e["permissions"];
      }
    }
    assert !PassesCheck(m, 4) by {
      assert m["platforms"].items == ["android"];
    }
    var r := ValidateManifest(m);
    assert CheckOf(r.failure) == 4;
  }

  /** A complete plugin directory with the example manifest exits with status 0. */
  lemma CompletePluginSucceeds()
    ensures RunValidation(Loaded(ExampleManifest), set f | f in RequiredFiles) == 0
  {
    ExampleManifestValid();
  }
}
