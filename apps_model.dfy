/**
 * The value-level part of the application registry of the system service
 * (applications/system-service/appsapi.h): the Application record, the
 * registration rule, the defaults applied to persisted records, the parsing
 * of *.oxide descriptor files, and the specification of each step of the
 * reconciliation that readApplications performs. The AppsAPI class in
 * module AppsApi runs these steps imperatively and is proved against them.
 */
module AppsModel {
  import opened Wrappers
  import opened QMaps
  import opened Variants

  /** OXIDE_SERVICE_PATH. */
  const ServicePath: string := "/codes/eeems/oxide1"
  /** Every application object lives under this prefix. */
  const AppsPrefix: string := ServicePath + "/apps/"
  /** The empty object path returned for "no application". */
  const NoPath: string := "/"
  /** The process manager that a long press of the home button brings up. */
  const ProcessManager: string := "codes.eeems.erode"

  /** AppsAPI::ApplicationType. */
  const Foreground: int := 0
  const Background: int := 1
  const Backgroundable: int := 2

  /** Application::state(), kept abstract: the process side is not modelled. */
  datatype AppState = Inactive | InForeground | InBackground | Paused

  /** The configuration map an application is given through setConfig. */
  type Config = map<string, Value>

  datatype Application = Application(name: string, path: string, config: Config, state: AppState)

  /** The registry: application name to application, iterated in key order. */
  type Registry = QMap<Application>

  /** Application::systemApp(): the configured flags contain "system". */
  predicate IsSystem(app: Application)
  {
    "system" in ToStringList(ValueOr(app.config, "flags", Null))
  }

  predicate IsLowerHex(c: char) { '0' <= c <= '9' || 'a' <= c <= 'f' }

  /** The form of QUuid::toString(QUuid::Id128): 32 lower-case hexadecimal digits. */
  predicate IsId128(s: string)
  {
    |s| == 32 && forall i :: 0 <= i < |s| ==> IsLowerHex(s[i])
  }

  /**
   * The name-based (version 5, section 4.3 of RFC 4122) UUID generator under
   * the registry's fixed namespace, supplied as a function: it yields the
   * Id128 form for every name.
   */
  ghost predicate UuidGenerator(uuid: string -> string)
  {
    forall n :: IsId128(uuid(n))
  }

  /** AppsAPI::getPath: the object path of the application called name. */
  function PathFor(uuid: string -> string, name: string): (p: string)
    requires IsId128(uuid(name))
    ensures |p| == |AppsPrefix| + 32 && p[..|AppsPrefix|] == AppsPrefix
    ensures p != NoPath
  {
    AppsPrefix + uuid(name)
  }

  /** QFile::exists over the set of files present; the empty path never exists. */
  predicate BinaryExists(binaries: set<string>, bin: string)
  {
    bin != "" && bin in binaries
  }

  // What registerApplication reads from its argument.
  function PropName(props: Config): string { ToString(ValueOr(props, "name", Str(""))) }
  function PropBin(props: Config): string { ToString(ValueOr(props, "bin", Str(""))) }
  function PropType(props: Config): int { ToInt(ValueOr(props, "type", Int(Foreground))) }

  /** The guard `type < Foreground || type > Background` negated: Backgroundable is out. */
  predicate TypeInRange(t: int) { Foreground <= t <= Background }

  /** The validation of registerApplication. */
  predicate Admissible(props: Config, binaries: set<string>)
  {
    && TypeInRange(PropType(props))
    && PropName(props) != ""
    && PropBin(props) != ""
    && BinaryExists(binaries, PropBin(props))
  }

  /** An application filed under name: its own non-empty name, at that name's path. */
  ghost predicate EntryOk(uuid: string -> string, name: string, app: Application)
  {
    && name != ""
    && app.name == name
    && app.path == AppsPrefix + uuid(name)
    && ToString(ValueOr(app.config, "name", Null)) == name
  }

  /** The registry invariant: sorted, and every entry well filed. */
  ghost predicate WellFormed(uuid: string -> string, reg: Registry)
  {
    && Sorted(reg)
    && UuidGenerator(uuid)
    && forall i :: 0 <= i < |reg| ==> EntryOk(uuid, reg[i].0, reg[i].1)
  }

  ghost predicate WellFormedMap(uuid: string -> string, m: map<string, Application>)
  {
    forall n :: n in m ==> EntryOk(uuid, n, m[n])
  }

  lemma WellFormedToMap(uuid: string -> string, reg: Registry)
    requires WellFormed(uuid, reg)
    ensures WellFormedMap(uuid, ToMap(reg))
  {
    ToMapKeys(reg);
    forall n | n in ToMap(reg) ensures EntryOk(uuid, n, ToMap(reg)[n]) {
      var i :| 0 <= i < |reg| && reg[i].0 == n;
      ToMapAt(reg, i);
    }
  }

  /** Entries of a sorted list whose dictionary is well formed are well formed. */
  lemma WellFormedFromMap(uuid: string -> string, reg: Registry)
    requires Sorted(reg) && UuidGenerator(uuid) && WellFormedMap(uuid, ToMap(reg))
    ensures WellFormed(uuid, reg)
  {
    forall i | 0 <= i < |reg| ensures EntryOk(uuid, reg[i].0, reg[i].1) {
      ToMapAt(reg, i);
    }
  }

  /** The application registerApplication constructs (state Inactive until launched). */
  function NewApp(uuid: string -> string, props: Config): Application
    requires UuidGenerator(uuid)
  {
    Application(PropName(props), PathFor(uuid, PropName(props)), props, Inactive)
  }

  /**
   * registerApplication on the registry: an invalid request changes nothing
   * and yields "/", a known name yields its existing path and changes
   * nothing, and a new name adds exactly one entry at the name's path.
   */
  function Register(uuid: string -> string, reg: Registry, props: Config, binaries: set<string>): (res: (Registry, string))
    requires UuidGenerator(uuid) && Sorted(reg)
    ensures Sorted(res.0)
    ensures !Admissible(props, binaries) ==> res == (reg, NoPath)
    ensures Admissible(props, binaries) && Contains(reg, PropName(props)) ==>
              res == (reg, ToMap(reg)[PropName(props)].path)
    ensures Admissible(props, binaries) && !Contains(reg, PropName(props)) ==>
              && ToMap(res.0) == ToMap(reg)[PropName(props) := NewApp(uuid, props)]
              && res.1 == PathFor(uuid, PropName(props))
              && res.1[..|AppsPrefix|] == AppsPrefix
  {
    var name := PropName(props);
    if !Admissible(props, binaries) then (reg, NoPath)
    else if Contains(reg, name) then (reg, ToMap(reg)[name].path)
    else
      var app := NewApp(uuid, props);
      InsertSorted(reg, name, app);
      InsertToMap(reg, name, app);
      (Insert(reg, name, app), app.path)
  }

  lemma RegisterKeepsWellFormed(uuid: string -> string, reg: Registry, props: Config, binaries: set<string>)
    requires WellFormed(uuid, reg)
    ensures WellFormed(uuid, Register(uuid, reg, props, binaries).0)
  {
    var r := Register(uuid, reg, props, binaries).0;
    if Admissible(props, binaries) && !Contains(reg, PropName(props)) {
      WellFormedToMap(uuid, reg);
      assert "name" in props;
      WellFormedFromMap(uuid, r);
    }
  }

  /**
   * The create-or-update rule of readApplications on the dictionary: a
   * registered name gets the new configuration (without re-validation), an
   * unknown one goes through registerApplication.
   */
  function ApplyPropsMap(uuid: string -> string, m: map<string, Application>, props: Config, binaries: set<string>): (r: map<string, Application>)
    requires UuidGenerator(uuid)
    ensures m.Keys <= r.Keys <= m.Keys + {PropName(props)}
    ensures forall n :: n in m && n != PropName(props) ==> r[n] == m[n]
    ensures PropName(props) in m ==> r[PropName(props)] == m[PropName(props)].(config := props)
    ensures PropName(props) !in m ==>
              && (PropName(props) in r <==> Admissible(props, binaries))
              && (PropName(props) in r ==> r[PropName(props)] == NewApp(uuid, props))
  {
    var n := PropName(props);
    if n in m then m[n := m[n].(config := props)]
    else if Admissible(props, binaries) then m[n := NewApp(uuid, props)]
    else m
  }

  /** The same rule on the registry as the source runs it. */
  function ApplyProps(uuid: string -> string, reg: Registry, props: Config, binaries: set<string>): (r: Registry)
    requires UuidGenerator(uuid) && Sorted(reg)
    ensures Sorted(r)
    ensures ToMap(r) == ApplyPropsMap(uuid, ToMap(reg), props, binaries)
  {
    var name := PropName(props);
    if Contains(reg, name) then
      var app := ToMap(reg)[name].(config := props);
      InsertSorted(reg, name, app);
      InsertToMap(reg, name, app);
      Insert(reg, name, app)
    else Register(uuid, reg, props, binaries).0
  }

  /** An admissible configuration is filed under its name. */
  lemma ApplyPropsFiles(uuid: string -> string, m: map<string, Application>, props: Config, binaries: set<string>)
    requires UuidGenerator(uuid) && Admissible(props, binaries)
    ensures PropName(props) in ApplyPropsMap(uuid, m, props, binaries)
    ensures ApplyPropsMap(uuid, m, props, binaries)[PropName(props)].config == props
  {
  }

  /**
   * Filing a configuration that makes a system application leaves every
   * application either as it was or a system application.
   */
  lemma ApplyPropsSystem(uuid: string -> string, m: map<string, Application>, props: Config, binaries: set<string>, n: string)
    requires UuidGenerator(uuid) && IsSystem(NewApp(uuid, props))
    requires n in ApplyPropsMap(uuid, m, props, binaries)
    ensures var app := ApplyPropsMap(uuid, m, props, binaries)[n];
            (n in m && app == m[n]) || IsSystem(app)
  {
    if n in m && n == PropName(props) {
      assert ApplyPropsMap(uuid, m, props, binaries)[n].config == NewApp(uuid, props).config;
    }
  }

  lemma ApplyPropsKeepsWellFormed(uuid: string -> string, reg: Registry, props: Config, binaries: set<string>)
    requires WellFormed(uuid, reg)
    ensures WellFormed(uuid, ApplyProps(uuid, reg, props, binaries))
  {
    var r := ApplyProps(uuid, reg, props, binaries);
    WellFormedToMap(uuid, reg);
    if Admissible(props, binaries) {
      assert "name" in props;
    }
    WellFormedFromMap(uuid, r);
  }

  // ---------------------------------------------------------------------
  // Step 1: drop user applications the persisted array no longer names.

  /** What survives step 1: applications the store names, and system applications. */
  function Retain(m: map<string, Application>, names: seq<string>): (r: map<string, Application>)
    ensures forall n :: n in r <==> n in m && (n in names || IsSystem(m[n]))
    ensures forall n :: n in r ==> r[n] == m[n]
  {
    map n | n in m && (n in names || IsSystem(m[n])) :: m[n]
  }

  // ---------------------------------------------------------------------
  // Step 2: create or update applications from the persisted records.

  /** settings.value(key), an invalid QVariant when the key is missing. */
  function Setting(r: Config, key: string): Value { ValueOr(r, key, Null) }

  function RecordName(r: Config): string { ToString(Setting(r, "name")) }
  function RecordDisplayName(r: Config): string { ToString(ValueOr(r, "displayName", Str(RecordName(r)))) }
  function RecordType(r: Config): int { ToInt(ValueOr(r, "type", Int(Foreground))) }
  function RecordBin(r: Config): string { ToString(Setting(r, "bin")) }

  /** The guard that skips a persisted record. */
  predicate RecordValid(r: Config)
  {
    TypeInRange(RecordType(r)) && RecordName(r) != "" && RecordBin(r) != ""
  }

  /** The fields of a persisted record that carry its identity, with their defaults. */
  function RecordCore(r: Config): (p: Config)
    ensures "name" in p && "displayName" in p && "description" in p && "bin" in p && "type" in p
    ensures p["name"] == Str(RecordName(r)) && p["bin"] == Str(RecordBin(r)) && p["type"] == Int(RecordType(r))
    ensures p["displayName"] == Str(RecordDisplayName(r))
    ensures p["description"] == Str(ToString(ValueOr(r, "description", Str(RecordDisplayName(r)))))
  {
    var displayName := RecordDisplayName(r);
    map[
      "name" := Str(RecordName(r)),
      "displayName" := Str(displayName),
      "description" := Str(ToString(ValueOr(r, "description", Str(displayName)))),
      "bin" := Str(RecordBin(r)),
      "type" := Int(RecordType(r))
    ]
  }

  /** The remaining fields of a persisted record, with their empty defaults. */
  function RecordRest(r: Config): (p: Config)
    ensures "flags" in p && "environment" in p
    ensures "name" !in p && "displayName" !in p && "description" !in p && "bin" !in p && "type" !in p
  {
    map[
      "flags" := List(ToStringList(ValueOr(r, "flags", List([])))),
      "icon" := Str(ToString(ValueOr(r, "icon", Str("")))),
      "onPause" := Str(ToString(ValueOr(r, "onPause", Str("")))),
      "onResume" := Str(ToString(ValueOr(r, "onResume", Str("")))),
      "onStop" := Str(ToString(ValueOr(r, "onStop", Str("")))),
      "environment" := Dict(ToDict(ValueOr(r, "environment", Dict(map[])))),
      "workingDirectory" := Str(ToString(ValueOr(r, "workingDirectory", Str(""))))
    ]
  }

  /** Copies key from the record as a string, only when the record has it (settings.contains). */
  function CopySetting(p: Config, r: Config, key: string): (q: Config)
    ensures forall k :: k != key ==> (k in q <==> k in p) && (k in q ==> q[k] == p[k])
    ensures key in q <==> key in p || key in r
  {
    if key in r then p[key := Str(ToString(r[key]))] else p
  }

  /**
   * The properties a persisted record is turned into, under the keys the
   * registration reads.
   */
  function RecordProps(r: Config): (p: Config)
    ensures PropName(p) == RecordName(r) && PropBin(p) == RecordBin(r) && PropType(p) == RecordType(r)
    ensures ToString(Setting(p, "name")) == RecordName(r)
    ensures ("user" in p <==> "user" in r) && ("group" in p <==> "group" in r)
  {
    var core := RecordCore(r);
    var base := core + RecordRest(r);
    assert base["name"] == core["name"] && base["bin"] == core["bin"] && base["type"] == core["type"];
    CopySetting(CopySetting(base, r, "user"), r, "group")
  }

  /**
   * The defaults of a persisted record: displayName falls back to the name,
   * description to the display name.
   */
  lemma RecordDefaults(r: Config)
    ensures "displayName" in RecordProps(r) && "description" in RecordProps(r)
    ensures ToString(RecordProps(r)["displayName"]) ==
              if "displayName" in r then ToString(r["displayName"]) else RecordName(r)
    ensures ToString(RecordProps(r)["description"]) ==
              if "description" in r then ToString(r["description"]) else ToString(RecordProps(r)["displayName"])
  {
    var core := RecordCore(r);
    var base := core + RecordRest(r);
    assert base["displayName"] == core["displayName"] && base["description"] == core["description"];
    var withUser := CopySetting(base, r, "user");
    assert withUser["displayName"] == core["displayName"] && withUser["description"] == core["description"];
  }

  function ApplyRecord(uuid: string -> string, reg: Registry, r: Config, binaries: set<string>): (res: Registry)
    requires UuidGenerator(uuid) && Sorted(reg)
    ensures Sorted(res)
  {
    if RecordValid(r) then ApplyProps(uuid, reg, RecordProps(r), binaries) else reg
  }

  /** Step 2 over the records in array order. */
  function ApplyRecords(uuid: string -> string, reg: Registry, records: seq<Config>, binaries: set<string>): (res: Registry)
    requires UuidGenerator(uuid) && Sorted(reg)
    ensures Sorted(res)
    decreases |records|
  {
    if records == [] then reg
    else ApplyRecord(uuid, ApplyRecords(uuid, reg, records[..|records| - 1], binaries), records[|records| - 1], binaries)
  }

  lemma {:induction false} ApplyRecordsKeepsWellFormed(uuid: string -> string, reg: Registry, records: seq<Config>, binaries: set<string>)
    requires WellFormed(uuid, reg)
    ensures WellFormed(uuid, ApplyRecords(uuid, reg, records, binaries))
    decreases |records|
  {
    if records != [] {
      var prefix := records[..|records| - 1];
      ApplyRecordsKeepsWellFormed(uuid, reg, prefix, binaries);
      var r := records[|records| - 1];
      if RecordValid(r) {
        ApplyPropsKeepsWellFormed(uuid, ApplyRecords(uuid, reg, prefix, binaries), RecordProps(r), binaries);
      }
    }
  }

  /** Names of the records step 2 does not skip. */
  function ValidNames(records: seq<Config>): (s: set<string>)
    ensures forall n :: n in s <==> exists i :: 0 <= i < |records| && RecordValid(records[i]) && RecordName(records[i]) == n
  {
    set i | 0 <= i < |records| && RecordValid(records[i]) :: RecordName(records[i])
  }

  /**
   * Step 2 never removes an application, and adds only names of valid
   * records; an application no valid record names is left as it was.
   */
  lemma {:induction false} ApplyRecordsFrame(uuid: string -> string, reg: Registry, records: seq<Config>, binaries: set<string>)
    requires UuidGenerator(uuid) && Sorted(reg)
    ensures ToMap(reg).Keys <= ToMap(ApplyRecords(uuid, reg, records, binaries)).Keys
    ensures ToMap(ApplyRecords(uuid, reg, records, binaries)).Keys <= ToMap(reg).Keys + ValidNames(records)
    ensures forall n :: n in ToMap(reg) && n !in ValidNames(records) ==>
              ToMap(ApplyRecords(uuid, reg, records, binaries))[n] == ToMap(reg)[n]
    decreases |records|
  {
    if records != [] {
      var prefix := records[..|records| - 1];
      ApplyRecordsFrame(uuid, reg, prefix, binaries);
      assert ValidNames(prefix) <= ValidNames(records) by {
        forall n | n in ValidNames(prefix) ensures n in ValidNames(records) {
          var i :| 0 <= i < |prefix| && RecordValid(prefix[i]) && RecordName(prefix[i]) == n;
          assert records[i] == prefix[i];
        }
      }
      var last := records[|records| - 1];
      if RecordValid(last) {
        assert RecordName(last) in ValidNames(records);
      }
    }
  }

  /** A valid record whose binary exists always ends up registered. */
  lemma {:induction false} ApplyRecordsRegisters(uuid: string -> string, reg: Registry, records: seq<Config>, binaries: set<string>, i: int)
    requires UuidGenerator(uuid) && Sorted(reg)
    requires 0 <= i < |records| && RecordValid(records[i]) && BinaryExists(binaries, RecordBin(records[i]))
    ensures RecordName(records[i]) in ToMap(ApplyRecords(uuid, reg, records, binaries))
    decreases |records|
  {
    var prefix := records[..|records| - 1];
    var mid := ApplyRecords(uuid, reg, prefix, binaries);
    var last := records[|records| - 1];
    if i < |records| - 1 {
      assert prefix[i] == records[i];
      ApplyRecordsRegisters(uuid, reg, prefix, binaries, i);
      if RecordValid(last) {
        assert PropName(RecordProps(last)) == RecordName(last);
      }
    } else {
      assert Admissible(RecordProps(last), binaries);
    }
  }

  /**
   * The last valid record that names a registered application decides its
   * configuration, even when that record's binary does not exist (an update
   * is not re-validated).
   */
  lemma {:induction false} LastRecordWins(uuid: string -> string, reg: Registry, records: seq<Config>, binaries: set<string>, i: int)
    requires UuidGenerator(uuid) && Sorted(reg)
    requires 0 <= i < |records| && RecordValid(records[i])
    requires forall j :: i < j < |records| ==> !(RecordValid(records[j]) && RecordName(records[j]) == RecordName(records[i]))
    requires RecordName(records[i]) in ToMap(ApplyRecords(uuid, reg, records, binaries))
    ensures ToMap(ApplyRecords(uuid, reg, records, binaries))[RecordName(records[i])].config == RecordProps(records[i])
    decreases |records|
  {
    var prefix := records[..|records| - 1];
    var last := records[|records| - 1];
    var n := RecordName(records[i]);
    if i < |records| - 1 {
      assert prefix[i] == records[i];
      assert !(RecordValid(last) && RecordName(last) == n);
      if RecordValid(last) {
        assert PropName(RecordProps(last)) == RecordName(last);
      }
      assert n in ToMap(ApplyRecords(uuid, reg, prefix, binaries));
      forall j | i < j < |prefix| ensures !(RecordValid(prefix[j]) && RecordName(prefix[j]) == n) {
        assert prefix[j] == records[j];
      }
      LastRecordWins(uuid, reg, prefix, binaries, i);
    }
  }

  // ---------------------------------------------------------------------
  // Step 3: scan the descriptor directory.

  /** An entry of /opt/usr/share/applications/; content is None when the file cannot be opened. */
  datatype DirEntry = DirEntry(fileName: string, content: Option<Json>)

  function LowerChar(c: char): char
  {
    if 'A' <= c <= 'Z' then (c as int + 32) as char else c
  }

  function UpperChar(c: char): char
  {
    if 'a' <= c <= 'z' then (c as int - 32) as char else c
  }

  /** QString::toLower, for ASCII letters. */
  function LowerAscii(s: string): (r: string)
    ensures |r| == |s| && forall i :: 0 <= i < |s| ==> r[i] == LowerChar(s[i])
  {
    seq(|s|, i requires 0 <= i < |s| => LowerChar(s[i]))
  }

  function UpperAscii(s: string): (r: string)
    ensures |r| == |s| && forall i :: 0 <= i < |s| ==> r[i] == UpperChar(s[i])
  {
    seq(|s|, i requires 0 <= i < |s| => UpperChar(s[i]))
  }

  const DescriptorSuffix: string := ".oxide"

  /**
   * The "*.oxide" name filter of the scan: matched without regard to case,
   * hidden (dot) files excluded, as QDir does by default.
   */
  predicate IsDescriptorFile(f: string)
  {
    |f| > |DescriptorSuffix| && f[0] != '.' && LowerAscii(f[|f| - |DescriptorSuffix|..]) == DescriptorSuffix
  }

  /** QFileInfo::completeBaseName of a descriptor file: the name without its last suffix. */
  function BaseName(f: string): (b: string)
    requires IsDescriptorFile(f)
    ensures |b| == |f| - |DescriptorSuffix| && b != ""
    ensures f == b + f[|b|..] && LowerAscii(f[|b|..]) == DescriptorSuffix
  {
    f[..|f| - |DescriptorSuffix|]
  }

  /** The JSON object read from a descriptor, with "name" set to the base name. */
  function DescriptorObject(e: DirEntry): map<string, Json>
    requires IsDescriptorFile(e.fileName) && e.content.Some?
  {
    JToObject(e.content.value)["name" := JString(BaseName(e.fileName))]
  }

  predicate IsReadableDescriptor(e: DirEntry)
  {
    IsDescriptorFile(e.fileName) && e.content.Some?
  }

  /** The entry is a readable descriptor file whose base name is k. */
  predicate Describes(e: DirEntry, k: string)
  {
    IsReadableDescriptor(e) && BaseName(e.fileName) == k
  }

  /** The descriptor map the scan builds; a later file with the same base name replaces an earlier one. */
  function Descriptors(listing: seq<DirEntry>): map<string, map<string, Json>>
    decreases |listing|
  {
    if listing == [] then map[]
    else
      var d := Descriptors(listing[..|listing| - 1]);
      var e := listing[|listing| - 1];
      if IsReadableDescriptor(e) then d[BaseName(e.fileName) := DescriptorObject(e)] else d
  }

  /** A name is in the descriptor map exactly when some readable descriptor file has it as base name. */
  lemma {:induction false} DescriptorsKeys(listing: seq<DirEntry>, k: string)
    ensures k in Descriptors(listing) <==> exists i :: 0 <= i < |listing| && Describes(listing[i], k)
    decreases |listing|
  {
    if listing != [] {
      var prefix := listing[..|listing| - 1];
      DescriptorsKeys(prefix, k);
      if exists i :: 0 <= i < |prefix| && Describes(prefix[i], k) {
        var i :| 0 <= i < |prefix| && Describes(prefix[i], k);
        assert listing[i] == prefix[i];
      }
      if exists i :: 0 <= i < |listing| - 1 && Describes(listing[i], k) {
        var i :| 0 <= i < |listing| - 1 && Describes(listing[i], k);
        assert listing[i] == prefix[i];
      }
    }
  }

  /** The object filed under a name is that of the last file describing it. */
  lemma {:induction false} DescriptorsLast(listing: seq<DirEntry>, i: int)
    requires 0 <= i < |listing| && IsReadableDescriptor(listing[i])
    requires forall j :: i < j < |listing| ==> !Describes(listing[j], BaseName(listing[i].fileName))
    ensures BaseName(listing[i].fileName) in Descriptors(listing)
    ensures Descriptors(listing)[BaseName(listing[i].fileName)] == DescriptorObject(listing[i])
    decreases |listing|
  {
    var prefix := listing[..|listing| - 1];
    if i < |listing| - 1 {
      assert prefix[i] == listing[i];
      forall j | i < j < |prefix| ensures !Describes(prefix[j], BaseName(prefix[i].fileName)) {
        assert prefix[j] == listing[j];
      }
      DescriptorsLast(prefix, i);
      assert !Describes(listing[|listing| - 1], BaseName(listing[i].fileName));
    }
  }

  // ---------------------------------------------------------------------
  // Step 4: match descriptors against the registry.

  /** Applications left after step 4: a user application that a descriptor names is unregistered. */
  function MatchKept(m: map<string, Application>, d: map<string, map<string, Json>>): (r: map<string, Application>)
    ensures forall n :: n in r <==> n in m && (n !in d || IsSystem(m[n]))
    ensures forall n :: n in r ==> r[n] == m[n]
  {
    map n | n in m && (n !in d || IsSystem(m[n])) :: m[n]
  }

  /** Descriptors left after step 4: the one of an already registered system application is dropped. */
  function MatchCandidates(m: map<string, Application>, d: map<string, map<string, Json>>): (r: map<string, map<string, Json>>)
    ensures forall n :: n in r <==> n in d && !(n in m && IsSystem(m[n]))
    ensures forall n :: n in r ==> r[n] == d[n]
  {
    map n | n in d && !(n in m && IsSystem(m[n])) :: d[n]
  }

  // ---------------------------------------------------------------------
  // Step 5: turn the remaining descriptors into system applications.

  /** The type names of a descriptor (already lower-cased); anything else means Foreground. */
  function ParseTypeString(t: string): (r: int)
    ensures r == Background <==> t == "background"
    ensures r == Backgroundable <==> t == "backgroundable"
    ensures r == Foreground <==> t != "background" && t != "backgroundable"
  {
    if t == "background" then Background
    else if t == "backgroundable" then Backgroundable
    else Foreground
  }

  /** The type of a descriptor: its "type" string compared case-insensitively. */
  function DescriptorType(obj: map<string, Json>): int
  {
    ParseTypeString(if "type" in obj then LowerAscii(JToString(obj["type"])) else "")
  }

  lemma LowerOfUpper(s: string)
    ensures LowerAscii(UpperAscii(s)) == LowerAscii(s)
  {
    var a, b := LowerAscii(UpperAscii(s)), LowerAscii(s);
    forall i | 0 <= i < |s| ensures a[i] == b[i] { }
  }

  /** Writing the type in capitals does not change how it parses. */
  lemma TypeIgnoresCase(obj: map<string, Json>, s: string)
    ensures DescriptorType(obj["type" := JString(UpperAscii(s))]) == DescriptorType(obj["type" := JString(s)])
  {
    LowerOfUpper(s);
  }

  /** The declared flags that are kept: every non-empty string other than "system", in order. */
  function DeclaredFlags(items: seq<Json>): (r: seq<string>)
    ensures forall f :: f in r ==> f != "" && f != "system"
    ensures forall i :: 0 <= i < |items| && JToString(items[i]) != "" && JToString(items[i]) != "system" ==>
              JToString(items[i]) in r
    ensures forall f :: f in r ==> exists i :: 0 <= i < |items| && JToString(items[i]) == f
    decreases |items|
  {
    if items == [] then []
    else
      var rest := DeclaredFlags(items[..|items| - 1]);
      var v := JToString(items[|items| - 1]);
      assert forall i :: 0 <= i < |items| - 1 ==> items[..|items| - 1][i] == items[i];
      if v != "" && v != "system" then rest + [v] else rest
  }

  /** The flags of a descriptor: "system" first and only there, then the declared ones. */
  function DescriptorFlags(obj: map<string, Json>): (r: seq<string>)
    ensures |r| >= 1 && r[0] == "system"
    ensures forall i :: 1 <= i < |r| ==> r[i] != "system" && r[i] != ""
  {
    var declared := if "flags" in obj then DeclaredFlags(JToArray(obj["flags"])) else [];
    assert forall i :: 1 <= i < |declared| + 1 ==> (["system"] + declared)[i] in declared;
    ["system"] + declared
  }

  /** Adds props[key] := obj[key] as a string when the descriptor has key. */
  function CopyField(p: Config, obj: map<string, Json>, key: string): (r: Config)
    ensures key in obj ==> key in r && r[key] == Str(JToString(obj[key]))
    ensures key !in obj ==> r == p
    ensures forall k :: k != key ==> (k in r <==> k in p) && (k in r ==> r[k] == p[k])
  {
    if key in obj then p[key := Str(JToString(obj[key]))] else p
  }

  /** CopyField for each of keys in turn. */
  function CopyFields(p: Config, obj: map<string, Json>, keys: seq<string>): (r: Config)
    ensures forall k :: k in keys && k in obj ==> k in r && r[k] == Str(JToString(obj[k]))
    ensures forall k :: !(k in keys && k in obj) ==> (k in r <==> k in p) && (k in r ==> r[k] == p[k])
    decreases |keys|
  {
    if keys == [] then p else CopyFields(CopyField(p, obj, keys[0]), obj, keys[1..])
  }

  /** The optional descriptor fields copied as they are. */
  const OptionalFields: seq<string> := ["displayName", "description", "icon", "user", "group", "workingDirectory"]

  /** No optional field shares its key with an identity field, a hook or the environment. */
  lemma OptionalFieldsApart()
    ensures forall k :: k in OptionalFields ==>
              && k != "name" && k != "bin" && k != "type" && k != "flags"
              && k != "onStop" && k != "pause" && k != "resume"
              && k != "onPause" && k != "onResume" && k != "environment"
    ensures "name" !in OptionalFields && "bin" !in OptionalFields && "type" !in OptionalFields && "flags" !in OptionalFields
    ensures "onStop" !in OptionalFields && "pause" !in OptionalFields && "resume" !in OptionalFields
    ensures "onPause" !in OptionalFields && "onResume" !in OptionalFields && "environment" !in OptionalFields
  {
  }

  /** The keys the hooks of a descriptor are stored under. */
  predicate HookKey(k: string) { k == "onStop" || k == "pause" || k == "resume" }

  /**
   * The string a hook key receives for event: present only when the
   * descriptor has "events", and then read from the misspelt "evnets" object.
   */
  function Hook(obj: map<string, Json>, event: string): Option<Value>
  {
    var events := JToObject(JField(obj, "evnets"));
    if "events" in obj && event in events then Some(Str(JToString(events[event]))) else None
  }

  /** key in r holds h when h is present; otherwise key is as it was in p. */
  predicate HookSet(p: Config, r: Config, key: string, h: Option<Value>)
  {
    if h.Some? then key in r && r[key] == h.value
    else (key in r <==> key in p) && (key in r ==> r[key] == p[key])
  }

  /**
   * The hooks of a descriptor. They are read from the misspelt key "evnets"
   * whenever "events" is present; "stop" becomes onStop while "pause" and
   * "resume" are stored under "pause" and "resume".
   */
  function CopyHooks(p: Config, obj: map<string, Json>): (r: Config)
    ensures forall k :: !HookKey(k) ==>
              (k in r <==> k in p) && (k in r ==> r[k] == p[k])
    ensures "onStop" in r <==> "onStop" in p || ("events" in obj && "stop" in JToObject(JField(obj, "evnets")))
    ensures HookSet(p, r, "onStop", Hook(obj, "stop"))
    ensures HookSet(p, r, "pause", Hook(obj, "pause"))
    ensures HookSet(p, r, "resume", Hook(obj, "resume"))
  {
    if "events" in obj then
      var events := JToObject(JField(obj, "evnets"));
      var p1 := if "stop" in events then p["onStop" := Str(JToString(events["stop"]))] else p;
      var p2 := if "pause" in events then p1["pause" := Str(JToString(events["pause"]))] else p1;
      if "resume" in events then p2["resume" := Str(JToString(events["resume"]))] else p2
    else p
  }

  /** The fields every descriptor candidate has. */
  function CandidateBase(name: string, bin: string, kind: int, flags: seq<string>): (p: Config)
    ensures "name" in p && "bin" in p && "type" in p && "flags" in p
    ensures p["name"] == Str(name) && p["bin"] == Str(bin) && p["type"] == Int(kind) && p["flags"] == List(flags)
    ensures "onStop" !in p && "onPause" !in p && "onResume" !in p && "environment" !in p
    ensures "pause" !in p && "resume" !in p
    ensures forall k :: k in OptionalFields ==> k !in p
  {
    OptionalFieldsApart();
    map["name" := Str(name), "bin" := Str(bin), "type" := Int(kind), "flags" := List(flags)]
  }

  /** p keeps the identity fields and flags of base, and adds no onPause, onResume or environment. */
  predicate KeepsIdentity(base: Config, p: Config)
  {
    && (forall k :: k in base && (k == "name" || k == "bin" || k == "type" || k == "flags") ==>
          k in p && p[k] == base[k])
    && (forall k :: k !in base && (k == "onPause" || k == "onResume" || k == "environment") ==> k !in p)
  }

  /** p holds each optional field the descriptor has, as its string, and base's entry for each other one. */
  predicate CopiesOptional(base: Config, obj: map<string, Json>, p: Config)
  {
    && (forall k :: k in OptionalFields && k in obj ==> k in p && p[k] == Str(JToString(obj[k])))
    && (forall k :: k in OptionalFields && k !in obj ==> (k in p <==> k in base) && (k in p ==> p[k] == base[k]))
  }

  /** p holds the hooks the "evnets" object gives, and base's entry for each hook it does not give. */
  predicate CopiesHooks(base: Config, obj: map<string, Json>, p: Config)
  {
    && HookSet(base, p, "onStop", Hook(obj, "stop"))
    && HookSet(base, p, "pause", Hook(obj, "pause"))
    && HookSet(base, p, "resume", Hook(obj, "resume"))
  }

  /**
   * The optional fields and the hooks of a descriptor added to base; the
   * identity fields and flags of base are kept.
   */
  function WithDescriptorFields(base: Config, obj: map<string, Json>): (p: Config)
    ensures KeepsIdentity(base, p)
    ensures CopiesOptional(base, obj, p)
    ensures CopiesHooks(base, obj, p)
    ensures "onStop" !in base ==>
              ("onStop" in p <==> "events" in obj && "stop" in JToObject(JField(obj, "evnets")))
  {
    FieldsKeepBase(base, obj);
    FieldsCopied(base, obj);
    FieldsHooks(base, obj);
    CopyHooks(CopyFields(base, obj, OptionalFields), obj)
  }

  /** Copying the optional fields and hooks keeps the identity fields and adds no standard hook. */
  lemma FieldsKeepBase(base: Config, obj: map<string, Json>)
    ensures KeepsIdentity(base, CopyHooks(CopyFields(base, obj, OptionalFields), obj))
  {
    OptionalFieldsApart();
    assert !HookKey("name") && !HookKey("bin") && !HookKey("type") && !HookKey("flags");
    assert !HookKey("onPause") && !HookKey("onResume") && !HookKey("environment");
  }

  /** The hooks are copied after the optional fields and do not overwrite them. */
  lemma FieldsCopied(base: Config, obj: map<string, Json>)
    ensures CopiesOptional(base, obj, CopyHooks(CopyFields(base, obj, OptionalFields), obj))
  {
    OptionalFieldsApart();
    assert forall k :: k in OptionalFields ==> !HookKey(k);
  }

  /** The optional fields do not touch the hook keys, so the hooks are exactly what CopyHooks stores. */
  lemma FieldsHooks(base: Config, obj: map<string, Json>)
    ensures var p := CopyHooks(CopyFields(base, obj, OptionalFields), obj);
      && CopiesHooks(base, obj, p)
      && ("onStop" !in base ==> ("onStop" in p <==> "events" in obj && "stop" in JToObject(JField(obj, "evnets"))))
  {
    var fields := CopyFields(base, obj, OptionalFields);
    OptionalFieldsApart();
    assert ("onStop" in fields <==> "onStop" in base) && ("onStop" in base ==> fields["onStop"] == base["onStop"]);
    assert ("pause" in fields <==> "pause" in base) && ("pause" in base ==> fields["pause"] == base["pause"]);
    assert ("resume" in fields <==> "resume" in base) && ("resume" in base ==> fields["resume"] == base["resume"]);
  }

  /** The configuration a descriptor yields: its identity fields, then its optional fields and hooks. */
  function CandidateConfig(name: string, bin: string, kind: int, flags: seq<string>, obj: map<string, Json>): (p: Config)
    ensures "name" in p && "bin" in p && "type" in p && "flags" in p
    ensures p["name"] == Str(name) && p["bin"] == Str(bin) && p["type"] == Int(kind) && p["flags"] == List(flags)
  {
    var base := CandidateBase(name, bin, kind, flags);
    var p := WithDescriptorFields(base, obj);
    assert p["name"] == base["name"] && p["bin"] == base["bin"] && p["type"] == base["type"] && p["flags"] == base["flags"];
    p
  }

  /**
   * The registration properties of a descriptor, or None when its binary does
   * not exist. The environment object is read and then dropped.
   */
  function CandidateProps(name: string, obj: map<string, Json>, binaries: set<string>): (r: Option<Config>)
    ensures r.Some? <==> BinaryExists(binaries, JToString(JField(obj, "bin")))
    ensures r.Some? ==>
              && PropName(r.value) == name && ToString(Setting(r.value, "name")) == name
              && PropBin(r.value) == JToString(JField(obj, "bin"))
              && PropType(r.value) == DescriptorType(obj)
  {
    var bin := JToString(JField(obj, "bin"));
    if !BinaryExists(binaries, bin) then None
    else
      var p := CandidateConfig(name, bin, DescriptorType(obj), DescriptorFlags(obj), obj);
      IdentityReads(p, name, bin, DescriptorType(obj));
      Some(p)
  }

  /** A configuration holding a name, bin and type reads them back as registration properties. */
  lemma IdentityReads(p: Config, name: string, bin: string, kind: int)
    requires "name" in p && "bin" in p && "type" in p
    requires p["name"] == Str(name) && p["bin"] == Str(bin) && p["type"] == Int(kind)
    ensures PropName(p) == name && ToString(Setting(p, "name")) == name
    ensures PropBin(p) == bin && PropType(p) == kind
  {
  }

  /**
   * The flags and hooks of a candidate: flags as DescriptorFlags gives them;
   * no onPause, onResume or environment entry ever; an onStop entry exactly
   * when "events" is present and the misspelt "evnets" object has "stop".
   */
  lemma CandidateFlagsAndHooks(name: string, obj: map<string, Json>, binaries: set<string>)
    requires CandidateProps(name, obj, binaries).Some?
    ensures var p := CandidateProps(name, obj, binaries).value;
      && "flags" in p && p["flags"] == List(DescriptorFlags(obj))
      && "onPause" !in p && "onResume" !in p && "environment" !in p
      && ("onStop" in p <==> "events" in obj && "stop" in JToObject(JField(obj, "evnets")))
  {
    var bin := JToString(JField(obj, "bin"));
    var base := CandidateBase(name, bin, DescriptorType(obj), DescriptorFlags(obj));
    var p := WithDescriptorFields(base, obj);
    assert CandidateProps(name, obj, binaries).value == CandidateConfig(name, bin, DescriptorType(obj), DescriptorFlags(obj), obj) == p;
    assert "onStop" !in base && "onPause" !in base && "onResume" !in base && "environment" !in base;
  }

  /**
   * The copied fields of a candidate: each optional field exactly when the
   * descriptor has it, as its string; onStop, pause and resume exactly as
   * the "evnets" object gives them, and only when "events" is present.
   */
  lemma CandidateFields(name: string, obj: map<string, Json>, binaries: set<string>)
    requires CandidateProps(name, obj, binaries).Some?
    ensures CopiesOptional(map[], obj, CandidateProps(name, obj, binaries).value)
    ensures CopiesHooks(map[], obj, CandidateProps(name, obj, binaries).value)
  {
    var bin := JToString(JField(obj, "bin"));
    var base := CandidateBase(name, bin, DescriptorType(obj), DescriptorFlags(obj));
    var c := WithDescriptorFields(base, obj);
    assert CandidateProps(name, obj, binaries).value == CandidateConfig(name, bin, DescriptorType(obj), DescriptorFlags(obj), obj) == c;
  }

  /** A candidate that becomes an application is a system application. */
  lemma CandidateIsSystem(uuid: string -> string, name: string, obj: map<string, Json>, binaries: set<string>)
    requires UuidGenerator(uuid)
    requires CandidateProps(name, obj, binaries).Some?
    ensures IsSystem(NewApp(uuid, CandidateProps(name, obj, binaries).value))
  {
    var p := CandidateProps(name, obj, binaries).value;
    SystemFlagged(uuid, p, DescriptorFlags(obj));
  }

  /** Configurations whose flags start with "system" make system applications. */
  lemma SystemFlagged(uuid: string -> string, p: Config, flags: seq<string>)
    requires UuidGenerator(uuid)
    requires "flags" in p && p["flags"] == List(flags) && |flags| >= 1 && flags[0] == "system"
    ensures IsSystem(NewApp(uuid, p))
  {
    assert ValueOr(p, "flags", Null) == List(flags);
  }

  /**
   * A candidate's configuration is not a fixed point of reading it back as
   * a persisted record: the record adds the empty hooks a candidate never
   * has, starting with onPause.
   */
  lemma CandidateChangesOnReadBack(name: string, obj: map<string, Json>, binaries: set<string>)
    requires CandidateProps(name, obj, binaries).Some?
    ensures var c := CandidateProps(name, obj, binaries).value;
      && "onPause" !in c && "onPause" in RecordProps(c)
      && RecordProps(c) != c
  {
    var c := CandidateProps(name, obj, binaries).value;
    CandidateFlagsAndHooks(name, obj, binaries);
    var base := RecordCore(c) + RecordRest(c);
    assert "onPause" in base;
    assert "onPause" in CopySetting(base, c, "user");
  }

  /** Step 5 for one descriptor. */
  function ApplyCandidate(uuid: string -> string, reg: Registry, name: string, obj: map<string, Json>, binaries: set<string>): (res: Registry)
    requires UuidGenerator(uuid) && Sorted(reg)
    ensures Sorted(res)
  {
    match CandidateProps(name, obj, binaries)
    case None => reg
    case Some(p) => ApplyProps(uuid, reg, p, binaries)
  }

  /** Step 5 over the remaining descriptors in key order. */
  function ApplyCandidates(uuid: string -> string, reg: Registry, cands: QMap<map<string, Json>>, binaries: set<string>): (res: Registry)
    requires UuidGenerator(uuid) && Sorted(reg)
    ensures Sorted(res)
    decreases |cands|
  {
    if cands == [] then reg
    else
      var last := cands[|cands| - 1];
      ApplyCandidate(uuid, ApplyCandidates(uuid, reg, cands[..|cands| - 1], binaries), last.0, last.1, binaries)
  }

  lemma {:induction false} ApplyCandidatesKeepsWellFormed(uuid: string -> string, reg: Registry, cands: QMap<map<string, Json>>, binaries: set<string>)
    requires WellFormed(uuid, reg)
    ensures WellFormed(uuid, ApplyCandidates(uuid, reg, cands, binaries))
    decreases |cands|
  {
    if cands != [] {
      var prefix := cands[..|cands| - 1];
      var last := cands[|cands| - 1];
      ApplyCandidatesKeepsWellFormed(uuid, reg, prefix, binaries);
      var p := CandidateProps(last.0, last.1, binaries);
      if p.Some? {
        ApplyPropsKeepsWellFormed(uuid, ApplyCandidates(uuid, reg, prefix, binaries), p.value, binaries);
      }
    }
  }

  /** A step of step 5 for another name leaves an application as it was. */
  lemma ApplyCandidateKeeps(uuid: string -> string, reg: Registry, name: string, obj: map<string, Json>, binaries: set<string>, n: string)
    requires UuidGenerator(uuid) && Sorted(reg)
    requires n in ToMap(reg) && n != name
    ensures n in ToMap(ApplyCandidate(uuid, reg, name, obj, binaries))
    ensures ToMap(ApplyCandidate(uuid, reg, name, obj, binaries))[n] == ToMap(reg)[n]
  {
    var q := CandidateProps(name, obj, binaries);
    if q.Some? {
      assert PropName(q.value) == name;
    }
  }

  /** A step of step 5 for an admissible candidate files its configuration. */
  lemma ApplyCandidateSets(uuid: string -> string, reg: Registry, name: string, obj: map<string, Json>, binaries: set<string>)
    requires UuidGenerator(uuid) && Sorted(reg)
    requires CandidateProps(name, obj, binaries).Some?
    requires Admissible(CandidateProps(name, obj, binaries).value, binaries)
    ensures name in ToMap(ApplyCandidate(uuid, reg, name, obj, binaries))
    ensures ToMap(ApplyCandidate(uuid, reg, name, obj, binaries))[name].config == CandidateProps(name, obj, binaries).value
  {
    ApplyPropsFiles(uuid, ToMap(reg), CandidateProps(name, obj, binaries).value, binaries);
  }

  /**
   * A candidate whose binary exists and whose type is in range ends up
   * registered with the candidate's configuration, provided no later
   * candidate has the same name.
   */
  lemma {:induction false} ApplyCandidatesRegisters(uuid: string -> string, reg: Registry, cands: QMap<map<string, Json>>, binaries: set<string>, i: int)
    requires UuidGenerator(uuid) && Sorted(reg)
    requires 0 <= i < |cands| && forall j :: i < j < |cands| ==> cands[j].0 != cands[i].0
    requires CandidateProps(cands[i].0, cands[i].1, binaries).Some?
    requires Admissible(CandidateProps(cands[i].0, cands[i].1, binaries).value, binaries)
    ensures cands[i].0 in ToMap(ApplyCandidates(uuid, reg, cands, binaries))
    ensures ToMap(ApplyCandidates(uuid, reg, cands, binaries))[cands[i].0].config ==
              CandidateProps(cands[i].0, cands[i].1, binaries).value
    decreases |cands|
  {
    var prefix := cands[..|cands| - 1];
    var last := cands[|cands| - 1];
    var mid := ApplyCandidates(uuid, reg, prefix, binaries);
    if i < |cands| - 1 {
      assert prefix[i] == cands[i];
      forall j | i < j < |prefix| ensures prefix[j].0 != cands[i].0 {
        assert prefix[j] == cands[j];
      }
      ApplyCandidatesRegisters(uuid, reg, prefix, binaries, i);
      ApplyCandidateKeeps(uuid, mid, last.0, last.1, binaries, cands[i].0);
    } else {
      ApplyCandidateSets(uuid, mid, last.0, last.1, binaries);
    }
  }

  lemma {:induction false} ApplyCandidatesGrows(uuid: string -> string, reg: Registry, cands: QMap<map<string, Json>>, binaries: set<string>)
    requires UuidGenerator(uuid) && Sorted(reg)
    ensures ToMap(reg).Keys <= ToMap(ApplyCandidates(uuid, reg, cands, binaries)).Keys
    decreases |cands|
  {
    if cands != [] {
      ApplyCandidatesGrows(uuid, reg, cands[..|cands| - 1], binaries);
    }
  }

  /** Step 5 neither adds nor changes an application no candidate names. */
  lemma {:induction false} ApplyCandidatesOthers(uuid: string -> string, reg: Registry, cands: QMap<map<string, Json>>,
                                                 binaries: set<string>, n: string)
    requires UuidGenerator(uuid) && Sorted(reg)
    requires forall j :: 0 <= j < |cands| ==> cands[j].0 != n
    ensures n in ToMap(ApplyCandidates(uuid, reg, cands, binaries)) <==> n in ToMap(reg)
    ensures n in ToMap(reg) ==> ToMap(ApplyCandidates(uuid, reg, cands, binaries))[n] == ToMap(reg)[n]
    decreases |cands|
  {
    if cands != [] {
      var prefix := cands[..|cands| - 1];
      var last := cands[|cands| - 1];
      var mid := ApplyCandidates(uuid, reg, prefix, binaries);
      assert forall j :: 0 <= j < |prefix| ==> prefix[j] == cands[j];
      ApplyCandidatesOthers(uuid, reg, prefix, binaries, n);
      var q := CandidateProps(last.0, last.1, binaries);
      if q.Some? {
        assert PropName(q.value) == last.0 != n;
      }
    }
  }

  /**
   * Steps 4 and 5 leave a name no descriptor uses as step 2 left it:
   * registered or not, and with the same application.
   */
  lemma OutsideDescriptors(uuid: string -> string, m: map<string, Application>, kept: Registry,
                           d: map<string, map<string, Json>>, cands: QMap<map<string, Json>>,
                           binaries: set<string>, n: string)
    requires UuidGenerator(uuid) && Sorted(kept)
    requires ToMap(kept) == MatchKept(m, d) && ToMap(cands) == MatchCandidates(m, d)
    requires n !in d
    ensures n in ToMap(ApplyCandidates(uuid, kept, cands, binaries)) <==> n in m
    ensures n in m ==> ToMap(ApplyCandidates(uuid, kept, cands, binaries))[n] == m[n]
  {
    ToMapKeys(cands);
    ApplyCandidatesOthers(uuid, kept, cands, binaries, n);
  }

  /**
   * A descriptor naming an unregistered application whose type is
   * "backgroundable" never registers: registerApplication rejects the type.
   */
  lemma BackgroundableNeverRegisters(uuid: string -> string, reg: Registry, name: string, obj: map<string, Json>, binaries: set<string>)
    requires UuidGenerator(uuid) && Sorted(reg)
    requires !Contains(reg, name) && DescriptorType(obj) == Backgroundable
    ensures ToMap(ApplyCandidate(uuid, reg, name, obj, binaries)) == ToMap(reg)
  {
    var p := CandidateProps(name, obj, binaries);
    if p.Some? {
      assert !TypeInRange(PropType(p.value));
    }
  }

  /**
   * The end result of steps 4 and 5 for one descriptor: a descriptor whose
   * binary exists and whose type is in range names a registered application
   * afterwards, either a system application that was kept or the candidate
   * itself.
   */
  lemma DescriptorHonoured(uuid: string -> string, m: map<string, Application>, kept: Registry,
                           d: map<string, map<string, Json>>, cands: QMap<map<string, Json>>,
                           binaries: set<string>, n: string)
    requires UuidGenerator(uuid) && Sorted(kept) && Sorted(cands)
    requires ToMap(kept) == MatchKept(m, d) && ToMap(cands) == MatchCandidates(m, d)
    requires n in d && CandidateProps(n, d[n], binaries).Some?
    requires Admissible(CandidateProps(n, d[n], binaries).value, binaries)
    ensures n in ToMap(ApplyCandidates(uuid, kept, cands, binaries))
  {
    ApplyCandidatesGrows(uuid, kept, cands, binaries);
    if !(n in m && IsSystem(m[n])) {
      ToMapKeys(cands);
      var i :| 0 <= i < |cands| && cands[i].0 == n;
      ToMapAt(cands, i);
      SortedDistinct(cands, i);
      ApplyCandidatesRegisters(uuid, kept, cands, binaries, i);
    }
  }

  /** Step 5 leaves every application either as it was or a system application. */
  lemma {:induction false} ApplyCandidatesSystem(uuid: string -> string, reg: Registry, cands: QMap<map<string, Json>>,
                                                 binaries: set<string>, n: string)
    requires UuidGenerator(uuid) && Sorted(reg)
    requires n in ToMap(ApplyCandidates(uuid, reg, cands, binaries))
    ensures var app := ToMap(ApplyCandidates(uuid, reg, cands, binaries))[n];
            (n in ToMap(reg) && app == ToMap(reg)[n]) || IsSystem(app)
    decreases |cands|
  {
    if cands != [] {
      var last := cands[|cands| - 1];
      var mid := ApplyCandidates(uuid, reg, cands[..|cands| - 1], binaries);
      ApplyCandidateSystem(uuid, mid, last.0, last.1, binaries, n);
      if n in ToMap(mid) && ToMap(ApplyCandidate(uuid, mid, last.0, last.1, binaries))[n] == ToMap(mid)[n] {
        ApplyCandidatesSystem(uuid, reg, cands[..|cands| - 1], binaries, n);
      }
    }
  }

  /** A step of step 5 leaves every application either as it was or a system application. */
  lemma ApplyCandidateSystem(uuid: string -> string, reg: Registry, name: string, obj: map<string, Json>,
                             binaries: set<string>, n: string)
    requires UuidGenerator(uuid) && Sorted(reg)
    requires n in ToMap(ApplyCandidate(uuid, reg, name, obj, binaries))
    ensures var app := ToMap(ApplyCandidate(uuid, reg, name, obj, binaries))[n];
            (n in ToMap(reg) && app == ToMap(reg)[n]) || IsSystem(app)
  {
    var q := CandidateProps(name, obj, binaries);
    if q.Some? {
      CandidateIsSystem(uuid, name, obj, binaries);
      ApplyPropsSystem(uuid, ToMap(reg), q.value, binaries, n);
    }
  }

  /**
   * After steps 4 and 5 every registered application that a descriptor
   * names is a system application: a user application of that name was
   * unregistered, and whatever step 5 filed carries the "system" flag.
   */
  lemma DescriptorNamesSystem(uuid: string -> string, m: map<string, Application>, kept: Registry,
                              d: map<string, map<string, Json>>, cands: QMap<map<string, Json>>,
                              binaries: set<string>, n: string)
    requires UuidGenerator(uuid) && Sorted(kept)
    requires ToMap(kept) == MatchKept(m, d)
    requires n in d && n in ToMap(ApplyCandidates(uuid, kept, cands, binaries))
    ensures IsSystem(ToMap(ApplyCandidates(uuid, kept, cands, binaries))[n])
  {
    ApplyCandidatesSystem(uuid, kept, cands, binaries, n);
  }

  /** The i-th entry of a well-formed registry, as a loop over its keys meets it. */
  lemma FiledAt(uuid: string -> string, reg: Registry, i: int)
    requires WellFormed(uuid, reg) && 0 <= i < |reg|
    ensures reg[i].1.name == reg[i].0
    ensures reg[i].0 in ToMap(reg) && ToMap(reg)[reg[i].0] == reg[i].1
    ensures reg[i].0 !in Keys(reg)[..i]
  {
    assert EntryOk(uuid, reg[i].0, reg[i].1);
    ToMapAt(reg, i);
    SortedDistinct(reg, i);
  }

  /** Removing an entry keeps the registry well formed. */
  lemma RemoveKeepsWellFormed(uuid: string -> string, reg: Registry, name: string)
    requires WellFormed(uuid, reg)
    ensures WellFormed(uuid, Remove(reg, name))
  {
    RemoveSorted(reg, name);
    RemoveToMap(reg, name);
    WellFormedToMap(uuid, reg);
    WellFormedFromMap(uuid, Remove(reg, name));
  }
}
