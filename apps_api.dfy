/**
 * AppsAPI, the application registry of the system service: the registry
 * itself, the state views over it, and the class whose methods change it
 * and persist it to the settings store.
 */

module AppsApi {
  import opened Wrappers
  import opened QMaps
  import opened Variants
  import opened AppsModel
  import opened SettingsStore

  /** What the registry asks of an application object, in order. */
  datatype Effect =
    | Launch(path: string)
    | Pause(path: string, flag: bool)

  // ---------------------------------------------------------------------
  // Lookups and views (reads of the registry).

  /** getApplication(QDBusObjectPath): the first application in key order whose path is path. */
  function FindByPath(reg: Registry, path: string): (r: Option<Application>)
    ensures r.None? <==> forall i :: 0 <= i < |reg| ==> reg[i].1.path != path
    ensures r.Some? ==>
              exists i :: 0 <= i < |reg| && reg[i].1 == r.value && r.value.path == path &&
                forall j :: 0 <= j < i ==> reg[j].1.path != path
  {
    if reg == [] then None
    else if reg[0].1.path == path then Some(reg[0].1)
    else
      var r := FindByPath(reg[1..], path);
      assert forall j :: 1 <= j < |reg| ==> reg[j] == reg[1..][j - 1];
      r
  }

  /** getApplication(QString): the application filed under name, if any. */
  function FindByName(reg: Registry, name: string): (r: Option<Application>)
    ensures r.Some? <==> Contains(reg, name)
    ensures r.Some? ==> r.value == ToMap(reg)[name]
  {
    if Contains(reg, name) then Some(ToMap(reg)[name]) else None
  }

  /** getApplicationPath: the path of the application called name, or "/". */
  function ApplicationPath(reg: Registry, name: string): (p: string)
    ensures Contains(reg, name) ==> p == ToMap(reg)[name].path
    ensures !Contains(reg, name) ==> p == NoPath
  {
    match FindByName(reg, name)
    case None => NoPath
    case Some(app) => app.path
  }

  /** currentApplication: the path of the first application in the foreground, or "/". */
  function CurrentApplication(reg: Registry): (p: string)
    ensures (forall i :: 0 <= i < |reg| ==> reg[i].1.state != InForeground) ==> p == NoPath
    ensures (exists i :: 0 <= i < |reg| && reg[i].1.state == InForeground) ==>
              exists i :: 0 <= i < |reg| && reg[i].1.state == InForeground && reg[i].1.path == p &&
                forall j :: 0 <= j < i ==> reg[j].1.state != InForeground
  {
    if reg == [] then NoPath
    else if reg[0].1.state == InForeground then reg[0].1.path
    else
      var p := CurrentApplication(reg[1..]);
      assert forall j :: 1 <= j < |reg| ==> reg[j] == reg[1..][j - 1];
      p
  }

  predicate IsRunning(s: AppState) { s == InForeground || s == InBackground }

  /** getApplications: every application's path under its name. */
  function Listing(reg: Registry): (r: map<string, string>)
    ensures r.Keys == ToMap(reg).Keys
    ensures forall n :: n in r ==> r[n] == ToMap(reg)[n].path
  {
    map n | n in ToMap(reg) :: ToMap(reg)[n].path
  }

  /** runningApplications: the paths of the applications in the foreground or background. */
  function Running(reg: Registry): (r: map<string, string>)
    ensures forall n :: n in r <==> n in ToMap(reg) && IsRunning(ToMap(reg)[n].state)
    ensures forall n :: n in r ==> r[n] == ToMap(reg)[n].path
  {
    map n | n in ToMap(reg) && IsRunning(ToMap(reg)[n].state) :: ToMap(reg)[n].path
  }

  /** pausedApplications: the paths of the paused applications. */
  function PausedApps(reg: Registry): (r: map<string, string>)
    ensures forall n :: n in r <==> n in ToMap(reg) && ToMap(reg)[n].state == Paused
    ensures forall n :: n in r ==> r[n] == ToMap(reg)[n].path
  {
    map n | n in ToMap(reg) && ToMap(reg)[n].state == Paused :: ToMap(reg)[n].path
  }

  /**
   * The views partition the registry: no application is both running and
   * paused, every one of them is listed under its own path, and a listed
   * application in neither view is inactive.
   */
  lemma ViewsPartition(reg: Registry, n: string)
    ensures !(n in Running(reg) && n in PausedApps(reg))
    ensures n in Running(reg) ==> n in Listing(reg) && Running(reg)[n] == Listing(reg)[n]
    ensures n in PausedApps(reg) ==> n in Listing(reg) && PausedApps(reg)[n] == Listing(reg)[n]
    ensures n in Listing(reg) && n !in Running(reg) && n !in PausedApps(reg) ==> ToMap(reg)[n].state == Inactive
  {
  }

  /**
   * In a well-formed registry the current application is "/" exactly when
   * nothing is in the foreground, and otherwise it is a running application's
   * path.
   */
  lemma CurrentIsRunning(uuid: string -> string, reg: Registry)
    requires WellFormed(uuid, reg)
    ensures CurrentApplication(reg) == NoPath <==> forall i :: 0 <= i < |reg| ==> reg[i].1.state != InForeground
    ensures CurrentApplication(reg) != NoPath ==>
              exists n :: n in Running(reg) && Running(reg)[n] == CurrentApplication(reg)
  {
    if exists i :: 0 <= i < |reg| && reg[i].1.state == InForeground {
      var i :| 0 <= i < |reg| && reg[i].1.state == InForeground && reg[i].1.path == CurrentApplication(reg);
      assert EntryOk(uuid, reg[i].0, reg[i].1);
      ToMapKeys(reg);
      ToMapAt(reg, i);
      assert reg[i].0 in Running(reg);
    }
  }

  /**
   * In a well-formed registry a path lookup finds the application filed under
   * a name whenever its path is that name's path; nothing lives at "/".
   */
  lemma FindByPathFiled(uuid: string -> string, reg: Registry, path: string)
    requires WellFormed(uuid, reg)
    ensures FindByPath(reg, NoPath) == None
    ensures FindByPath(reg, path).Some? ==>
              var app := FindByPath(reg, path).value;
              app.name in ToMap(reg) && ToMap(reg)[app.name] == app
  {
    if FindByPath(reg, path).Some? {
      var app := FindByPath(reg, path).value;
      var i :| 0 <= i < |reg| && reg[i].1 == app;
      assert EntryOk(uuid, reg[i].0, reg[i].1);
      ToMapAt(reg, i);
    }
    forall i | 0 <= i < |reg| ensures reg[i].1.path != NoPath {
      assert EntryOk(uuid, reg[i].0, reg[i].1);
    }
  }

  /** The pause request pauseAll sends to every application, in key order. */
  function PauseRequests(reg: Registry): (r: seq<Effect>)
    ensures |r| == |reg|
    ensures forall i :: 0 <= i < |reg| ==> r[i] == Pause(reg[i].1.path, false)
  {
    seq(|reg|, i requires 0 <= i < |reg| => Pause(reg[i].1.path, false))
  }

  /** Step 1 after the names done have been visited. */
  ghost function RetainAmong(m: map<string, Application>, names: seq<string>, done: seq<string>): map<string, Application>
  {
    map n | n in m && (n !in done || n in names || IsSystem(m[n])) :: m[n]
  }

  lemma RetainStep(m: map<string, Application>, names: seq<string>, done: seq<string>, name: string)
    requires name in m && name !in done
    ensures RetainAmong(m, names, done + [name]) ==
              if name !in names && !IsSystem(m[name]) then RetainAmong(m, names, done) - {name}
              else RetainAmong(m, names, done)
  {
  }

  lemma RetainDone(m: map<string, Application>, names: seq<string>, done: seq<string>)
    requires forall n :: n in m ==> n in done
    ensures RetainAmong(m, names, done) == Retain(m, names)
  {
  }

  lemma MatchStep(m: map<string, Application>, d: map<string, map<string, Json>>, done: seq<string>, name: string)
    requires name in m && name !in done
    ensures KeptAmong(m, d, done + [name]) ==
              if name in d && !IsSystem(m[name]) then KeptAmong(m, d, done) - {name} else KeptAmong(m, d, done)
    ensures CandidatesAmong(m, d, done + [name]) ==
              if name in d && IsSystem(m[name]) then CandidatesAmong(m, d, done) - {name} else CandidatesAmong(m, d, done)
  {
  }

  lemma MatchDone(m: map<string, Application>, d: map<string, map<string, Json>>, done: seq<string>)
    requires forall n :: n in m ==> n in done
    ensures KeptAmong(m, d, done) == MatchKept(m, d)
    ensures CandidatesAmong(m, d, done) == MatchCandidates(m, d)
  {
  }

  /** Step 4 on the registry after the names done have been visited. */
  ghost function KeptAmong(m: map<string, Application>, d: map<string, map<string, Json>>, done: seq<string>): map<string, Application>
  {
    map n | n in m && (n !in done || n !in d || IsSystem(m[n])) :: m[n]
  }

  /** Step 4 on the descriptors after the names done have been visited. */
  ghost function CandidatesAmong(m: map<string, Application>, d: map<string, map<string, Json>>, done: seq<string>): map<string, map<string, Json>>
  {
    map n | n in d && !(n in done && n in m && IsSystem(m[n])) :: d[n]
  }

  /** A descriptor of that name exists, its binary exists and its type is in range. */
  predicate Registrable(d: map<string, map<string, Json>>, n: string, binaries: set<string>)
  {
    && n in d
    && CandidateProps(n, d[n], binaries).Some?
    && Admissible(CandidateProps(n, d[n], binaries).value, binaries)
  }

  /** One turn of the removal loop of step 1. */
  function DropTurn(reg: Registry, names: seq<string>, name: string): Registry
  {
    if Contains(reg, name) && name !in names && !IsSystem(ToMap(reg)[name]) then Remove(reg, name) else reg
  }

  /** The removal loop of step 1 over the given keys. */
  function DropFold(reg: Registry, names: seq<string>, keys: seq<string>): Registry
    decreases |keys|
  {
    if keys == [] then reg
    else DropTurn(DropFold(reg, names, keys[..|keys| - 1]), names, keys[|keys| - 1])
  }

  /** The removal loop over distinct registered names leaves what step 1 retains among them. */
  lemma {:induction false} DropFoldAmong(reg: Registry, names: seq<string>, keys: seq<string>)
    requires forall i :: 0 <= i < |keys| ==> keys[i] in ToMap(reg) && keys[i] !in keys[..i]
    ensures ToMap(DropFold(reg, names, keys)) == RetainAmong(ToMap(reg), names, keys)
    decreases |keys|
  {
    if keys == [] {
      assert RetainAmong(ToMap(reg), names, keys) == ToMap(reg);
    } else {
      var init := keys[..|keys| - 1];
      forall i | 0 <= i < |init| ensures init[i] in ToMap(reg) && init[i] !in init[..i] {
        assert init[..i] == keys[..i];
      }
      DropFoldAmong(reg, names, init);
      assert keys[|keys| - 1] !in init;
      DropTurnStep(DropFold(reg, names, init), ToMap(reg), names, init, keys[|keys| - 1]);
      assert init + [keys[|keys| - 1]] == keys;
    }
  }

  /** One removal turn extends the visited names by one. */
  lemma DropTurnStep(prev: Registry, m: map<string, Application>, names: seq<string>, done: seq<string>, name: string)
    requires ToMap(prev) == RetainAmong(m, names, done) && name in m && name !in done
    ensures ToMap(DropTurn(prev, names, name)) == RetainAmong(m, names, done + [name])
  {
    RetainStep(m, names, done, name);
    RemoveToMap(prev, name);
  }

  /** The removal loop over all keys of a well-formed registry leaves exactly what step 1 retains. */
  lemma DropFoldRetains(uuid: string -> string, reg: Registry, names: seq<string>)
    requires WellFormed(uuid, reg)
    ensures ToMap(DropFold(reg, names, Keys(reg))) == Retain(ToMap(reg), names)
  {
    var keys := Keys(reg);
    forall i | 0 <= i < |keys| ensures keys[i] in ToMap(reg) && keys[i] !in keys[..i] {
      FiledAt(uuid, reg, i);
    }
    DropFoldAmong(reg, names, keys);
    KeysCover(reg);
    RetainDone(ToMap(reg), names, Keys(reg));
  }

  /** One turn of the loop of step 4, for one application of the snapshot. */
  function MatchTurn(reg: Registry, cands: QMap<map<string, Json>>, app: Application): (Registry, QMap<map<string, Json>>)
  {
    if !Contains(cands, app.name) then (reg, cands)
    else if !IsSystem(app) then (Remove(reg, app.name), cands)
    else (reg, Remove(cands, app.name))
  }

  /** The loop of step 4 over the applications of a snapshot of the registry. */
  function MatchFold(reg: Registry, cands: QMap<map<string, Json>>, snapshot: Registry): (Registry, QMap<map<string, Json>>)
    decreases |snapshot|
  {
    if snapshot == [] then (reg, cands)
    else
      var prev := MatchFold(reg, cands, snapshot[..|snapshot| - 1]);
      MatchTurn(prev.0, prev.1, snapshot[|snapshot| - 1].1)
  }

  lemma MatchTurnAmong(m: map<string, Application>, d: map<string, map<string, Json>>, done: seq<string>,
                       reg: Registry, cands: QMap<map<string, Json>>, app: Application)
    requires ToMap(reg) == KeptAmong(m, d, done) && ToMap(cands) == CandidatesAmong(m, d, done) && Sorted(cands)
    requires app.name in m && m[app.name] == app && app.name !in done
    ensures var r := MatchTurn(reg, cands, app);
            && ToMap(r.0) == KeptAmong(m, d, done + [app.name])
            && ToMap(r.1) == CandidatesAmong(m, d, done + [app.name])
            && Sorted(r.1)
  {
    MatchStep(m, d, done, app.name);
    RemoveToMap(reg, app.name);
    RemoveToMap(cands, app.name);
    RemoveSorted(cands, app.name);
  }

  /** What the first j turns of step 4 have done, as a predicate on their result. */
  ghost predicate MatchedAmong(reg: Registry, cands: QMap<map<string, Json>>, j: int, r: (Registry, QMap<map<string, Json>>))
    requires 0 <= j <= |reg|
  {
    && ToMap(r.0) == KeptAmong(ToMap(reg), ToMap(cands), Keys(reg)[..j])
    && ToMap(r.1) == CandidatesAmong(ToMap(reg), ToMap(cands), Keys(reg)[..j])
    && Sorted(r.1)
  }

  lemma MatchFoldNext(uuid: string -> string, reg: Registry, cands: QMap<map<string, Json>>, j: int)
    requires WellFormed(uuid, reg) && 0 < j <= |reg|
    requires MatchedAmong(reg, cands, j - 1, MatchFold(reg, cands, reg[..j - 1]))
    ensures MatchedAmong(reg, cands, j, MatchFold(reg, cands, reg[..j]))
  {
    PrefixNext(reg, j);
    assert reg[..j][..j - 1] == reg[..j - 1];
    FiledAt(uuid, reg, j - 1);
    var prev := MatchFold(reg, cands, reg[..j - 1]);
    MatchTurnAmong(ToMap(reg), ToMap(cands), Keys(reg)[..j - 1], prev.0, prev.1, reg[j - 1].1);
  }

  lemma {:induction false} MatchFoldAmong(uuid: string -> string, reg: Registry, cands: QMap<map<string, Json>>, j: int)
    requires WellFormed(uuid, reg) && Sorted(cands) && 0 <= j <= |reg|
    ensures MatchedAmong(reg, cands, j, MatchFold(reg, cands, reg[..j]))
    decreases j
  {
    if j > 0 {
      MatchFoldAmong(uuid, reg, cands, j - 1);
      MatchFoldNext(uuid, reg, cands, j);
    } else {
      assert Keys(reg)[..0] == [] && reg[..0] == [];
      assert KeptAmong(ToMap(reg), ToMap(cands), []) == ToMap(reg);
      assert CandidatesAmong(ToMap(reg), ToMap(cands), []) == ToMap(cands);
    }
  }

  /** The loop of step 4 over a snapshot of a well-formed registry does what step 4 states. */
  lemma MatchFoldMatches(uuid: string -> string, reg: Registry, cands: QMap<map<string, Json>>)
    requires WellFormed(uuid, reg) && Sorted(cands)
    ensures var r := MatchFold(reg, cands, reg);
            && ToMap(r.0) == MatchKept(ToMap(reg), ToMap(cands))
            && ToMap(r.1) == MatchCandidates(ToMap(reg), ToMap(cands))
            && Sorted(r.1)
  {
    MatchFoldAmong(uuid, reg, cands, |reg|);
    assert reg[..|reg|] == reg;
    assert Keys(reg)[..|reg|] == Keys(reg);
    KeysCover(reg);
    MatchDone(ToMap(reg), ToMap(cands), Keys(reg));
  }

  // ---------------------------------------------------------------------
  // The registry object.

  class AppsAPI {
    /** The registry, keyed by application name. */
    var applications: Registry
    /** The startup application's path (a weak reference: it need not resolve). */
    var startupApplication: string
    var stopping: bool
    /** The name-based UUID generator getPath uses. */
    const uuid: string -> string
    /** The "applications" array of the settings store. */
    var slots: Slots
    var arraySize: nat
    /** The "startupApplication" key of the settings store. */
    var startupSetting: Option<string>
    /** Launch and pause requests made to application objects. */
    var effects: seq<Effect>

    ghost predicate Valid()
      reads this
    {
      WellFormed(uuid, applications)
    }

    /** A registry over a given store, before readApplications has filled it. */
    constructor (uuid: string -> string, slots: Slots, arraySize: nat)
      requires UuidGenerator(uuid)
      ensures Valid()
      ensures applications == [] && startupApplication == "" && !stopping && effects == []
      ensures this.uuid == uuid && this.slots == slots && this.arraySize == arraySize && startupSetting == None
    {
      this.uuid := uuid;
      applications := [];
      startupApplication := "";
      stopping := false;
      this.slots := slots;
      this.arraySize := arraySize;
      startupSetting := None;
      effects := [];
    }

    /** QSettings::setValue for every key of a configuration: the slot takes each value. */
    static method MergeSlot(slot: Config, config: Config) returns (r: Config)
      ensures r == slot + config
    {
      r := slot;
      var pending := config.Keys;
      while pending != {}
        invariant pending <= config.Keys
        invariant r == slot + map k | k in config && k !in pending :: config[k]
        decreases pending
      {
        var k :| k in pending;
        r := r[k := config[k]];
        pending := pending - {k};
      }
    }

    /** The loop of writeApplications: slot i takes the configuration of the i-th application. */
    static method WriteSlots(slots: Slots, apps: Registry) returns (s: Slots)
      ensures s == WrittenSlots(slots, apps, |apps|)
    {
      s := slots;
      var i := 0;
      while i < |apps|
        invariant 0 <= i <= |apps|
        invariant s == WrittenSlots(slots, apps, i)
      {
        WrittenSlotsAt(slots, apps, i);
        assert SlotAt(s, i) == SlotAt(slots, i);
        var slot := MergeSlot(SlotAt(s, i), apps[i].1.config);
        s := s[i := slot];
        i := i + 1;
      }
    }

    /** writeApplications: every application's configuration into its slot, in key order. */
    method WriteApplications()
      requires Valid()
      modifies this
      ensures slots == WrittenSlots(old(slots), applications, |applications|)
      ensures arraySize == |applications|
      ensures Reflects(slots, arraySize, applications)
      ensures applications == old(applications)
      ensures startupApplication == old(startupApplication) && stopping == old(stopping)
      ensures startupSetting == old(startupSetting) && effects == old(effects)
      ensures Valid()
    {
      slots := WriteSlots(slots, applications);
      arraySize := |applications|;
      WrittenReflects(old(slots), applications);
    }

    /**
     * registerApplication without its final write: validation, the existing
     * path for a known name, or a new entry at the name's path.
     */
    method Admit(props: Config, binaries: set<string>) returns (path: string, inserted: bool)
      requires Valid()
      modifies this
      ensures Valid()
      ensures (applications, path) == Register(uuid, old(applications), props, binaries)
      ensures inserted <==> Admissible(props, binaries) && !Contains(old(applications), PropName(props))
      ensures slots == old(slots) && arraySize == old(arraySize)
      ensures startupApplication == old(startupApplication) && stopping == old(stopping)
      ensures startupSetting == old(startupSetting) && effects == old(effects)
    {
      var name := PropName(props);
      var bin := PropBin(props);
      var kind := PropType(props);
      if kind < Foreground || kind > Background || name == "" || bin == "" || bin !in binaries {
        return NoPath, false;
      }
      if Contains(applications, name) {
        return ToMap(applications)[name].path, false;
      }
      RegisterKeepsWellFormed(uuid, applications, props, binaries);
      path := PathFor(uuid, name);
      applications := Insert(applications, name, Application(name, path, props, Inactive));
      inserted := true;
    }

    /** registerApplication: a new entry is persisted at once. */
    method RegisterApplication(props: Config, binaries: set<string>) returns (path: string)
      requires Valid()
      modifies this
      ensures Valid()
      ensures (applications, path) == Register(uuid, old(applications), props, binaries)
      ensures Admissible(props, binaries) && !Contains(old(applications), PropName(props)) ==>
                slots == WrittenSlots(old(slots), applications, |applications|) && arraySize == |applications|
      ensures !(Admissible(props, binaries) && !Contains(old(applications), PropName(props))) ==>
                slots == old(slots) && arraySize == old(arraySize)
      ensures startupApplication == old(startupApplication) && stopping == old(stopping)
      ensures startupSetting == old(startupSetting) && effects == old(effects)
    {
      var inserted;
      path, inserted := Admit(props, binaries);
      if inserted {
        WriteApplications();
      }
    }

    /** unregisterApplication(Application*), given the application's name. */
    method UnregisterApp(name: string)
      requires Valid()
      modifies this
      ensures Valid()
      ensures applications == Remove(old(applications), name)
      ensures ToMap(applications) == ToMap(old(applications)) - {name}
      ensures Contains(old(applications), name) ==>
                && slots == WrittenSlots(old(slots), applications, |applications|) && arraySize == |applications|
                && Reflects(slots, arraySize, applications)
      ensures !Contains(old(applications), name) ==>
                applications == old(applications) && slots == old(slots) && arraySize == old(arraySize)
      ensures startupApplication == old(startupApplication) && stopping == old(stopping)
      ensures startupSetting == old(startupSetting) && effects == old(effects)
    {
      RemoveToMap(applications, name);
      if Contains(applications, name) {
        RemoveKeepsWellFormed(uuid, applications, name);
        applications := Remove(applications, name);
        WriteApplications();
      } else {
        RemoveAbsent(applications, name);
      }
    }

    /**
     * unregisterApplication(QDBusObjectPath): an unknown path succeeds and
     * changes nothing, a system application is refused, any other is removed.
     */
    method UnregisterApplication(path: string) returns (ok: bool)
      requires Valid()
      modifies this
      ensures Valid()
      ensures var found := FindByPath(old(applications), path);
              && (ok <==> !(found.Some? && IsSystem(found.value)))
              && (found.Some? && !IsSystem(found.value) ==>
                    && ToMap(applications) == ToMap(old(applications)) - {found.value.name}
                    && found.value.name in ToMap(old(applications))
                    && slots == WrittenSlots(old(slots), applications, |applications|)
                    && arraySize == |applications|
                    && Reflects(slots, arraySize, applications))
              && (!(found.Some? && !IsSystem(found.value)) ==>
                    applications == old(applications) && slots == old(slots) && arraySize == old(arraySize))
      ensures startupApplication == old(startupApplication) && stopping == old(stopping)
      ensures startupSetting == old(startupSetting) && effects == old(effects)
    {
      var app := FindByPath(applications, path);
      if app.None? {
        return true;
      }
      if IsSystem(app.value) {
        return false;
      }
      FindByPathFiled(uuid, applications, path);
      UnregisterApp(app.value.name);
      ok := true;
    }

    /** setStartupApplication: only a path that resolves is taken, and then stored. */
    method SetStartupApplication(path: string)
      modifies this
      ensures FindByPath(applications, path).Some? ==>
                startupApplication == path && startupSetting == Some(path)
      ensures FindByPath(applications, path).None? ==>
                startupApplication == old(startupApplication) && startupSetting == old(startupSetting)
      ensures applications == old(applications) && stopping == old(stopping) && effects == old(effects)
      ensures slots == old(slots) && arraySize == old(arraySize)
    {
      if FindByPath(applications, path).Some? {
        startupApplication := path;
        startupSetting := Some(path);
      }
    }

    /** pauseAll: every application is asked to pause, in key order. */
    method PauseAll()
      modifies this
      ensures effects == old(effects) + PauseRequests(applications)
      ensures applications == old(applications) && slots == old(slots) && arraySize == old(arraySize)
      ensures startupApplication == old(startupApplication) && stopping == old(stopping)
      ensures startupSetting == old(startupSetting)
    {
      var apps := applications;
      var i := 0;
      while i < |apps|
        invariant 0 <= i <= |apps|
        invariant effects == old(effects) + PauseRequests(apps)[..i]
        invariant applications == apps && slots == old(slots) && arraySize == old(arraySize)
        invariant startupApplication == old(startupApplication) && stopping == old(stopping)
        invariant startupSetting == old(startupSetting)
      {
        effects := effects + [Pause(apps[i].1.path, false)];
        i := i + 1;
        assert PauseRequests(apps)[..i] == PauseRequests(apps)[..i - 1] + [Pause(apps[i - 1].1.path, false)];
      }
      assert PauseRequests(apps)[..|apps|] == PauseRequests(apps);
    }

    /**
     * resumeIfNone: unless the registry is stopping or something is in the
     * foreground, the startup application is launched if it resolves.
     */
    method ResumeIfNone()
      modifies this
      ensures var idle := !old(stopping) &&
                          forall i :: 0 <= i < |old(applications)| ==> old(applications)[i].1.state != InForeground;
              var app := FindByPath(old(applications), old(startupApplication));
              effects == old(effects) + (if idle && app.Some? then [Launch(app.value.path)] else [])
      ensures applications == old(applications) && slots == old(slots) && arraySize == old(arraySize)
      ensures startupApplication == old(startupApplication) && stopping == old(stopping)
      ensures startupSetting == old(startupSetting)
    {
      if stopping {
        return;
      }
      if exists i :: 0 <= i < |applications| && applications[i].1.state == InForeground {
        return;
      }
      var app := FindByPath(applications, startupApplication);
      if app.Some? {
        effects := effects + [Launch(app.value.path)];
      }
    }

    /**
     * leftHeld: the startup application is launched unless it is already the
     * current one and active. The source dereferences the lookup of the
     * current path, so something must be in the foreground.
     */
    method LeftHeld()
      requires exists i :: 0 <= i < |applications| && applications[i].1.state == InForeground
      modifies this
      ensures var current := FindByPath(old(applications), CurrentApplication(old(applications)));
              var app := FindByPath(old(applications), old(startupApplication));
              && current.Some?
              && effects == old(effects) +
                   (if current.value.state != Inactive && current.value.path == old(startupApplication) then []
                    else if app.Some? then [Launch(app.value.path)]
                    else [])
      ensures applications == old(applications) && slots == old(slots) && arraySize == old(arraySize)
      ensures startupApplication == old(startupApplication) && stopping == old(stopping)
      ensures startupSetting == old(startupSetting)
    {
      var current := FindByPath(applications, CurrentApplication(applications));
      if current.value.state != Inactive && current.value.path == startupApplication {
        return;
      }
      var app := FindByPath(applications, startupApplication);
      if app.Some? {
        effects := effects + [Launch(app.value.path)];
      }
    }

    /** homeHeld: the process manager is launched unless it is missing or already in the foreground. */
    method HomeHeld()
      modifies this
      ensures var app := FindByName(old(applications), ProcessManager);
              effects == old(effects) +
                (if app.Some? && app.value.state != InForeground then [Launch(app.value.path)] else [])
      ensures applications == old(applications) && slots == old(slots) && arraySize == old(arraySize)
      ensures startupApplication == old(startupApplication) && stopping == old(stopping)
      ensures startupSetting == old(startupSetting)
    {
      var app := FindByName(applications, ProcessManager);
      if app.None? {
        return;
      }
      if app.value.state == InForeground {
        return;
      }
      effects := effects + [Launch(app.value.path)];
    }

    /** The first loop of readApplications: the "name" of every stored record, in index order. */
    static method ReadNames(slots: Slots, size: nat) returns (names: seq<string>)
      ensures names == StoredNames(slots, size)
    {
      names := [];
      var i := 0;
      while i < size
        invariant 0 <= i <= size
        invariant names == StoredNames(slots, size)[..i]
      {
        names := names + [RecordName(SlotAt(slots, i))];
        i := i + 1;
      }
    }

    /** One turn of the removal loop of step 1: the application name is unregistered if unlisted and not a system one. */
    method DropIfUnlisted(name: string, names: seq<string>)
      requires Valid()
      modifies this
      ensures Valid()
      ensures applications == DropTurn(old(applications), names, name)
      ensures || (applications == old(applications) && slots == old(slots) && arraySize == old(arraySize))
              || Reflects(slots, arraySize, applications)
      ensures startupApplication == old(startupApplication) && stopping == old(stopping)
      ensures startupSetting == old(startupSetting) && effects == old(effects)
    {
      if !Contains(applications, name) {
        return;
      }
      var app := ToMap(applications)[name];
      if name !in names && !IsSystem(app) {
        UnregisterApp(name);
      }
    }

    /**
     * readApplications, step 1: when the registry is not empty, user
     * applications whose names the stored array does not hold are
     * unregistered, each removal writing the store.
     */
    method DropUnpersisted()
      requires Valid()
      modifies this
      ensures Valid()
      ensures ToMap(applications) == Retain(ToMap(old(applications)), StoredNames(old(slots), old(arraySize)))
      ensures (slots == old(slots) && arraySize == old(arraySize)) || Reflects(slots, arraySize, applications)
      ensures startupApplication == old(startupApplication) && stopping == old(stopping)
      ensures startupSetting == old(startupSetting) && effects == old(effects)
    {
      if applications == [] {
        return;
      }
      var names := ReadNames(slots, arraySize);
      var keys := Keys(applications);
      var j := 0;
      while j < |keys|
        invariant 0 <= j <= |keys|
        invariant Valid()
        invariant startupApplication == old(startupApplication) && stopping == old(stopping)
        invariant startupSetting == old(startupSetting) && effects == old(effects)
        invariant applications == DropFold(old(applications), names, keys[..j])
        invariant (slots == old(slots) && arraySize == old(arraySize)) || Reflects(slots, arraySize, applications)
      {
        DropIfUnlisted(keys[j], names);
        assert keys[..j + 1][..j] == keys[..j];
        j := j + 1;
      }
      assert keys[..|keys|] == keys;
      DropFoldRetains(uuid, old(applications), names);
    }

    /** One record of step 2: a valid record updates its application's configuration or registers it. */
    method ApplyRecordStep(r: Config, binaries: set<string>)
      requires Valid()
      modifies this
      ensures Valid()
      ensures applications == ApplyRecord(uuid, old(applications), r, binaries)
      ensures slots == old(slots) && arraySize == old(arraySize)
      ensures startupApplication == old(startupApplication) && stopping == old(stopping)
      ensures startupSetting == old(startupSetting) && effects == old(effects)
    {
      var name := RecordName(r);
      var kind := RecordType(r);
      var bin := RecordBin(r);
      if kind < Foreground || kind > Background || name == "" || bin == "" {
        return;
      }
      var props := RecordProps(r);
      ApplyPropsKeepsWellFormed(uuid, applications, props, binaries);
      if Contains(applications, name) {
        // The write that follows lands in the nested group of the open read array.
        applications := Insert(applications, name, ToMap(applications)[name].(config := props));
      } else {
        var _, _ := Admit(props, binaries);
      }
    }

    /**
     * readApplications, step 2: every stored record, in index order, creates
     * or updates an application. Writes made while the array is open go to a
     * nested group, so the top-level array is left as it was.
     */
    method ApplyPersisted(binaries: set<string>)
      requires Valid()
      modifies this
      ensures Valid()
      ensures applications == ApplyRecords(uuid, old(applications), StoredRecords(old(slots), old(arraySize)), binaries)
      ensures slots == old(slots) && arraySize == old(arraySize)
      ensures startupApplication == old(startupApplication) && stopping == old(stopping)
      ensures startupSetting == old(startupSetting) && effects == old(effects)
    {
      var size := arraySize;
      ghost var records := StoredRecords(slots, size);
      var i := 0;
      while i < size
        invariant 0 <= i <= size
        invariant Valid() && slots == old(slots) && arraySize == old(arraySize)
        invariant startupApplication == old(startupApplication) && stopping == old(stopping)
        invariant startupSetting == old(startupSetting) && effects == old(effects)
        invariant applications == ApplyRecords(uuid, old(applications), records[..i], binaries)
      {
        ApplyRecordStep(SlotAt(slots, i), binaries);
        assert records[..i + 1][..i] == records[..i];
        i := i + 1;
      }
      assert records[..size] == records;
    }

    /** readApplications, step 3: the readable descriptor files, by complete base name. */
    static method ScanDescriptors(listing: seq<DirEntry>) returns (apps: QMap<map<string, Json>>)
      ensures Sorted(apps)
      ensures ToMap(apps) == Descriptors(listing)
    {
      apps := [];
      var i := 0;
      while i < |listing|
        invariant 0 <= i <= |listing|
        invariant Sorted(apps) && ToMap(apps) == Descriptors(listing[..i])
      {
        var entry := listing[i];
        if IsDescriptorFile(entry.fileName) && entry.content.Some? {
          var name := BaseName(entry.fileName);
          var app := DescriptorObject(entry);
          InsertSorted(apps, name, app);
          InsertToMap(apps, name, app);
          apps := Insert(apps, name, app);
        }
        assert listing[..i + 1][..i] == listing[..i];
        i := i + 1;
      }
      assert listing[..|listing|] == listing;
    }

    /** One application of step 4, against the descriptors still unmatched. */
    method MatchOne(app: Application, cands: QMap<map<string, Json>>) returns (rest: QMap<map<string, Json>>)
      requires Valid()
      modifies this
      ensures Valid()
      ensures applications == MatchTurn(old(applications), cands, app).0
      ensures rest == MatchTurn(old(applications), cands, app).1
      ensures || (applications == old(applications) && slots == old(slots) && arraySize == old(arraySize))
              || Reflects(slots, arraySize, applications)
      ensures startupApplication == old(startupApplication) && stopping == old(stopping)
      ensures startupSetting == old(startupSetting) && effects == old(effects)
    {
      var name := app.name;
      rest := cands;
      if !Contains(cands, name) {
        return;
      }
      if !IsSystem(app) {
        UnregisterApp(name);
        return;
      }
      rest := Remove(cands, name);
    }

    /**
     * readApplications, step 4: over a snapshot of the applications, a user
     * application that a descriptor names is unregistered, and the
     * descriptor of a system application is dropped.
     */
    method MatchDescriptors(apps: QMap<map<string, Json>>) returns (cands: QMap<map<string, Json>>)
      requires Valid() && Sorted(apps)
      modifies this
      ensures Valid() && Sorted(cands)
      ensures ToMap(applications) == MatchKept(ToMap(old(applications)), ToMap(apps))
      ensures ToMap(cands) == MatchCandidates(ToMap(old(applications)), ToMap(apps))
      ensures (slots == old(slots) && arraySize == old(arraySize)) || Reflects(slots, arraySize, applications)
      ensures startupApplication == old(startupApplication) && stopping == old(stopping)
      ensures startupSetting == old(startupSetting) && effects == old(effects)
    {
      var snapshot := applications;
      cands := apps;
      var i := 0;
      while i < |snapshot|
        invariant 0 <= i <= |snapshot|
        invariant Valid()
        invariant startupApplication == old(startupApplication) && stopping == old(stopping)
        invariant startupSetting == old(startupSetting) && effects == old(effects)
        invariant applications == MatchFold(old(applications), apps, snapshot[..i]).0
        invariant cands == MatchFold(old(applications), apps, snapshot[..i]).1
        invariant (slots == old(slots) && arraySize == old(arraySize)) || Reflects(slots, arraySize, applications)
      {
        cands := MatchOne(snapshot[i].1, cands);
        assert snapshot[..i + 1][..i] == snapshot[..i];
        i := i + 1;
      }
      assert snapshot[..|snapshot|] == snapshot;
      MatchFoldMatches(uuid, old(applications), apps);
    }

    /** One descriptor of step 5: its candidate configuration updates or registers the application. */
    method RegisterCandidate(name: string, obj: map<string, Json>, binaries: set<string>)
      requires Valid()
      modifies this
      ensures Valid()
      ensures applications == ApplyCandidate(uuid, old(applications), name, obj, binaries)
      ensures || (applications == old(applications) && slots == old(slots) && arraySize == old(arraySize))
              || Reflects(slots, arraySize, applications)
      ensures startupApplication == old(startupApplication) && stopping == old(stopping)
      ensures startupSetting == old(startupSetting) && effects == old(effects)
    {
      var props := CandidateProps(name, obj, binaries);
      if props.None? {
        return;
      }
      FileCandidate(props.value, binaries);
    }

    /**
     * Step 5 for a candidate configuration: a registered name has its
     * configuration replaced and the array rewritten, an unknown one goes
     * through registerApplication.
     */
    method FileCandidate(props: Config, binaries: set<string>)
      requires Valid()
      modifies this
      ensures Valid()
      ensures applications == ApplyProps(uuid, old(applications), props, binaries)
      ensures || (applications == old(applications) && slots == old(slots) && arraySize == old(arraySize))
              || Reflects(slots, arraySize, applications)
      ensures startupApplication == old(startupApplication) && stopping == old(stopping)
      ensures startupSetting == old(startupSetting) && effects == old(effects)
    {
      var name := PropName(props);
      ApplyPropsKeepsWellFormed(uuid, applications, props, binaries);
      if Contains(applications, name) {
        applications := Insert(applications, name, ToMap(applications)[name].(config := props));
        WriteApplications();
      } else {
        var _ := RegisterApplication(props, binaries);
        WrittenReflects(old(slots), applications);
      }
    }

    /** readApplications, step 5: every remaining descriptor, in name order. */
    method RegisterCandidates(cands: QMap<map<string, Json>>, binaries: set<string>)
      requires Valid()
      modifies this
      ensures Valid()
      ensures applications == ApplyCandidates(uuid, old(applications), cands, binaries)
      ensures (slots == old(slots) && arraySize == old(arraySize)) || Reflects(slots, arraySize, applications)
      ensures startupApplication == old(startupApplication) && stopping == old(stopping)
      ensures startupSetting == old(startupSetting) && effects == old(effects)
    {
      var i := 0;
      while i < |cands|
        invariant 0 <= i <= |cands|
        invariant Valid()
        invariant startupApplication == old(startupApplication) && stopping == old(stopping)
        invariant startupSetting == old(startupSetting) && effects == old(effects)
        invariant applications == ApplyCandidates(uuid, old(applications), cands[..i], binaries)
        invariant (slots == old(slots) && arraySize == old(arraySize)) || Reflects(slots, arraySize, applications)
      {
        RegisterCandidate(cands[i].0, cands[i].1, binaries);
        assert cands[..i + 1][..i] == cands[..i];
        i := i + 1;
      }
      assert cands[..|cands|] == cands;
    }

    /**
     * readApplications: the five steps in order. The ghost results name what
     * steps 1 and 2 leave: the registry after the unpersisted user
     * applications are dropped, the store step 2 reads, and the registry
     * after the persisted records are applied. Afterwards a name no
     * descriptor uses is registered exactly as step 2 left it; every
     * descriptor whose binary exists and whose type is in range names a
     * registered application; and every registered application a descriptor
     * names is a system application.
     */
    method ReadApplications(binaries: set<string>, listing: seq<DirEntry>)
      returns (ghost retained: Registry, ghost stored: Slots, ghost storedSize: int, ghost persisted: Registry)
      requires Valid()
      modifies this
      ensures Valid() && WellFormed(uuid, retained)
      ensures ToMap(retained) == Retain(ToMap(old(applications)), StoredNames(old(slots), old(arraySize)))
      ensures (stored == old(slots) && storedSize == old(arraySize)) || Reflects(stored, storedSize, retained)
      ensures persisted == ApplyRecords(uuid, retained, StoredRecords(stored, storedSize), binaries)
      ensures forall n :: n !in Descriptors(listing) ==> (Contains(applications, n) <==> Contains(persisted, n))
      ensures forall n :: n !in Descriptors(listing) && Contains(applications, n) ==>
                Contains(persisted, n) && ToMap(applications)[n] == ToMap(persisted)[n]
      ensures forall n :: Registrable(Descriptors(listing), n, binaries) ==> Contains(applications, n)
      ensures forall n :: n in Descriptors(listing) && Contains(applications, n) ==> IsSystem(ToMap(applications)[n])
      ensures startupApplication == old(startupApplication) && stopping == old(stopping)
      ensures startupSetting == old(startupSetting) && effects == old(effects)
    {
      DropUnpersisted();
      retained, stored, storedSize := applications, slots, arraySize;
      ApplyPersisted(binaries);
      persisted := applications;
      ghost var m := ToMap(applications);
      var apps := ScanDescriptors(listing);
      var cands := MatchDescriptors(apps);
      ghost var kept := applications;
      RegisterCandidates(cands, binaries);
      ghost var d := Descriptors(listing);
      forall n | n !in d
        ensures (Contains(applications, n) <==> Contains(persisted, n))
        ensures Contains(applications, n) ==> ToMap(applications)[n] == ToMap(persisted)[n]
      {
        OutsideDescriptors(uuid, m, kept, d, cands, binaries, n);
      }
      forall n | Registrable(d, n, binaries)
        ensures Contains(applications, n)
      {
        DescriptorHonoured(uuid, m, kept, d, cands, binaries, n);
      }
      forall n | n in d && Contains(applications, n)
        ensures IsSystem(ToMap(applications)[n])
      {
        DescriptorNamesSystem(uuid, m, kept, d, cands, binaries, n);
      }
    }

    /**
     * reload: read the registry back, then write it; the store then holds
     * every registered name, and the registry is what readApplications left.
     */
    method Reload(binaries: set<string>, listing: seq<DirEntry>)
      returns (ghost retained: Registry, ghost stored: Slots, ghost storedSize: int, ghost persisted: Registry)
      requires Valid()
      modifies this
      ensures Valid() && WellFormed(uuid, retained)
      ensures ToMap(retained) == Retain(ToMap(old(applications)), StoredNames(old(slots), old(arraySize)))
      ensures (stored == old(slots) && storedSize == old(arraySize)) || Reflects(stored, storedSize, retained)
      ensures persisted == ApplyRecords(uuid, retained, StoredRecords(stored, storedSize), binaries)
      ensures forall n :: n !in Descriptors(listing) ==> (Contains(applications, n) <==> Contains(persisted, n))
      ensures forall n :: n !in Descriptors(listing) && Contains(applications, n) ==>
                Contains(persisted, n) && ToMap(applications)[n] == ToMap(persisted)[n]
      ensures forall n :: Registrable(Descriptors(listing), n, binaries) ==> Contains(applications, n)
      ensures forall n :: n in Descriptors(listing) && Contains(applications, n) ==> IsSystem(ToMap(applications)[n])
      ensures Reflects(slots, arraySize, applications)
      ensures StoredNames(slots, arraySize) == Keys(applications)
      ensures startupApplication == old(startupApplication) && stopping == old(stopping)
      ensures startupSetting == old(startupSetting) && effects == old(effects)
    {
      retained, stored, storedSize, persisted := ReadApplications(binaries, listing);
      WriteApplications();
      ReflectsNames(uuid, slots, arraySize, applications);
    }
  }
}
