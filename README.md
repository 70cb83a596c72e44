# Oxide system service, lockscreen and rot: a Dafny model

This project models four parts of the Oxide desktop environment for the
reMarkable tablet and proves properties of them.

**The application registry (`AppsAPI`).** The system service keeps a registry
of applications. It is keyed by unique name and holds each application's
D-Bus path, its configuration and an abstract run state. The model covers:

- registration, with its input validation;
- unregistration, which protects system applications;
- the startup-application reference;
- the foreground, running and paused views, and lookup by path and by name;
- the button handlers (left held, home held) and the suspend/resume helpers;
- persistence of the registry to the numbered-record array of its settings
  store, written in key order;
- the five-step reconciliation (`readApplications`) between the registry, the
  persisted records and the `*.oxide` descriptor files.

**The lockscreen `Controller`.** The model covers:

- the PIN entry state: at most four characters, complete at exactly four,
  cleared on suspend;
- the settings-version migration gate;
- the handlers that copy wifi, battery and charger state codes onto the QML
  status widgets.

**The wifi service's `BSS` list.** One access point as seen through the
supplicant proxies that report it. The model covers:

- insertion, de-duplicated by D-Bus path;
- removal by path or invalidity, walking the list in place;
- the properties aggregated from the list.

**The `rot` command-line tool.** The model covers the positional-argument
checks made before any service is contacted, and the scalar branches of its
JSON rendering.

Files:

- `wrappers.dfy`: `Option`.
- `qmap.dfy`: a `QMap` as an association list strictly sorted in UTF-16
  code-unit order, as QString compares (`QMaps`).
  `ToMap` gives its dictionary view.
- `variants.dfy`: the QVariant and QJsonValue kinds the registry uses, with
  Qt's conversions.
- `apps_model.dfy`: the pure registry semantics (`AppsModel`). Each step of
  reconciliation is written as a fold over its input.
- `settings_store.dfy`: the settings array (`SettingsStore`).
- `apps_api.dfy`: the registry's lookups and views, and the class `AppsAPI`,
  whose methods change the registry in place. Each method is proved against
  the folds in `apps_model.dfy`.
- `lockscreen.dfy`, `bss.dfy`, `rot.dfy`: the other three components.

Modelling choices:

- **Application objects.** An application is a value (name, path,
  configuration, state). The calls the registry makes on application objects
  (`launch`, `pause`) are appended to an `effects` log.
- **System applications.** An application is a system application when
  `"system"` is among its configuration's `flags`.
- **`getPath`.** It is modelled as the fixed prefix
  `/codes/eeems/oxide1/apps/` followed by an uninterpreted name-based UUID
  function (`uuid`). Every output of `uuid` is assumed to be 32 lower-case
  hex digits (`UuidGenerator`).
- **File system.** Binaries that exist are a set parameter, and the
  descriptor directory is a list of entries.
- **Settings store.** The store is a map from record index to record, plus
  the array size. A write merges each application's settings into its record
  key by key, so stale keys and stale records beyond the new size remain, as
  they do in QSettings.
  - A record keeps a `"user"` or `"group"` that an earlier occupant of the
    same index wrote. Step 2 of the next read copies it into the
    configuration of the application now at that index (appsapi.h:271-283,
    326-329; `SettingsStore.StaleUserCarried`).

## Code and documentation differ

The project's own description of the system differs from its code in the
places below. The model follows the code each time.

- **`pauseAll`.** The description says it pauses with the "stopping"
  semantics. The code passes `false` (appsapi.h:167).
- **Backgroundable type.** The description treats Backgroundable as a type
  that can be registered. The registration guard `type > Background` rejects
  it (appsapi.h:76, 309). So a `"backgroundable"` descriptor is parsed
  (appsapi.h:371-372) but never registered (`BackgroundableNeverRegisters`).
- **Descriptor event hooks.**
  - The description says hooks come from an `events` mapping. The code tests
    for `"events"` but reads `"evnets"` (appsapi.h:414-415).
  - Pause and resume hooks are stored under `"pause"`/`"resume"`, not the
    `"onPause"`/`"onResume"` keys the rest of the registry uses
    (appsapi.h:419-422).
  - A descriptor's environment is built and discarded (appsapi.h:426-432).
- **Unknown settings versions.** The description calls an unknown settings
  version fatal. The lockscreen gate only migrates versions below 1, so any
  later version is accepted unchanged. Only a negative version reaches
  `migrate`'s throw (controller.h:89-93, 357-363; `Lockscreen.Gated`).
- **Reloading twice.** The description calls reloading idempotent. The code
  is not. A candidate's configuration, once written, reads back with step
  2's defaults added, such as an empty `onPause` (appsapi.h:302-331;
  `AppsModel.CandidateChangesOnReadBack`). The application is a system
  application by then, so step 4 no longer offers its descriptor as a
  candidate (appsapi.h:363), and that grown configuration is what the next
  read leaves.
- **Descriptor anomalies.** A system application whose descriptor still
  exists is dropped from the candidates rather than updated (appsapi.h:363).
  A system application whose descriptor has disappeared is never removed.

## Model

| member | source | states |
|---|---|---|
| AppsModel.PathFor | applications/system-service/appsapi.h:267-270 | an application's path is `/codes/eeems/oxide1/apps/` followed by the 32-digit UUID of its name; it is never `/` |
| AppsModel.Register | applications/system-service/appsapi.h:72-91 | invalid input (empty name or bin, missing binary, type outside Foreground..Background) changes nothing and returns `/`; a known name returns that application's path unchanged; otherwise exactly the new name is added, with path `getPath(name)` under the apps prefix |
| AppsModel.RegisterKeepsWellFormed | applications/system-service/appsapi.h:72-91 | registration keeps every entry filed under its own name with the path of that name |
| AppsModel.ApplyPropsMap | applications/system-service/appsapi.h:332-337 | a known name only has its configuration replaced; an unknown one is registered exactly when admissible; no other entry changes |
| AppsModel.ApplyProps | applications/system-service/appsapi.h:332-337 | the same on the key-ordered registry, which stays sorted |
| AppsModel.ApplyPropsKeepsWellFormed | applications/system-service/appsapi.h:332-337 | updating or registering from a record keeps the registry well formed |
| AppsModel.Retain | applications/system-service/appsapi.h:295-300 | step 1 keeps exactly the applications whose name was persisted or that are system applications, unchanged |
| AppsModel.RecordCore | applications/system-service/appsapi.h:305-317 | a persisted record's name, bin and type are read back, displayName defaults to name and description to displayName |
| AppsModel.RecordRest | applications/system-service/appsapi.h:318-325 | the remaining defaulted keys, which never overwrite the core ones |
| AppsModel.CopySetting | applications/system-service/appsapi.h:326-331 | `user`/`group` are copied only when the record has them, nothing else changes |
| AppsModel.RecordProps | applications/system-service/appsapi.h:302-331 | the properties built from a record carry its name, bin and type, and `user`/`group` exactly when the record has them |
| AppsModel.RecordDefaults | applications/system-service/appsapi.h:306-315 | displayName falls back to name and description to displayName |
| AppsModel.ApplyRecord | applications/system-service/appsapi.h:309-337 | an invalid record is skipped; the registry stays sorted (content: the lemmas below) |
| AppsModel.ApplyRecords | applications/system-service/appsapi.h:302-339 | step 2 over the records in array order keeps the registry sorted |
| AppsModel.ApplyRecordsKeepsWellFormed | applications/system-service/appsapi.h:302-339 | step 2 keeps the registry well formed |
| AppsModel.ValidNames | applications/system-service/appsapi.h:309-311 | the names of the records that pass the validity guard |
| AppsModel.ApplyRecordsFrame | applications/system-service/appsapi.h:302-339 | step 2 removes nothing, adds only names of valid records, and leaves every other entry unchanged |
| AppsModel.ApplyRecordsRegisters | applications/system-service/appsapi.h:302-339 | a valid record whose binary exists ends up registered |
| AppsModel.LastRecordWins | applications/system-service/appsapi.h:302-339 | of several valid records for one name, the last one's properties become the configuration |
| AppsModel.LowerAscii | applications/system-service/appsapi.h:368 | lower-casing maps every character and keeps the length |
| AppsModel.UpperAscii | applications/system-service/appsapi.h:368 | upper-casing maps every character and keeps the length (used to state case-insensitivity) |
| AppsModel.BaseName | applications/system-service/appsapi.h:341-350 | a descriptor's name is its file name without the `.oxide` suffix, and is not empty |
| AppsModel.DescriptorsKeys | applications/system-service/appsapi.h:340-353 | a name is scanned exactly when some readable descriptor file has it as base name |
| AppsModel.DescriptorsLast | applications/system-service/appsapi.h:343-352 | of several files with one base name, the last one read wins |
| AppsModel.MatchKept | applications/system-service/appsapi.h:354-364 | step 4 unregisters exactly the non-system applications that have a descriptor |
| AppsModel.MatchCandidates | applications/system-service/appsapi.h:354-364 | step 4 leaves as candidates exactly the descriptors not naming a registered system application |
| AppsModel.ParseTypeString | applications/system-service/appsapi.h:367-375 | "background" gives Background, "backgroundable" gives Backgroundable, anything else Foreground |
| AppsModel.TypeIgnoresCase | applications/system-service/appsapi.h:368 | the parsed type does not depend on the type string's letter case |
| AppsModel.DeclaredFlags | applications/system-service/appsapi.h:382-389 | exactly the declared flags that are neither empty nor "system" are kept |
| AppsModel.DescriptorFlags | applications/system-service/appsapi.h:381-389 | a candidate's flags start with "system" and contain it only there, with no empty flag |
| AppsModel.CopyField | applications/system-service/appsapi.h:396-413 | a field the descriptor has is stored under the same key as its JSON string value (empty for a non-string); an absent field changes nothing; no other key changes |
| AppsModel.CopyFields | applications/system-service/appsapi.h:396-413 | each listed field the descriptor has is stored as its JSON string value; every other key keeps its value or absence |
| AppsModel.CopyHooks | applications/system-service/appsapi.h:414-425 | only when `"events"` is present, each of `stop`/`pause`/`resume` that the misspelt `"evnets"` object has is stored as its string under onStop/pause/resume; otherwise that key is as before; no other key changes |
| AppsModel.CandidateBase | applications/system-service/appsapi.h:390-395 | a candidate starts with its name, bin, parsed type and flags, and no hook, environment or optional field |
| AppsModel.WithDescriptorFields | applications/system-service/appsapi.h:396-432 | the name, bin, type and flags are kept; each optional field the descriptor has is stored as its string, the others keep the base's value; onStop/pause/resume come from `"evnets"` as `CopyHooks` states; onPause/onResume/environment are never added |
| AppsModel.FieldsKeepBase | applications/system-service/appsapi.h:396-432 | copying a descriptor's fields keeps the name, bin, type and flags and adds no onPause, onResume or environment |
| AppsModel.FieldsCopied | applications/system-service/appsapi.h:396-425 | after the hooks are copied, each optional field the descriptor has is still its string value |
| AppsModel.FieldsHooks | applications/system-service/appsapi.h:414-425 | the hooks after both copies are those `CopyHooks` stores, and, when the base has no onStop, onStop is set exactly when `"events"` is present and `"evnets"` has `stop` |
| AppsModel.CandidateConfig | applications/system-service/appsapi.h:390-432 | the built configuration carries the given name, bin, type and flags |
| AppsModel.CandidateProps | applications/system-service/appsapi.h:366-432 | a descriptor yields properties exactly when its binary exists, named after the file, with its bin and parsed type |
| AppsModel.CandidateFlagsAndHooks | applications/system-service/appsapi.h:381-432 | a candidate's flags are the injected "system" plus declared ones; pause/resume hooks and environment never reach the standard keys |
| AppsModel.CandidateIsSystem | applications/system-service/appsapi.h:381 | every application registered from a descriptor is a system application |
| AppsModel.CandidateFields | applications/system-service/appsapi.h:396-425 | a candidate has each optional field exactly when the descriptor has it, as its string, and onStop/pause/resume exactly as `"evnets"` gives them when `"events"` is present |
| AppsModel.ApplyCandidate | applications/system-service/appsapi.h:433-438 | registering one candidate keeps the registry sorted |
| AppsModel.ApplyCandidates | applications/system-service/appsapi.h:365-439 | step 5 over the candidates in key order keeps the registry sorted |
| AppsModel.ApplyCandidatesKeepsWellFormed | applications/system-service/appsapi.h:365-439 | step 5 keeps the registry well formed |
| AppsModel.ApplyCandidateKeeps | applications/system-service/appsapi.h:433-438 | a candidate changes no other entry |
| AppsModel.ApplyCandidateSets | applications/system-service/appsapi.h:433-438 | an admissible candidate ends up registered with its properties as configuration |
| AppsModel.ApplyCandidatesRegisters | applications/system-service/appsapi.h:365-439 | every admissible candidate is registered with its properties |
| AppsModel.ApplyCandidatesGrows | applications/system-service/appsapi.h:365-439 | step 5 removes nothing |
| AppsModel.BackgroundableNeverRegisters | applications/system-service/appsapi.h:372 | a new descriptor of type backgroundable is never registered, because registration rejects the type |
| AppsModel.DescriptorHonoured | applications/system-service/appsapi.h:354-439 | after steps 4 and 5, every descriptor whose binary exists and whose type is admissible names a registered application |
| AppsModel.ApplyCandidatesSystem | applications/system-service/appsapi.h:365-439 | every entry after step 5 is either unchanged or a system application |
| AppsModel.ApplyCandidateSystem | applications/system-service/appsapi.h:433-438 | one candidate leaves every entry either unchanged or a system application |
| AppsModel.ApplyPropsSystem | applications/system-service/appsapi.h:332-337 | filing a configuration whose application would be a system application leaves every entry unchanged or a system application |
| AppsModel.ApplyCandidatesOthers | applications/system-service/appsapi.h:365-439 | step 5 neither adds nor changes an application that no candidate names |
| AppsModel.OutsideDescriptors | applications/system-service/appsapi.h:354-439 | after steps 4 and 5 a name no descriptor uses is registered exactly when it was after step 2, with the same application |
| AppsModel.CandidateChangesOnReadBack | applications/system-service/appsapi.h:302-331 | a candidate's configuration read back as a record gains onPause and so differs from itself |
| AppsModel.DescriptorNamesSystem | applications/system-service/appsapi.h:354-439 | after steps 4 and 5, every registered application named by a descriptor is a system application |
| AppsModel.FiledAt | applications/system-service/appsapi.h:262 | each registry entry is filed under its own name, once |
| AppsModel.RemoveKeepsWellFormed | applications/system-service/appsapi.h:159 | removing a name keeps the registry well formed |
| Variants.ParseLongLong | applications/system-service/appsapi.h:75 | the number a string reads as lies within 64 bits (0 for anything malformed or out of range) |
| Variants.WrapInt | applications/system-service/appsapi.h:75 | the C++ cut to `int` lies within 32 bits, is congruent to its input modulo 2^32, and leaves a 32-bit value alone |
| Variants.ToInt | applications/system-service/appsapi.h:75 | an integer reads as itself; a string reads as a 32-bit value congruent to its `toLongLong` modulo 2^32; anything else as 0 |
| Variants.IntRoundTrip | applications/system-service/appsapi.h:307 | a 32-bit integer rendered as text reads back as itself |
| Variants.NatRoundTrip | applications/system-service/appsapi.h:307 | a natural number within 64 bits rendered as text reads back as itself through `toLongLong` |
| Variants.TrimPadded | applications/system-service/appsapi.h:307 | white space around a string does not change what the parser sees |
| Variants.PaddedInt | applications/system-service/appsapi.h:307 | white space around a number does not change the integer it reads as |
| Variants.WrapsExample | applications/system-service/appsapi.h:307 | "4294967298" reads as 2 |
| Variants.TrimsExample | applications/system-service/appsapi.h:307 | " 1" reads as 1 and "1x" as 0 |
| QMaps.Utf16Order | applications/system-service/appsapi.h:262 | the key order is exactly lexicographic order on UTF-16 code units, as QString compares |
| QMaps.LessIrreflexive | applications/system-service/appsapi.h:262 | no key is below itself |
| QMaps.LessTransitive | applications/system-service/appsapi.h:262 | the key order is transitive |
| QMaps.LessTotal | applications/system-service/appsapi.h:262 | any two distinct keys are ordered one way or the other |
| SettingsStore.WrittenSlotsAt | applications/system-service/appsapi.h:271-284 | a write merges each application's settings into its record in key order, keeps every other record and adds none |
| SettingsStore.StoredNames | applications/system-service/appsapi.h:288-293 | the names read back are the `name` settings of the first size records |
| SettingsStore.StoredRecords | applications/system-service/appsapi.h:302-305 | the records read back are the first size records, an unwritten one reading as empty |
| SettingsStore.WrittenReflects | applications/system-service/appsapi.h:271-284 | after a write the array size is the registry's and every record holds its application's settings |
| SettingsStore.ReflectsNames | applications/system-service/appsapi.h:285-293 | reading names back from a store that reflects the registry gives exactly its names in key order |
| AppsApi.FindByPath | applications/system-service/appsapi.h:184-191 | the first application in key order with the path, or none exactly when no application has it |
| AppsApi.FindByName | applications/system-service/appsapi.h:199-204 | the application filed under the name, present exactly when the name is registered |
| AppsApi.ApplicationPath | applications/system-service/appsapi.h:192-198 | the registered application's path, or `/` for an unknown name |
| AppsApi.CurrentApplication | applications/system-service/appsapi.h:127-134 | the path of the first InForeground application in key order, `/` when there is none |
| SettingsStore.StaleUserCarried | applications/system-service/appsapi.h:271-283 | a stale "user" in a record survives a write when the application at that index has none, and step 2 reads it back |
| AppsApi.Listing | applications/system-service/appsapi.h:119-125 | exactly the registered names, each mapped to its application's path |
| AppsApi.Running | applications/system-service/appsapi.h:135-144 | exactly the InForeground and InBackground applications, each mapped to its path |
| AppsApi.PausedApps | applications/system-service/appsapi.h:145-154 | exactly the Paused applications, each mapped to its path |
| AppsApi.ViewsPartition | applications/system-service/appsapi.h:135-154 | running and paused are disjoint sub-views of the listing; an application in neither is Inactive |
| AppsApi.CurrentIsRunning | applications/system-service/appsapi.h:127-144 | the current path is `/` exactly when nothing is in the foreground, and otherwise belongs to a running application |
| AppsApi.FindByPathFiled | applications/system-service/appsapi.h:184-191 | no application has path `/`, and a lookup by path returns the entry filed under its name |
| AppsApi.PauseRequests | applications/system-service/appsapi.h:165-169 | pauseAll asks every application, in key order, to pause with argument false |
| AppsApi.DropFoldRetains | applications/system-service/appsapi.h:295-300 | dropping in key order removes exactly what `Retain` removes |
| AppsApi.MatchFoldMatches | applications/system-service/appsapi.h:354-364 | matching in value order leaves exactly `MatchKept` and `MatchCandidates` |
| AppsApi.AppsAPI.MergeSlot | applications/system-service/appsapi.h:279-281 | setting each configuration key overrides those keys and keeps the others |
| AppsApi.AppsAPI.WriteSlots | applications/system-service/appsapi.h:272-282 | the index-by-index write loop leaves the store `WrittenSlots` describes |
| AppsApi.AppsAPI.WriteApplications | applications/system-service/appsapi.h:271-284 | the array is rewritten in key order and then reflects the registry; nothing else changes |
| AppsApi.AppsAPI.Admit | applications/system-service/appsapi.h:72-86 | the registry and returned path are those of `Register`; it reports whether a new entry was inserted |
| AppsApi.AppsAPI.RegisterApplication | applications/system-service/appsapi.h:72-91 | as `Register`, and the store is rewritten exactly when a new application was inserted |
| AppsApi.AppsAPI.UnregisterApp | applications/system-service/appsapi.h:156-164 | a registered name is removed and the store rewritten; an unknown one changes nothing |
| AppsApi.AppsAPI.UnregisterApplication | applications/system-service/appsapi.h:92-102 | an unknown path returns true with no change, a system application false with no change, otherwise exactly that entry is removed, the store rewritten from the remaining registry (so it reflects it), and true returned |
| AppsApi.AppsAPI.SetStartupApplication | applications/system-service/appsapi.h:112-117 | the startup path and its setting change only to a path that resolves to an application |
| AppsApi.AppsAPI.PauseAll | applications/system-service/appsapi.h:165-169 | appends one pause(false) per application in key order and changes no state |
| AppsApi.AppsAPI.ResumeIfNone | applications/system-service/appsapi.h:170-183 | launches the startup application only when not stopping, nothing is in the foreground, and the startup path resolves |
| AppsApi.AppsAPI.LeftHeld | applications/system-service/appsapi.h:235-245 | with an application in the foreground: nothing when it is the active startup application, otherwise the startup application is launched if it resolves |
| AppsApi.AppsAPI.HomeHeld | applications/system-service/appsapi.h:246-257 | launches `codes.eeems.erode` when registered and not already in the foreground |
| AppsApi.AppsAPI.ReadNames | applications/system-service/appsapi.h:288-294 | reads the persisted names in array order |
| AppsApi.AppsAPI.DropIfUnlisted | applications/system-service/appsapi.h:296-299 | one step 1 turn; a removal rewrites the store |
| AppsApi.AppsAPI.DropUnpersisted | applications/system-service/appsapi.h:287-301 | step 1 leaves exactly `Retain` of the registry under the persisted names |
| AppsApi.AppsAPI.ApplyRecordStep | applications/system-service/appsapi.h:304-337 | one record of step 2 |
| AppsApi.AppsAPI.ApplyPersisted | applications/system-service/appsapi.h:302-339 | step 2 leaves `ApplyRecords` of the stored records; the top-level array is untouched |
| AppsApi.AppsAPI.ScanDescriptors | applications/system-service/appsapi.h:340-353 | the scanned map is sorted and equals `Descriptors` of the directory listing |
| AppsApi.AppsAPI.MatchOne | applications/system-service/appsapi.h:355-363 | one application of step 4 |
| AppsApi.AppsAPI.MatchDescriptors | applications/system-service/appsapi.h:354-364 | step 4 leaves `MatchKept` registered and returns `MatchCandidates` |
| AppsApi.AppsAPI.RegisterCandidate | applications/system-service/appsapi.h:366-438 | one candidate of step 5 leaves `ApplyCandidate` of the registry |
| AppsApi.AppsAPI.FileCandidate | applications/system-service/appsapi.h:433-438 | a candidate configuration replaces a registered one and rewrites the array, or goes through registerApplication; the registry is then `ApplyProps` of the old one |
| AppsApi.AppsAPI.RegisterCandidates | applications/system-service/appsapi.h:365-439 | step 5 leaves `ApplyCandidates` of the candidates in key order |
| AppsApi.AppsAPI.ReadApplications | applications/system-service/appsapi.h:285-440 | step 1 keeps exactly the system applications and those the store names; step 2 applies the records of the store as step 1 left it; a name no descriptor uses ends registered exactly as step 2 left it; every descriptor with an existing binary and admissible type names a registered application; every registered application a descriptor names is a system application |
| AppsApi.AppsAPI.Reload | applications/system-service/appsapi.h:104-107 | the registry as readApplications leaves it (all of its guarantees), then a store that reflects the registry and reads back exactly its names |
| Lockscreen.WifiWrites | applications/lockscreen/controller.h:191-216 | off shows "down"; disconnected, offline and online show "up", connected except when disconnected; only online sets the link; anything else shows "unkown" |
| Lockscreen.ShownLink | applications/lockscreen/controller.h:217-225 | the link shown is the reported one while online and 0 otherwise |
| Lockscreen.ChargeWrites | applications/lockscreen/controller.h:265-304 | "connected" is true exactly for ChargerConnected; "present" is set, to true, exactly when the state is not BatteryNotPresent |
| Lockscreen.Assigned | applications/lockscreen/controller.h:196-200 | a missing widget stays missing; otherwise written properties are replaced and the others kept |
| Lockscreen.StoredVersion | applications/lockscreen/controller.h:90 | the stored version, 0 when absent |
| Lockscreen.Gated | applications/lockscreen/controller.h:89-93 | the gate throws exactly for a negative stored version, migrates older layouts to version 1 and leaves current or later ones alone |
| Lockscreen.GateIdempotent | applications/lockscreen/controller.h:89-93 | after a gate that did not throw the version is current and a second gate changes nothing |
| Lockscreen.Controller.SetPin | applications/lockscreen/controller.h:148-161 | longer than 4 is ignored; otherwise the pin is stored, pinChanged emitted, and Oxide launched exactly when the pin has 4 characters; the pin never exceeds 4 |
| Lockscreen.Controller.DeviceSuspending | applications/lockscreen/controller.h:170-172 | the pin becomes empty, hence not valid, and the change is announced |
| Lockscreen.Controller.Migrate | applications/lockscreen/controller.h:357-363 | throws exactly for a version other than 0, else sets version 1 |
| Lockscreen.Controller.CheckVersion | applications/lockscreen/controller.h:89-93 | the constructor's gate does what `Gated` describes |
| Lockscreen.Controller.WifiStateChanged | applications/lockscreen/controller.h:191-216 | the wifi widget receives `WifiWrites` of the state, nothing when it is missing |
| Lockscreen.Controller.WifiLinkChanged | applications/lockscreen/controller.h:217-225 | the wifi widget's link becomes `ShownLink`, nothing when it is missing |
| Lockscreen.Controller.ShowChargeState | applications/lockscreen/controller.h:265-284 | the battery widget receives `ChargeWrites` of the state |
| Lockscreen.Controller.BatteryStateChanged | applications/lockscreen/controller.h:265-284 | the battery widget receives `ChargeWrites` of the state, nothing when it is missing |
| Lockscreen.Controller.ChargerStateChanged | applications/lockscreen/controller.h:285-304 | the battery widget receives `ChargeWrites` of the state, nothing when it is missing |
| Bss.PathsOf | applications/system-service/bss.h:47-53 | the proxies' paths in list order |
| Bss.RemovedMembers | applications/system-service/bss.h:69-78 | removeBSS keeps exactly the valid proxies at other paths |
| Bss.RemovedInOrder | applications/system-service/bss.h:69-78 | the proxies left are a subsequence of the list: relative order is kept |
| Bss.RemovedDistinct | applications/system-service/bss.h:69-78 | removal keeps paths distinct |
| Bss.AddedDistinct | applications/system-service/bss.h:54-68 | addBSS keeps paths distinct and afterwards lists the path |
| Bss.AddedThenRemoved | applications/system-service/bss.h:54-78 | adding a proxy and removing its path equals removing the path alone |
| Bss.BSS.Paths | applications/system-service/bss.h:47-53 | the loop collects the paths in list order |
| Bss.BSS.AddBSSAt | applications/system-service/bss.h:54-61 | a proxy for the path is appended only when the path is not yet listed |
| Bss.BSS.AddBSS | applications/system-service/bss.h:62-68 | the proxy is appended only when its path is not yet listed |
| Bss.BSS.RemoveBSS | applications/system-service/bss.h:69-78 | the in-place iterator walk leaves exactly the kept proxies in order |
| Bss.BSS.Privacy | applications/system-service/bss.h:79-86 | true exactly when some proxy reports privacy |
| Bss.BSS.Frequency | applications/system-service/bss.h:87-92 | 0 for an empty list, else the first proxy's |
| Bss.BSS.Signal | applications/system-service/bss.h:93-98 | 0 for an empty list, else the first proxy's |
| Bss.BSS.KeyMgmt | applications/system-service/bss.h:100-109 | empty for an empty list, else the first proxy's WPA list followed by its RSN list |
| Rot.Decide | applications/settings-manager/main.cpp:97-115 | help and failure exactly for fewer than 3 arguments, an action outside get/set/listen, or set without a value; then an api outside power/wifi is refused; otherwise the request carries the arguments |
| Rot.ExitStatus | applications/settings-manager/main.cpp:171-174 | every refused invocation exits with EXIT_FAILURE |
| Rot.ExtraArgumentsIgnored | applications/settings-manager/main.cpp:97-108 | arguments beyond the ones the action uses change nothing |
| Rot.ToJson | applications/settings-manager/main.cpp:14-30 | exactly the scalars are rendered, strings verbatim |
| Rot.FromKeyword | applications/settings-manager/main.cpp:16-24 | the keywords read back as non-string scalars |
| Rot.KeywordRoundTrip | applications/settings-manager/main.cpp:16-24 | booleans, null and undefined render as "true"/"false"/"null"/"undefined", distinct and readable back |
| Rot.StringShadowsKeyword | applications/settings-manager/main.cpp:26-28 | a string spelling a keyword renders exactly like that keyword |

## Left out

- **Application internals.** `application.h` is not part of this model. Its
  process spawning, state transitions, hooks and `waitForFinished` are left
  out. The calls the registry makes on application objects (`launch`,
  `pause`) are recorded as effects, and each application's state is an input.
- **`app->unregister()`.** This call is taken to remove the application
  through the `unregisterApplication(Application*)` overload.
- **`getPath`.** The UUIDv5/SHA-1 computation is not modelled; `uuid` is an
  uninterpreted deterministic function of the name.
- **D-Bus and Qt plumbing.** Left out:
  - path registration, `setEnabled` and the signal wiring;
  - the emitted signals, and the `AppsAPI` destructor;
  - `settings.sync()`;
  - the no-op `AppsAPI::migrate` (appsapi.h:441-445).
- **Registry writes during step 2.** `registerApplication` and
  `writeApplications` also run while step 2 has the read array open. Those
  writes land in the nested group `applications/<i>/applications`, not the
  top-level array, so the model treats them as not touching the array.
- **AppsApi.AppsAPI.ReadApplications.** The settings array after its
  intermediate writes in steps 1, 4 and 5 is stated only as unchanged or
  reflecting the registry; its contents after the whole call are not.
  For a name that a descriptor uses, the registry is stated only by the two
  descriptor guarantees, not entry by entry.
- **AppsApi.AppsAPI.Admit.** The store write, path registration and signal
  are in `RegisterApplication`, which calls it.
- **Case conversion.** `toLower` is modelled for ASCII letters only. Unicode
  case mapping is not modelled.
- **QVariant conversions.** They are limited to the value kinds the registry
  uses, and follow Qt 5 (`toInt` on a string is `int(toLongLong())`).
  `toLongLong` is modelled for ASCII digits and an ASCII sign only.
- **Lockscreen: I/O and timing.** Left out:
  - the bus polling loop, the API proxy requests and `startup`;
  - the clock timer and time formatting;
  - `suspend`/`poweroff`, the foreground/background signal handlers and `kill`;
  - `system("rot ...")`, which is recorded as `LaunchOxide`;
  - `processEvents` and the `findChild` lookups, which are replaced by
    optional widgets;
  - the battery level, alert and warning handlers.
- **Lockscreen.Controller.SetPin.** The length test counts characters of
  a Dafny string (Unicode scalar values); `QString::length` counts UTF-16
  code units, so a PIN with characters outside the Basic Multilingual Plane
  is longer in the source than here.
- **Lockscreen.Controller.CheckVersion.** This gate runs in the constructor
  in the source. Here it is a separate method, so that a throw can be
  reported as a result. A stored version that is not a number reads as
  absent.
- **BSS: D-Bus and proxy plumbing.** `registerPath`/`unregisterPath`,
  `network()`, `connect()`, the property-change signal forwarding and
  `deleteLater` are left out. A proxy's reported properties are a value.
- **Bss.BSS.AddBSSAt.** The proxy that `addBSS(path, interface)` creates
  takes its reported properties from the supplicant, so they are a parameter.
- **rot.** The `listen` branch, the D-Bus get/set calls and the event loop
  are left out.
- **Rot.ToJson.** It returns None for numbers, objects and arrays. The
  floating-point number formatting and the `QJsonDocument` serialisation of
  objects and arrays are not modelled.
