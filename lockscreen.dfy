/**
 * The lockscreen's Controller: the PIN entry state, the settings-version
 * migration gate, and the handlers that copy wifi, battery and charger state
 * codes onto the QML status widgets. A widget is a map from property name to
 * value; a widget that findChild did not find is None, and a handler then
 * sets nothing. Launching Oxide (a shell call to rot) is recorded as an
 * effect.
 */
module Lockscreen {
  import opened Wrappers

  /** DECAY_SETTINGS_VERSION, the settings layout this build writes. */
  const SettingsVersion := 1

  // The state codes the power and wifi services send, as their enums number them.
  const BatteryNotPresent := 3
  const ChargerUnknown := 0
  const ChargerConnected := 1
  const ChargerNotConnected := 2
  const ChargerNotPresent := 3
  const WifiUnknown := 0
  const WifiOff := 1
  const WifiDisconnected := 2
  const WifiOffline := 3
  const WifiOnline := 4

  /** A QML property value. */
  datatype Prop = PStr(s: string) | PBool(b: bool) | PInt(n: int)

  /** A QML widget's properties. */
  type Widget = map<string, Prop>

  datatype Effect =
    | PinChanged(pin: string)   // the pinChanged signal
    | LaunchOxide               // launchOxide(): rot launches the Oxide application

  /** A PIN is complete when it has exactly four characters. */
  predicate PinValid(pin: string)
  {
    |pin| == 4
  }

  /** The properties wifiStateChanged assigns for a state code, given the link the wifi service reports. */
  function WifiWrites(state: int, link: int): (w: Widget)
    ensures "state" in w
    ensures w["state"] == PStr("up") <==> state in {WifiDisconnected, WifiOffline, WifiOnline}
    ensures w["state"] == PStr("down") <==> state == WifiOff
    ensures w["state"] == PStr("unkown") <==> state !in {WifiOff, WifiDisconnected, WifiOffline, WifiOnline}
    ensures "connected" in w <==> w["state"] == PStr("up")
    ensures "connected" in w ==> w["connected"] == PBool(state != WifiDisconnected)
    ensures "link" in w <==> state == WifiOnline
    ensures "link" in w ==> w["link"] == PInt(link)
    ensures w.Keys <= {"state", "connected", "link"}
  {
    if state == WifiOff then map["state" := PStr("down")]
    else if state == WifiDisconnected then map["state" := PStr("up"), "connected" := PBool(false)]
    else if state == WifiOffline then map["state" := PStr("up"), "connected" := PBool(true)]
    else if state == WifiOnline then map["state" := PStr("up"), "connected" := PBool(true), "link" := PInt(link)]
    else map["state" := PStr("unkown")]
  }

  /** The link quality wifiLinkChanged publishes: the reported one only while online. */
  function ShownLink(state: int, link: int): (shown: int)
    ensures state == WifiOnline ==> shown == link
    ensures state != WifiOnline ==> shown == 0
  {
    if state != WifiOnline then 0 else link
  }

  /** The properties batteryStateChanged and chargerStateChanged assign for a state code. */
  function ChargeWrites(state: int): (w: Widget)
    ensures "connected" in w && w["connected"] == PBool(state == ChargerConnected)
    ensures "present" in w <==> state != BatteryNotPresent
    ensures "present" in w ==> w["present"] == PBool(true)
    ensures w.Keys <= {"present", "connected"}
  {
    var present: Widget := if state != BatteryNotPresent then map["present" := PBool(true)] else map[];
    if state == ChargerConnected then present["connected" := PBool(true)]
    else if state == ChargerNotConnected || state == ChargerNotPresent then present["connected" := PBool(false)]
    else present["connected" := PBool(false)]
  }

  /** A widget after a handler's writes: the written properties replaced, the rest kept. */
  function Assigned(ui: Option<Widget>, writes: Widget): (r: Option<Widget>)
    ensures r.None? <==> ui.None?
    ensures r.Some? ==> forall p :: p in r.value <==> p in ui.value || p in writes
    ensures r.Some? ==> forall p :: p in writes ==> r.value[p] == writes[p]
    ensures r.Some? ==> forall p :: p in ui.value && p !in writes ==> r.value[p] == ui.value[p]
  {
    if ui.None? then None else Some(ui.value + writes)
  }

  /**
   * The version the constructor reads: the stored "version" setting, 0 when
   * there is none.
   */
  function StoredVersion(version: Option<int>): (v: int)
    ensures version.None? ==> v == 0
    ensures version.Some? ==> v == version.value
  {
    if version.Some? then version.value else 0
  }

  /**
   * What the constructor's version gate leaves in the "version" setting, or
   * None when migrate throws: an older layout is migrated, and only layout 0
   * can be.
   */
  function Gated(version: Option<int>): (r: Option<Option<int>>)
    ensures r.None? <==> StoredVersion(version) < 0
    ensures r.Some? && StoredVersion(version) < SettingsVersion ==> r.value == Some(SettingsVersion)
    ensures r.Some? && StoredVersion(version) >= SettingsVersion ==> r.value == version
  {
    var v := StoredVersion(version);
    if v < SettingsVersion then (if v != 0 then None else Some(Some(SettingsVersion)))
    else Some(version)
  }

  /** After a gate that did not throw, the stored layout is current and a second gate changes nothing. */
  lemma GateIdempotent(version: Option<int>)
    requires Gated(version).Some?
    ensures StoredVersion(Gated(version).value) >= SettingsVersion
    ensures Gated(Gated(version).value) == Gated(version)
  {
  }

  class Controller {
    var pin: string
    var effects: seq<Effect>
    /** The lockscreen settings' "version" entry. */
    var version: Option<int>
    var wifiUi: Option<Widget>
    var batteryUi: Option<Widget>

    /** The PIN never grows past four characters. */
    ghost predicate Valid()
      reads this
    {
      |pin| <= 4
    }

    constructor (version: Option<int>, wifiUi: Option<Widget>, batteryUi: Option<Widget>)
      ensures Valid() && pin == "" && effects == []
      ensures this.version == version && this.wifiUi == wifiUi && this.batteryUi == batteryUi
    {
      pin := "";
      effects := [];
      this.version := version;
      this.wifiUi := wifiUi;
      this.batteryUi := batteryUi;
    }

    /**
     * The PIN setter: a string longer than four characters is ignored;
     * anything else becomes the PIN and is announced, and a complete PIN
     * launches Oxide.
     */
    method SetPin(p: string)
      requires Valid()
      modifies this`pin, this`effects
      ensures Valid()
      ensures |p| > 4 ==> pin == old(pin) && effects == old(effects)
      ensures |p| <= 4 ==> pin == p
      ensures |p| <= 4 && PinValid(p) ==> effects == old(effects) + [PinChanged(p), LaunchOxide]
      ensures |p| <= 4 && !PinValid(p) ==> effects == old(effects) + [PinChanged(p)]
    {
      if |p| > 4 {
        return;
      }
      pin := p;
      effects := effects + [PinChanged(p)];
      if PinValid(pin) {
        effects := effects + [LaunchOxide];
      }
    }

    /** On suspend the PIN is cleared, so the lockscreen asks for it again on resume. */
    method DeviceSuspending()
      requires Valid()
      modifies this`pin, this`effects
      ensures Valid() && pin == "" && !PinValid(pin)
      ensures effects == old(effects) + [PinChanged("")]
    {
      SetPin("");
    }

    /** migrate: only layout 0 is known; it is brought to the current layout. */
    method Migrate(fromVersion: int) returns (thrown: bool)
      modifies this`version
      ensures thrown <==> fromVersion != 0
      ensures thrown ==> version == old(version)
      ensures !thrown ==> version == Some(SettingsVersion)
    {
      if fromVersion != 0 {
        return true;
      }
      version := Some(SettingsVersion);
      return false;
    }

    /** The constructor's version gate: migrate when the stored layout is older than this build's. */
    method CheckVersion() returns (thrown: bool)
      modifies this`version
      ensures thrown <==> Gated(old(version)).None?
      ensures thrown ==> version == old(version)
      ensures !thrown ==> version == Gated(old(version)).value
    {
      var v := StoredVersion(version);
      thrown := false;
      if v < SettingsVersion {
        thrown := Migrate(v);
      }
    }

    method WifiStateChanged(state: int, link: int)
      modifies this`wifiUi
      ensures wifiUi == Assigned(old(wifiUi), WifiWrites(state, link))
    {
      if wifiUi.None? {
        return;
      }
      var ui := wifiUi.value;
      if state == WifiOff {
        ui := ui["state" := PStr("down")];
      } else if state == WifiDisconnected {
        ui := ui["state" := PStr("up")];
        ui := ui["connected" := PBool(false)];
      } else if state == WifiOffline {
        ui := ui["state" := PStr("up")];
        ui := ui["connected" := PBool(true)];
      } else if state == WifiOnline {
        ui := ui["state" := PStr("up")];
        ui := ui["connected" := PBool(true)];
        ui := ui["link" := PInt(link)];
      } else {
        ui := ui["state" := PStr("unkown")];
      }
      assert ui == wifiUi.value + WifiWrites(state, link);
      wifiUi := Some(ui);
    }

    /** wifiLinkChanged, given the state the wifi service reports at the time. */
    method WifiLinkChanged(link: int, state: int)
      modifies this`wifiUi
      ensures wifiUi == Assigned(old(wifiUi), map["link" := PInt(ShownLink(state, link))])
    {
      if wifiUi.None? {
        return;
      }
      var shown := link;
      if state != WifiOnline {
        shown := 0;
      }
      assert wifiUi.value["link" := PInt(shown)] == wifiUi.value + map["link" := PInt(ShownLink(state, link))];
      wifiUi := Some(wifiUi.value["link" := PInt(shown)]);
    }

    /** The shared body of batteryStateChanged and chargerStateChanged. */
    method ShowChargeState(state: int)
      modifies this`batteryUi
      ensures batteryUi == Assigned(old(batteryUi), ChargeWrites(state))
    {
      if batteryUi.None? {
        return;
      }
      var ui := batteryUi.value;
      if state != BatteryNotPresent {
        ui := ui["present" := PBool(true)];
      }
      if state == ChargerConnected {
        ui := ui["connected" := PBool(true)];
      } else if state == ChargerNotConnected || state == ChargerNotPresent {
        ui := ui["connected" := PBool(false)];
      } else {
        ui := ui["connected" := PBool(false)];
      }
      assert ui == batteryUi.value + ChargeWrites(state);
      batteryUi := Some(ui);
    }

    method BatteryStateChanged(state: int)
      modifies this`batteryUi
      ensures batteryUi == Assigned(old(batteryUi), ChargeWrites(state))
    {
      ShowChargeState(state);
    }

    method ChargerStateChanged(state: int)
      modifies this`batteryUi
      ensures batteryUi == Assigned(old(batteryUi), ChargeWrites(state))
    {
      ShowChargeState(state);
    }
  }
}
