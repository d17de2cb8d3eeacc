/**
  The long-lived battery service: it caches the last battery reading,
  redraws the widget on every battery broadcast, and keeps the battery
  subscription alive only while the screen is on.
 */
module BatteryService {
  import opened JavaText
  import opened Platform
  import opened IntArith
  import BatteryWidget

  const ActionBatteryChanged := "android.intent.action.BATTERY_CHANGED"
  const ActionScreenOn := "android.intent.action.SCREEN_ON"
  const ActionScreenOff := "android.intent.action.SCREEN_OFF"

  /** Extra of the service's start intent asking for an immediate redraw. */
  const ExtUpdateWidgets := "updateWidgets"

  /** Largest raw level whose `rawlevel * 100` still fits a Java `int`. */
  const MaxExactRawLevel: int := 21474836

  // ---------------------------------------------------------------------
  // Percentage and charging (BatteryStateReceiver.onReceive)

  /** The arguments of one `BatteryWidget.updateWidgets` call. */
  datatype Reading = Reading(level: Int32, charging: bool)

  /** `(rawlevel * 100) / scale` in Java `int` arithmetic, or 0 for a negative level or a non-positive scale. */
  function Percentage(rawlevel: Int32, scale: Int32): (p: Int32)
    ensures rawlevel < 0 || scale <= 0 ==> p == 0
    ensures 0 <= rawlevel <= MaxExactRawLevel && scale > 0 ==> p == rawlevel * 100 / scale
  {
    if rawlevel >= 0 && scale > 0 then TruncDiv(Wrap32(rawlevel * 100), scale) else 0
  }

  /** A raw level within its scale gives a percentage in [0,100], and exactly 100 when full. */
  lemma PercentageBounds(rawlevel: Int32, scale: Int32)
    requires 0 <= rawlevel <= scale && rawlevel <= MaxExactRawLevel
    ensures 0 <= Percentage(rawlevel, scale) <= 100
    ensures rawlevel == scale > 0 ==> Percentage(rawlevel, scale) == 100
  {
    if scale > 0 {
      var a: nat := rawlevel * 100;
      PercentageExact(rawlevel, scale);
      DivBelow(a, scale, 100);
      if rawlevel == scale {
        DivModUnique(a, scale, 100, 0);
      }
    }
  }

  lemma PercentageExact(rawlevel: Int32, scale: Int32)
    requires 0 <= rawlevel <= MaxExactRawLevel && scale > 0
    ensures Percentage(rawlevel, scale) == rawlevel * 100 / scale
  {
  }

  /** The level is not clamped to its scale: an over-full reading exceeds 100. */
  lemma PercentageNotClamped()
    ensures Percentage(200, 100) == 200
  {
  }

  /** The product is 32-bit: a full reading with a huge scale wraps to 0. */
  lemma PercentageWraps()
    ensures Percentage(0x4000_0000, 0x4000_0000) == 0
  {
  }

  /** Beyond the exact range even a full reading leaves [0,100]: the product wraps negative. */
  lemma PercentageFullOverflows()
    ensures Percentage(30_000_000, 30_000_000) == -43
  {
  }

  /** The reading a BATTERY_CHANGED intent yields; absent level and scale read as -1, absent plug state as 0. */
  function ReadBattery(extras: Option<Bundle>): (r: Reading)
    ensures r.level == Percentage(GetIntExtra(extras, "level", -1), GetIntExtra(extras, "scale", -1))
    ensures r.charging ==> r.level < 100
    ensures r.charging <==> GetIntExtra(extras, "plugged", 0) > 0 && r.level < 100
  {
    var level := Percentage(GetIntExtra(extras, "level", -1), GetIntExtra(extras, "scale", -1));
    Reading(level, GetIntExtra(extras, "plugged", 0) > 0 && level < 100)
  }

  /** Charging means plugged in and not yet full; a payload without level or scale reads as empty. */
  lemma ReadBatteryProperties(extras: Option<Bundle>)
    ensures var r := ReadBattery(extras);
      && (r.charging ==> r.level < 100)
      && (r.level == 100 ==> !r.charging)
      && (r.charging <==> GetIntExtra(extras, "plugged", 0) > 0 && r.level < 100)
      && (extras.None? ==> r == Reading(0, false))
      && (extras.Some? && ("level" !in extras.value || "scale" !in extras.value) ==> r.level == 0)
      && (extras.Some? && "plugged" !in extras.value ==> !r.charging)
  {
  }

  /** Half charged on the charger: 50 %, charging, frame 250 of the default design, label "50" shown. */
  lemma HalfChargedScenario()
    ensures var r := ReadBattery(Some(map["level" := IntExtra(50), "scale" := IntExtra(100), "plugged" := IntExtra(1)]));
      && r == Reading(50, true)
      && BatteryWidget.UpdateWidgets(map[], r.level, r.charging).Some?
      && var v := BatteryWidget.UpdateWidgets(map[], r.level, r.charging).value;
      && v.iconLevel == 250
      && v.capacity.rightBottom == BatteryWidget.CapacityView(Some("50"), true)
      && v.lightningVisible
  {
    var r := ReadBattery(Some(map["level" := IntExtra(50), "scale" := IntExtra(100), "plugged" := IntExtra(1)]));
    assert r.level == 50;
    assert BatteryWidget.LevelText(50) == "50" by {
      assert NatToDecimal(50) == NatToDecimal(5) + [DigitChar(0)];
    }
  }

  // ---------------------------------------------------------------------
  // Receiver registrations on the context

  datatype ContextCall = RegisterBattery | UnregisterBattery | RegisterScreen | UnregisterScreen

  /** Which receivers the platform holds registered. */
  datatype Registrations = Registrations(battery: bool, screen: bool)

  /**
    The platform's answer to one call: registering a receiver twice is a
    leak and unregistering one that is not registered throws, both None.
   */
  function Step(r: Registrations, c: ContextCall): (next: Option<Registrations>)
    ensures next.None? <==> (c.RegisterBattery? && r.battery) || (c.UnregisterBattery? && !r.battery)
                            || (c.RegisterScreen? && r.screen) || (c.UnregisterScreen? && !r.screen)
    ensures next.Some? && (c.RegisterBattery? || c.UnregisterBattery?) ==>
      next.value.screen == r.screen && next.value.battery != r.battery
    ensures next.Some? && (c.RegisterScreen? || c.UnregisterScreen?) ==>
      next.value.battery == r.battery && next.value.screen != r.screen
  {
    match c
    case RegisterBattery => if r.battery then None else Some(r.(battery := true))
    case UnregisterBattery => if r.battery then Some(r.(battery := false)) else None
    case RegisterScreen => if r.screen then None else Some(r.(screen := true))
    case UnregisterScreen => if r.screen then Some(r.(screen := false)) else None
  }

  /** How often a call occurs in a history. */
  function Count(calls: seq<ContextCall>, c: ContextCall): nat
  {
    if calls == [] then 0
    else Count(calls[..|calls| - 1], c) + (if calls[|calls| - 1] == c then 1 else 0)
  }

  /**
    The registrations after a whole history of calls, from none; None once a
    call went wrong. A valid history alternates register and unregister for
    each receiver, so a receiver is registered iff it has one registration
    more than unregistrations.
   */
  function Replay(calls: seq<ContextCall>): (r: Option<Registrations>)
    ensures r.Some? ==>
      Count(calls, RegisterBattery) == Count(calls, UnregisterBattery) + (if r.value.battery then 1 else 0)
    ensures r.Some? ==>
      Count(calls, RegisterScreen) == Count(calls, UnregisterScreen) + (if r.value.screen then 1 else 0)
  {
    if calls == [] then Some(Registrations(false, false))
    else match Replay(calls[..|calls| - 1])
      case None => None
      case Some(r) => Step(r, calls[|calls| - 1])
  }

  /** The calls `registerBatteryReceiver(register)` makes when the receiver is currently (un)subscribed. */
  function BatteryCalls(subscribed: bool, register: bool): (cs: seq<ContextCall>)
    ensures subscribed == register <==> cs == []
  {
    if register == subscribed then []
    else if register then [RegisterBattery] else [UnregisterBattery]
  }

  /** Thanks to the null guard, `registerBatteryReceiver` never makes the platform fail and leaves the subscription equal to its argument. */
  lemma BatteryCallsSafe(calls: seq<ContextCall>, register: bool)
    requires Replay(calls).Some?
    ensures var r := Replay(calls).value;
      Replay(calls + BatteryCalls(r.battery, register)) == Some(r.(battery := register))
  {
    var more := BatteryCalls(Replay(calls).value.battery, register);
    if more == [] {
      assert calls + more == calls;
    } else {
      assert (calls + more)[..|calls + more| - 1] == calls;
    }
  }

  /** Without the guard, a second screen-on would register the battery receiver twice. */
  lemma UnguardedRegisterFails(calls: seq<ContextCall>)
    requires Replay(calls).Some? && Replay(calls).value.battery
    ensures Replay(calls + [RegisterBattery]).None?
  {
    assert (calls + [RegisterBattery])[..|calls|] == calls;
  }

  // ---------------------------------------------------------------------
  // The screen gate (ScreenStateService)

  class ScreenStateReceiver {
    /** Whether `mBatteryStateReceiver` is non-null, i.e. the battery subscription is live. */
    var batterySubscribed: bool
    /** Every registration call this receiver has made on the context, in order. */
    var calls: seq<ContextCall>

    ghost predicate Valid()
      reads this
    {
      Replay(calls).Some? && Replay(calls).value.battery == batterySubscribed
    }

    /** Whether the platform currently delivers screen on/off broadcasts to this receiver. */
    function ScreenRegistered(): bool
      reads this
    {
      Replay(calls).Some? && Replay(calls).value.screen
    }

    constructor ()
      ensures Valid() && !batterySubscribed && calls == [] && !ScreenRegistered()
    {
      batterySubscribed := false;
      calls := [];
    }

    /** `registerBatteryReceiver`: subscribe or unsubscribe, doing nothing when already there. */
    method RegisterBatteryReceiver(register: bool)
      requires Valid()
      modifies this
      ensures Valid()
      ensures batterySubscribed == register
      ensures calls == old(calls) + BatteryCalls(old(batterySubscribed), register)
      ensures register == old(batterySubscribed) ==> calls == old(calls)
      ensures ScreenRegistered() == old(ScreenRegistered())
    {
      BatteryCallsSafe(calls, register);
      if register {
        if !batterySubscribed {
          batterySubscribed := true;
          calls := calls + [RegisterBattery];
        }
      } else if batterySubscribed {
        calls := calls + [UnregisterBattery];
        batterySubscribed := false;
      }
    }

    /** `registerScreenReceiver`: on registration listens for the screen; on release also drops the battery subscription. */
    method RegisterScreenReceiver(register: bool)
      requires Valid()
      requires register ==> !ScreenRegistered()
      requires !register ==> ScreenRegistered()
      modifies this
      ensures Valid()
      ensures ScreenRegistered() == register
      ensures register ==> calls == old(calls) + [RegisterScreen] && batterySubscribed == old(batterySubscribed)
      ensures !register ==>
        calls == old(calls) + BatteryCalls(old(batterySubscribed), false) + [UnregisterScreen] && !batterySubscribed
    {
      if register {
        calls := calls + [RegisterScreen];
        assert calls[..|calls| - 1] == old(calls);
      } else {
        RegisterBatteryReceiver(false);
        ghost var before := calls;
        calls := calls + [UnregisterScreen];
        assert calls[..|calls| - 1] == before;
      }
    }

    /** `onReceive`: screen on subscribes, screen off unsubscribes, anything else is ignored. */
    method OnReceive(action: string)
      requires Valid()
      modifies this
      ensures Valid()
      ensures batterySubscribed ==
        if action == ActionScreenOn then true
        else if action == ActionScreenOff then false
        else old(batterySubscribed)
      ensures action != ActionScreenOn && action != ActionScreenOff ==> calls == old(calls)
      ensures action == ActionScreenOn || action == ActionScreenOff ==>
        calls == old(calls) + BatteryCalls(old(batterySubscribed), action == ActionScreenOn)
      ensures ScreenRegistered() == old(ScreenRegistered())
    {
      if action == ActionScreenOn {
        RegisterBatteryReceiver(true);
      } else if action == ActionScreenOff {
        RegisterBatteryReceiver(false);
      }
    }
  }

  // ---------------------------------------------------------------------
  // The service

  /** `isScreenOn`: the probe's answer, or true when the probe failed. */
  function ScreenOnOrDefault(probe: Option<bool>): (on: bool)
    ensures probe.None? ==> on
    ensures probe.Some? ==> on == probe.value
  {
    if probe.Some? then probe.value else true
  }

  /** Whether a start intent's extras ask for an immediate redraw. */
  function UpdateRequested(extras: Option<Bundle>): (requested: bool)
    ensures requested <==>
      extras.Some? && ExtUpdateWidgets in extras.value && extras.value[ExtUpdateWidgets] == BoolExtra(true)
  {
    extras.Some? && GetBooleanExtra(extras.value, ExtUpdateWidgets, false)
  }

  /** The gate `onStart` builds: subscribed to the battery iff the screen is on, then listening for the screen. */
  method NewGate(screenOn: bool) returns (g: ScreenStateReceiver)
    ensures fresh(g) && g.Valid() && g.ScreenRegistered()
    ensures g.batterySubscribed == screenOn
    ensures g.calls == (if screenOn then [RegisterBattery] else []) + [RegisterScreen]
  {
    g := new ScreenStateReceiver();
    if screenOn {
      g.RegisterBatteryReceiver(true);
    }
    g.RegisterScreenReceiver(true);
  }

  class BatteryService {
    /** `mBatteryChargeLevel`: the cached percentage, -1 before the first battery event. */
    var chargeLevel: Int32
    /** `mChargerConnected`: the cached charging flag. */
    var chargerConnected: bool
    /** `mScreenStateReceiver`: the screen gate, null before the first start and after destruction. */
    var gate: ScreenStateReceiver?
    /** The arguments of every widget redraw the service has asked for, in order. */
    var widgetUpdates: seq<Reading>

    ghost predicate Valid()
      reads this, gate
    {
      gate != null ==> gate.Valid() && gate.ScreenRegistered()
    }

    constructor ()
      ensures Valid()
      ensures chargeLevel == -1 && !chargerConnected && gate == null && widgetUpdates == []
    {
      chargeLevel := -1;
      chargerConnected := false;
      gate := null;
      widgetUpdates := [];
    }

    /** `BatteryStateReceiver.onReceive`: refresh the cache on BATTERY_CHANGED, redraw on every intent. */
    method OnBatteryReceive(intent: Intent)
      modifies this
      ensures gate == old(gate)
      ensures intent.action == ActionBatteryChanged ==>
        Reading(chargeLevel, chargerConnected) == ReadBattery(intent.extras)
      ensures intent.action != ActionBatteryChanged ==>
        chargeLevel == old(chargeLevel) && chargerConnected == old(chargerConnected)
      ensures widgetUpdates == old(widgetUpdates) + [Reading(chargeLevel, chargerConnected)]
    {
      if intent.action == ActionBatteryChanged {
        var reading := ReadBattery(intent.extras);
        chargeLevel := reading.level;
        chargerConnected := reading.charging;
      }
      widgetUpdates := widgetUpdates + [Reading(chargeLevel, chargerConnected)];
    }

    /** The platform delivers battery broadcasts only while the battery receiver is registered. */
    method DispatchBatteryBroadcast(intent: Intent)
      requires Valid()
      modifies this
      ensures Valid() && gate == old(gate)
      ensures old(gate) == null || !old(gate).batterySubscribed ==>
        chargeLevel == old(chargeLevel) && chargerConnected == old(chargerConnected) && widgetUpdates == old(widgetUpdates)
      ensures old(gate) != null && old(gate).batterySubscribed ==>
        && widgetUpdates == old(widgetUpdates) + [Reading(chargeLevel, chargerConnected)]
        && (intent.action == ActionBatteryChanged ==> Reading(chargeLevel, chargerConnected) == ReadBattery(intent.extras))
        && (intent.action != ActionBatteryChanged ==>
              chargeLevel == old(chargeLevel) && chargerConnected == old(chargerConnected))
    {
      if gate != null && gate.batterySubscribed {
        OnBatteryReceive(intent);
      }
    }

    /** The platform delivers screen on/off broadcasts to the gate while it is registered. */
    method DispatchScreenBroadcast(action: string)
      requires Valid()
      modifies gate
      ensures Valid()
      ensures gate != null && action == ActionScreenOn ==> gate.batterySubscribed
      ensures gate != null && action == ActionScreenOff ==> !gate.batterySubscribed
      ensures gate != null && action != ActionScreenOn && action != ActionScreenOff ==>
        gate.batterySubscribed == old(gate.batterySubscribed) && gate.calls == old(gate.calls)
      ensures gate != null && old(gate.ScreenRegistered()) && (action == ActionScreenOn || action == ActionScreenOff) ==>
        gate.calls == old(gate.calls) + BatteryCalls(old(gate.batterySubscribed), action == ActionScreenOn)
      ensures chargeLevel == old(chargeLevel) && chargerConnected == old(chargerConnected)
      ensures widgetUpdates == old(widgetUpdates)
    {
      if gate != null && gate.ScreenRegistered() {
        gate.OnReceive(action);
      }
    }

    /**
      `onStart`: build the gate once (subscribed iff the screen is on), then
      redraw if asked to. A null start intent (None) makes `getExtras` throw
      once the gate is in place: `thrown` reports it, and no redraw follows.
     */
    method OnStart(intent: Option<Intent>, screenProbe: Option<bool>) returns (thrown: bool)
      requires Valid()
      modifies this
      ensures Valid()
      ensures thrown <==> intent.None?
      ensures old(gate) != null ==> gate == old(gate) && gate.batterySubscribed == old(gate.batterySubscribed)
      ensures old(gate) == null ==>
        && gate != null && fresh(gate)
        && gate.batterySubscribed == ScreenOnOrDefault(screenProbe)
        && gate.calls == (if ScreenOnOrDefault(screenProbe) then [RegisterBattery] else []) + [RegisterScreen]
      ensures chargeLevel == old(chargeLevel) && chargerConnected == old(chargerConnected)
      ensures widgetUpdates ==
        old(widgetUpdates) +
        (if intent.Some? && UpdateRequested(intent.value.extras) then [Reading(chargeLevel, chargerConnected)] else [])
    {
      if gate == null {
        gate := NewGate(ScreenOnOrDefault(screenProbe));
      }
      if intent.None? {
        return true;
      }
      thrown := false;
      if UpdateRequested(intent.value.extras) {
        widgetUpdates := widgetUpdates + [Reading(chargeLevel, chargerConnected)];
      }
    }

    /** `onDestroy`: release both subscriptions and drop the gate. */
    method OnDestroy()
      requires Valid()
      modifies this, gate
      ensures Valid() && gate == null
      ensures old(gate) != null ==>
        !old(gate).batterySubscribed && !old(gate).ScreenRegistered()
        && Replay(old(gate).calls) == Some(Registrations(false, false))
        && old(gate).calls == old(gate.calls) + BatteryCalls(old(gate.batterySubscribed), false) + [UnregisterScreen]
      ensures chargeLevel == old(chargeLevel) && chargerConnected == old(chargerConnected)
      ensures widgetUpdates == old(widgetUpdates)
    {
      if gate != null {
        gate.RegisterScreenReceiver(false);
        gate := null;
      }
    }
  }

  /** Once the screen goes off, battery broadcasts no longer redraw the widget. */
  method ScreenOffSuppressesRedraws(service: BatteryService, intent: Intent)
    requires service.Valid() && service.gate != null
    modifies service, service.gate
    ensures service.widgetUpdates == old(service.widgetUpdates)
  {
    service.DispatchScreenBroadcast(ActionScreenOff);
    service.DispatchBatteryBroadcast(intent);
  }
}
