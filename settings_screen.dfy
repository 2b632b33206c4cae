/**
 * src/screens/SettingsScreen.js: the control screen of the selected device.
 * Modelled here: the dim-LED modes and the flash predicate, the battery
 * reducer, the mount-guarded state setter, the optimistic dim-LED write with
 * its rollback, the dim-LED read, and the teardown of the subscriptions.
 */
module SettingsScreen {
  import opened Wrappers
  import opened BlePlx
  import opened Theme
  import opened Device
  import BleService
  import DevicesContextProvider

  // DimLEDModes
  const OFF := 0x0
  const ON_STRONG := 0x1
  const ON_MILD := 0x2
  const FLASH_SLOW := 0x3
  const FLASH_FAST := 0x4
  const UNKNOWN := 0x5

  /** The flash indicator shown while the light blinks. */
  predicate FlashModeActive(lightMode: int)
  {
    lightMode == FLASH_FAST || lightMode == FLASH_SLOW
  }

  /** Exactly the two flashing modes light the indicator; an unknown mode does not. */
  lemma FlashModeOfModes()
    ensures FlashModeActive(FLASH_SLOW) && FlashModeActive(FLASH_FAST)
    ensures !FlashModeActive(OFF) && !FlashModeActive(ON_STRONG) && !FlashModeActive(ON_MILD)
    ensures !FlashModeActive(UNKNOWN)
    ensures forall m :: FlashModeActive(m) ==> OFF <= m < UNKNOWN
  {
  }

  /** What the battery line shows. */
  datatype BatteryState = BatteryState(value: string, color: Colour, icon: string)

  /** The level codes the peripheral reports, 0xFF meaning it does not know. */
  const BATTERY_CODES: set<int> := {0x00, 0x01, 0x02, 0x03, 0x04, 0xFF}

  /** batteryReducer: `action` is the dispatched level code, or null. */
  function BatteryReducer(prevState: Option<BatteryState>, action: Option<int>): (s: Option<BatteryState>)
    ensures action.None? || action.value !in BATTERY_CODES ==> s == prevState
    ensures action.Some? && action.value in BATTERY_CODES ==> s.Some?
    ensures action == Some(0xFF) ==> s == Some(BatteryState("?", BatteryUnknown, "battery-empty"))
    ensures action.Some? && 0 <= action.value <= 4 ==> s.Some? && s.value.color.Battery?
  {
    if action.None? then prevState
    else match action.value
      case 0x00 => Some(BatteryState("Drained", Battery(0), "battery-empty"))
      case 0x01 => Some(BatteryState("Very Low", Battery(1), "battery-empty"))
      case 0x02 => Some(BatteryState("Low", Battery(2), "battery-quarter"))
      case 0x03 => Some(BatteryState("Medium", Battery(4), "battery-half"))
      case 0x04 => Some(BatteryState("High", Battery(5), "battery-full"))
      case 0xFF => Some(BatteryState("?", BatteryUnknown, "battery-empty"))
      case _ => prevState
  }

  /** A recognised code shows the same thing whatever was shown before; every code has its own label. */
  lemma BatteryReducerByCode(p: Option<BatteryState>, q: Option<BatteryState>, a: int, b: int)
    requires a in BATTERY_CODES && b in BATTERY_CODES
    ensures BatteryReducer(p, Some(a)) == BatteryReducer(q, Some(a))
    ensures a != b ==> BatteryReducer(p, Some(a)).value.value != BatteryReducer(p, Some(b)).value.value
  {
  }

  /** The -1 dispatched after a failed read, and null, leave the battery line as it was. */
  lemma BatteryReducerIgnoresFailure(p: Option<BatteryState>)
    ensures BatteryReducer(p, Some(-1)) == p
    ensures BatteryReducer(p, None) == p
  {
  }

  /** The handle `remove()` is called on; `removals` counts the calls. */
  class Subscription {
    var removals: nat

    constructor()
      ensures removals == 0
    {
      removals := 0;
    }

    method Remove()
      modifies this
      ensures removals == old(removals) + 1
    {
      removals := removals + 1;
    }
  }

  class SettingsScreenState {
    /** `isMounted.current`: null, so falsy, until onStart. */
    var isMounted: bool
    var lightMode: int
    var batteryLevel: Option<BatteryState>
    var dimLEDSubscription: Option<Subscription>
    var batteryChargeSubscription: Option<Subscription>
    var disconnectSubscription: Option<Subscription>

    constructor()
      ensures !isMounted && lightMode == UNKNOWN && batteryLevel.None?
      ensures dimLEDSubscription.None? && batteryChargeSubscription.None? && disconnectSubscription.None?
    {
      isMounted := false;
      lightMode := UNKNOWN;
      batteryLevel := None;
      dimLEDSubscription := None;
      batteryChargeSubscription := None;
      disconnectSubscription := None;
    }

    /** onStart's first step; the reads, monitors and polling it then starts are separate handlers. */
    method OnStart()
      modifies this
      ensures isMounted
      ensures lightMode == old(lightMode) && batteryLevel == old(batteryLevel)
      ensures dimLEDSubscription == old(dimLEDSubscription) && batteryChargeSubscription == old(batteryChargeSubscription)
      ensures disconnectSubscription == old(disconnectSubscription)
    {
      isMounted := true;
    }

    /** `setState(setLightMode, mode)`: ignored once the screen is no longer mounted. */
    method SetLightMode(mode: int)
      modifies this
      ensures lightMode == (if old(isMounted) then mode else old(lightMode))
      ensures isMounted == old(isMounted) && batteryLevel == old(batteryLevel)
      ensures dimLEDSubscription == old(dimLEDSubscription) && batteryChargeSubscription == old(batteryChargeSubscription)
      ensures disconnectSubscription == old(disconnectSubscription)
    {
      if isMounted {
        lightMode := mode;
      }
    }

    /** `setState(dispatchBattery, action)`. */
    method DispatchBattery(action: Option<int>)
      modifies this
      ensures batteryLevel == (if old(isMounted) then BatteryReducer(old(batteryLevel), action) else old(batteryLevel))
      ensures isMounted == old(isMounted) && lightMode == old(lightMode)
      ensures dimLEDSubscription == old(dimLEDSubscription) && batteryChargeSubscription == old(batteryChargeSubscription)
      ensures disconnectSubscription == old(disconnectSubscription)
    {
      if isMounted {
        batteryLevel := BatteryReducer(batteryLevel, action);
      }
    }

    /**
     * writeDimLEDHandler: the new mode is shown at once; if the write's promise
     * rejects, the mode current at the call is restored. A synchronous throw
     * (no such characteristic) escapes the handler with the new mode kept;
     * the `threw` result is that exception.
     */
    method WriteDimLEDHandler(device: SunFibreDevice, newMode: int, transport: Outcome<Characteristic>)
      returns (threw: Option<Failure>)
      modifies this
      ensures threw.Some? <==> !device.GetDimLEDCharacteristic().Found?
      ensures !old(isMounted) ==> lightMode == old(lightMode)
      ensures old(isMounted) && threw.None? && transport.Err? && !BleService.IsDisconnect(transport.message) ==>
        lightMode == old(lightMode)
      ensures old(isMounted) && (threw.Some? || transport.Ok? || BleService.IsDisconnect(transport.message)) ==>
        lightMode == newMode
      ensures isMounted == old(isMounted) && batteryLevel == old(batteryLevel)
      ensures dimLEDSubscription == old(dimLEDSubscription) && batteryChargeSubscription == old(batteryChargeSubscription)
      ensures disconnectSubscription == old(disconnectSubscription)
    {
      var currentMode := lightMode;
      SetLightMode(newMode);
      var call, _ := device.WriteDimLEDCharacteristics(newMode, transport);
      match call {
        case Threw(e) =>
          return Some(e);
        case Returned(promise) =>
          if promise.Rejected? {
            SetLightMode(currentMode);
          }
          return None;
      }
    }

    /**
     * readDimLEDHandler: a read value becomes the mode; any rejection sets the
     * mode to UNKNOWN. A synchronous throw escapes the handler.
     */
    method ReadDimLEDHandler(device: SunFibreDevice, transport: Outcome<Option<string>>)
      returns (threw: Option<Failure>)
      modifies this
      ensures threw.Some? <==> !device.GetDimLEDCharacteristic().Found?
      ensures threw.Some? || !old(isMounted) ==> lightMode == old(lightMode)
      ensures old(isMounted) && threw.None? ==>
        match ThenDecode(BleService.ReadCharacteristics(transport), UInt8Reader)
        case Resolved(mode) => lightMode == mode
        case Rejected(_) => lightMode == UNKNOWN
        case Pending => lightMode == old(lightMode)
      ensures isMounted == old(isMounted) && batteryLevel == old(batteryLevel)
      ensures dimLEDSubscription == old(dimLEDSubscription) && batteryChargeSubscription == old(batteryChargeSubscription)
      ensures disconnectSubscription == old(disconnectSubscription)
    {
      var call, _ := device.ReadDimLEDCharacteristics(transport);
      match call {
        case Threw(e) =>
          return Some(e);
        case Returned(promise) =>
          match promise {
            case Resolved(mode) => SetLightMode(mode);
            case Rejected(_) => SetLightMode(UNKNOWN);
            case Pending =>
          }
          return None;
      }
    }

    /** monitorDisconnection: keeps the subscription the transport handed back. */
    method MonitorDisconnection(subscription: Subscription)
      modifies this
      ensures disconnectSubscription == Some(subscription)
      ensures isMounted == old(isMounted) && lightMode == old(lightMode) && batteryLevel == old(batteryLevel)
      ensures dimLEDSubscription == old(dimLEDSubscription) && batteryChargeSubscription == old(batteryChargeSubscription)
    {
      disconnectSubscription := Some(subscription);
    }

    /** The three refs never share a subscription: each comes from its own monitor call. */
    predicate DistinctSubscriptions()
      reads this
    {
      (dimLEDSubscription.Some? && batteryChargeSubscription.Some? ==> dimLEDSubscription.value != batteryChargeSubscription.value)
      && (dimLEDSubscription.Some? && disconnectSubscription.Some? ==> dimLEDSubscription.value != disconnectSubscription.value)
      && (batteryChargeSubscription.Some? && disconnectSubscription.Some? ==> batteryChargeSubscription.value != disconnectSubscription.value)
    }

    /** The subscriptions still held, in the order onDestroy visits them. */
    function Held(): seq<Subscription>
      reads this
    {
      (if dimLEDSubscription.Some? then [dimLEDSubscription.value] else [])
      + (if batteryChargeSubscription.Some? then [batteryChargeSubscription.value] else [])
      + (if disconnectSubscription.Some? then [disconnectSubscription.value] else [])
    }

    /**
     * onDestroy: unmounts, removes each held subscription once and drops it,
     * and releases the controlled device. A second call removes nothing.
     * `DistinctSubscriptions` rules out two refs sharing one handle, which
     * the source would then remove twice; the constructor and the monitor
     * calls never create such a share.
     */
    method OnDestroy(context: DevicesContextProvider.DevicesContext)
      requires DistinctSubscriptions()
      modifies this, Held(), context
      ensures !isMounted
      ensures dimLEDSubscription.None? && batteryChargeSubscription.None? && disconnectSubscription.None?
      ensures old(dimLEDSubscription).Some? ==>
        old(dimLEDSubscription).value.removals == old(dimLEDSubscription.value.removals) + 1
      ensures old(batteryChargeSubscription).Some? ==>
        old(batteryChargeSubscription).value.removals == old(batteryChargeSubscription.value.removals) + 1
      ensures old(disconnectSubscription).Some? ==>
        old(disconnectSubscription).value.removals == old(disconnectSubscription.value.removals) + 1
      ensures lightMode == old(lightMode) && batteryLevel == old(batteryLevel)
      ensures context.controlledDevice.None?
      ensures context.devices == old(context.devices) && context.dispatched == old(context.dispatched)
      ensures context.listeners == old(context.listeners) && context.nextSubscription == old(context.nextSubscription)
      ensures context.failure == old(context.failure)
    {
      isMounted := false;
      if dimLEDSubscription.Some? {
        assert dimLEDSubscription.value in old(Held());
        dimLEDSubscription.value.Remove();
        dimLEDSubscription := None;
      }
      if batteryChargeSubscription.Some? {
        assert batteryChargeSubscription.value in old(Held());
        batteryChargeSubscription.value.Remove();
        batteryChargeSubscription := None;
      }
      if disconnectSubscription.Some? {
        assert disconnectSubscription.value in old(Held());
        disconnectSubscription.value.Remove();
        disconnectSubscription := None;
      }
      context.SetSunFibreDeviceToControl(None);
    }
  }
}
