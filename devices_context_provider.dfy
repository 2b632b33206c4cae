/**
 * src/redux/DevicesContextProvider.js: the session layer that owns the device
 * registry (a `useReducer` over the devices reducer) and drives it from scan
 * results, connection attempts, disconnection events and user requests.
 * Transport answers and the clock are parameters; events are handled one at a
 * time, in the order they arrive.
 */
module DevicesContextProvider {
  import opened Wrappers
  import opened BlePlx
  import opened BleConstants
  import BleService
  import opened Device
  import opened DevicesReducer

  /** What the scan callback does with a scan error. */
  datatype ScanErrorRoute = NoScanError | ToScanErrorHandler(error: string) | ScanErrorLogged(error: string)

  function RouteScanError(error: Option<string>, hasScanErrorHandler: bool): (route: ScanErrorRoute)
    ensures route.NoScanError? <==> error.None?
    ensures route.ToScanErrorHandler? <==> error.Some? && hasScanErrorHandler
    ensures route.ToScanErrorHandler? || route.ScanErrorLogged? ==> route.error == error.value
  {
    if error.None? then NoScanError
    else if hasScanErrorHandler then ToScanErrorHandler(error.value)
    else ScanErrorLogged(error.value)
  }

  /** `names.find(dn => name.startsWith(dn))`. */
  function FindPrefix(names: seq<string>, name: string): (r: Option<string>)
    ensures r.Some? <==> exists n :: n in names && StartsWith(name, n)
    ensures r.Some? ==> r.value in names && StartsWith(name, r.value)
  {
    if |names| == 0 then None
    else if StartsWith(name, names[0]) then Some(names[0])
    else FindPrefix(names[1..], name)
  }

  /**
   * The scan callback's filter: a null device, or one whose name is missing or
   * empty, is ignored; otherwise SCANNED_DEVICE is dispatched exactly when the
   * name starts with one of the product names.
   */
  function ScanAction(device: Option<BleDevice>): (a: Option<Action>)
    ensures a.Some? <==> device.Some? && device.value.name.Some?
                         && exists n :: n in DEVICE_NAMES && StartsWith(device.value.name.value, n)
    ensures a.Some? ==> a.value == ScannedDevice(device.value)
  {
    if device.None? || device.value.name.None? || device.value.name.value == "" then None
    else
      match FindPrefix(DEVICE_NAMES, device.value.name.value)
      case Some(n) => if n != "" then Some(ScannedDevice(device.value)) else None
      case None => None
  }

  /** Both product names are accepted with any suffix; a bare "Sun" is not. */
  lemma ScanActionExamples(id: string, rssi: int)
    ensures ScanAction(Some(BleDevice(id, Some("SunFibre-07"), rssi))).Some?
    ensures ScanAction(Some(BleDevice(id, Some("BlueIoToy"), rssi))).Some?
    ensures ScanAction(Some(BleDevice(id, Some("Sun"), rssi))).None?
    ensures ScanAction(Some(BleDevice(id, Some(""), rssi))).None?
  {
    assert StartsWith("SunFibre-07", "SunFibre");
    assert StartsWith("BlueIoToy", "BlueIoToy");
  }

  class DevicesContext {
    /** The reducer's current state. */
    var devices: seq<SunFibreDevice>
    /** The device whose card is open. */
    var controlledDevice: Option<SunFibreDevice>
    /** Every action dispatched, in order. */
    var dispatched: seq<Action>
    /** Set once the reducer has thrown: React reports it at render and unmounts the provider. */
    var failure: Option<Failure>
    /** Live disconnection subscriptions, each for the record it was registered for. */
    var listeners: map<nat, SunFibreDevice>
    var nextSubscription: nat

    /**
     * The registry never holds two records for one MAC address, a record
     * holds a service table exactly when it is connected, and every live
     * subscription id was handed out before the next one.
     */
    predicate Valid()
      reads this, devices
    {
      UniqueMacs(devices) && TableIffConnected(devices)
      && forall k :: k in listeners ==> k < nextSubscription
    }

    /** `useReducer(DevicesReducer, [])`, `useState(null)`. */
    constructor()
      ensures Valid()
      ensures devices == [] && controlledDevice.None? && dispatched == [] && failure.None?
      ensures listeners == map[] && nextSubscription == 0
    {
      devices := [];
      controlledDevice := None;
      dispatched := [];
      failure := None;
      listeners := map[];
      nextSubscription := 0;
    }

    /** `dispatchDevices(action)`, with the reducer run at once on the current state. */
    method Dispatch(action: Action, now: int)
      requires Valid()
      modifies this, devices
      ensures Valid()
      ensures dispatched == old(dispatched) + [action]
      ensures controlledDevice == old(controlledDevice)
      ensures listeners == old(listeners) && nextSubscription == old(nextSubscription)
      ensures old(failure).Some? ==> failure == old(failure) && devices == old(devices)
      ensures old(failure).None? ==> (failure.Some? <==> old(Rejects(devices, action)))
      ensures failure.Some? ==> devices == old(devices)
      ensures old(failure).None? ==>
        Reduced(old(devices), action, now, if failure.Some? then Failure(failure.value) else Success(devices))
      ensures old(failure).Some? ==> forall d :: d in old(devices) ==> unchanged(d)
    {
      if failure.Some? {
        dispatched := dispatched + [action];
        return;
      }
      var r: Result<seq<SunFibreDevice>, Failure>;
      match action {
        case ScannedDevice(_) => r := ApplyScanned(action, now);
        case ConnectedDevice(_, _) => r := ApplyConnected(action, now);
        case DisconnectedDevice(_) => r := ApplyDisconnected(action, now);
        case Clear => r := ApplyClear(action, now);
        case Unsupported(_) => r := ApplyUnsupported(action, now);
      }
      assert r == if failure.Some? then Failure(failure.value) else Success(devices);
      if r.Failure? {
        forall i, j | 0 <= i < |devices| && 0 <= j < |devices| && devices[i].device.id == devices[j].device.id
          ensures i == j
        {
          assert devices[i] in old(devices) && devices[j] in old(devices);
          assert old(devices[i].device.id == devices[j].device.id);
        }
      }
    }

    // The reducer's cases, each run on the registry and its result committed:
    // the new list on success, the thrown error otherwise.

    method ApplyScanned(action: Action, now: int) returns (r: Result<seq<SunFibreDevice>, Failure>)
      requires failure.None? && action.ScannedDevice?
      modifies this`devices, this`failure, this`dispatched, devices
      ensures Reduced(old(devices), action, now, r)
      ensures old(UniqueMacs(devices)) && r.Success? ==> UniqueMacs(r.value)
      ensures old(TableIffConnected(devices)) && r.Success? ==> TableIffConnected(r.value)
      ensures r.Success? ==> devices == r.value && failure.None?
      ensures r.Failure? ==> devices == old(devices) && failure == Some(r.error)
      ensures dispatched == old(dispatched) + [action]
    {
      r := Reduce(devices, action, now);
      assert r.Success?;
      devices, dispatched := r.value, dispatched + [action];
    }

    method ApplyConnected(action: Action, now: int) returns (r: Result<seq<SunFibreDevice>, Failure>)
      requires failure.None? && action.ConnectedDevice?
      modifies this`devices, this`failure, this`dispatched, devices
      ensures Reduced(old(devices), action, now, r)
      ensures old(UniqueMacs(devices)) && r.Success? ==> UniqueMacs(r.value)
      ensures old(TableIffConnected(devices)) && r.Success? ==> TableIffConnected(r.value)
      ensures r.Success? ==> devices == r.value && failure.None?
      ensures r.Failure? ==> devices == old(devices) && failure == Some(r.error)
      ensures dispatched == old(dispatched) + [action]
    {
      r := Reduce(devices, action, now);
      if r.Success? {
        devices, dispatched := r.value, dispatched + [action];
      } else {
        failure, dispatched := Some(r.error), dispatched + [action];
      }
    }

    method ApplyDisconnected(action: Action, now: int) returns (r: Result<seq<SunFibreDevice>, Failure>)
      requires failure.None? && action.DisconnectedDevice?
      modifies this`devices, this`failure, this`dispatched, devices
      ensures Reduced(old(devices), action, now, r)
      ensures old(UniqueMacs(devices)) && r.Success? ==> UniqueMacs(r.value)
      ensures old(TableIffConnected(devices)) && r.Success? ==> TableIffConnected(r.value)
      ensures r.Success? ==> devices == r.value && failure.None?
      ensures r.Failure? ==> devices == old(devices) && failure == Some(r.error)
      ensures dispatched == old(dispatched) + [action]
    {
      r := Reduce(devices, action, now);
      assert r.Success?;
      devices, dispatched := r.value, dispatched + [action];
    }

    method ApplyClear(action: Action, now: int) returns (r: Result<seq<SunFibreDevice>, Failure>)
      requires failure.None? && action.Clear?
      modifies this`devices, this`failure, this`dispatched
      ensures Reduced(old(devices), action, now, r)
      ensures old(UniqueMacs(devices)) && r.Success? ==> UniqueMacs(r.value)
      ensures old(TableIffConnected(devices)) && r.Success? ==> TableIffConnected(r.value)
      ensures r.Success? ==> devices == r.value && failure.None?
      ensures r.Failure? ==> devices == old(devices) && failure == Some(r.error)
      ensures dispatched == old(dispatched) + [action]
    {
      var rest := ConnectedOnly(devices);
      if UniqueMacs(devices) {
        SubsequenceKeepsUnique(rest, devices);
      }
      devices, dispatched := rest, dispatched + [action];
      r := Success(rest);
    }

    method ApplyUnsupported(action: Action, now: int) returns (r: Result<seq<SunFibreDevice>, Failure>)
      requires failure.None? && action.Unsupported?
      modifies this`devices, this`failure, this`dispatched
      ensures Reduced(old(devices), action, now, r)
      ensures old(UniqueMacs(devices)) && r.Success? ==> UniqueMacs(r.value)
      ensures old(TableIffConnected(devices)) && r.Success? ==> TableIffConnected(r.value)
      ensures r.Success? ==> devices == r.value && failure.None?
      ensures r.Failure? ==> devices == old(devices) && failure == Some(r.error)
      ensures dispatched == old(dispatched) + [action]
    {
      failure, dispatched := Some(Error(UNSUPPORTED)), dispatched + [action];
      r := Failure(Error(UNSUPPORTED));
    }

    /**
     * The callback given to `startDeviceScan`: the error is routed first, then
     * the device is filtered (the callback does not return after an error).
     */
    method OnScan(error: Option<string>, device: Option<BleDevice>, hasScanErrorHandler: bool, now: int)
      returns (route: ScanErrorRoute)
      requires Valid()
      modifies this, devices
      ensures Valid()
      ensures route == RouteScanError(error, hasScanErrorHandler)
      ensures ScanAction(device).None? ==> dispatched == old(dispatched) && devices == old(devices)
      ensures ScanAction(device).Some? ==> dispatched == old(dispatched) + [ScannedDevice(device.value)]
      ensures ScanAction(device).None? || old(failure).Some? ==>
        failure == old(failure) && forall d :: d in old(devices) ==> unchanged(d)
      ensures ScanAction(device).Some? && old(failure).None? ==>
        failure.None? && Reduced(old(devices), ScannedDevice(device.value), now, Success(devices))
      ensures listeners == old(listeners) && nextSubscription == old(nextSubscription)
      ensures controlledDevice == old(controlledDevice)
    {
      route := RouteScanError(error, hasScanErrorHandler);
      var a := ScanAction(device);
      if a.Some? {
        Dispatch(a.value, now);
      }
    }

    /**
     * connectSunFibreDevice: connect, then discover, then dispatch
     * CONNECTED_DEVICE with the discovered table and only then register the
     * disconnection listener. The final `.catch` wraps any rejection once more;
     * a discovery failure leaves the promise pending and dispatches nothing.
     */
    method ConnectSunFibreDevice(sunFibreDevice: SunFibreDevice, connection: Outcome<BleDevice>,
                                 discovery: Outcome<seq<Service>>, now: int)
      returns (r: Settlement<()>)
      requires Valid()
      modifies this, devices
      ensures Valid()
      ensures connection.Err? ==> r == Rejected(Rethrown(Rethrown(BleError(connection.message))))
      ensures connection.Ok? && discovery.Err? ==> r == Pending
      ensures connection.Err? || discovery.Err? ==>
        dispatched == old(dispatched) && devices == old(devices) && listeners == old(listeners)
      ensures connection.Ok? && discovery.Ok? ==>
        r == Resolved(())
        && dispatched == old(dispatched) + [ConnectedDevice(old(sunFibreDevice.device),
             BleService.TableOf(BleService.KnownServices(discovery.value, DEVICE_SERVICES)))]
        && listeners == old(listeners)[old(nextSubscription) := sunFibreDevice]
        && nextSubscription == old(nextSubscription) + 1
      ensures connection.Ok? && discovery.Ok? && old(failure).None? ==>
        devices == old(devices) && (failure.Some? <==> old(Find(devices, sunFibreDevice.device.id)).None?)
      ensures connection.Ok? && discovery.Ok? && old(failure).None? && failure.None? ==>
        var d := devices[old(Find(devices, sunFibreDevice.device.id)).value];
        d.connected && d.servicesCharacteristics ==
          Some(BleService.TableOf(BleService.KnownServices(discovery.value, DEVICE_SERVICES)))
        && d.device == old(d.device) && d.lastSeenTimestamp == old(d.lastSeenTimestamp)
        && forall e :: e in old(devices) && e != d ==> unchanged(e)
      ensures connection.Ok? && discovery.Ok? && old(failure).None? && failure.Some? ==>
        failure == Some(Error(NOT_IN_LIST)) && forall d :: d in old(devices) ==> unchanged(d)
      ensures connection.Err? || discovery.Err? || old(failure).Some? ==>
        failure == old(failure) && forall d :: d in old(devices) ==> unchanged(d)
      ensures controlledDevice == old(controlledDevice)
    {
      var connected := BleService.Connect(connection);
      if connected.Rejected? {
        return Rejected(Rethrown(connected.reason));
      }
      var sch := BleService.GetServicesAndCharacteristics(discovery);
      if !sch.Resolved? {
        return Pending;
      }
      OnServicesDiscovered(sunFibreDevice, sch.value, now);
      r := Resolved(());
    }

    /**
     * The `.then((sch) => …)` step of connectSunFibreDevice: CONNECTED_DEVICE
     * with the discovered table is dispatched, then the listener registered.
     */
    method OnServicesDiscovered(sunFibreDevice: SunFibreDevice, sch: ServiceTable, now: int)
      requires Valid()
      modifies this, devices
      ensures Valid()
      ensures dispatched == old(dispatched) + [ConnectedDevice(old(sunFibreDevice.device), sch)]
      ensures listeners == old(listeners)[old(nextSubscription) := sunFibreDevice]
      ensures nextSubscription == old(nextSubscription) + 1 && controlledDevice == old(controlledDevice)
      ensures old(failure).None? ==>
        Reduced(old(devices), ConnectedDevice(old(sunFibreDevice.device), sch), now,
          if failure.Some? then Failure(failure.value) else Success(devices))
      ensures failure.Some? ==> devices == old(devices)
      ensures old(failure).None? ==>
        devices == old(devices) && (failure.Some? <==> old(Find(devices, sunFibreDevice.device.id)).None?)
      ensures old(failure).None? && failure.None? ==>
        var d := devices[old(Find(devices, sunFibreDevice.device.id)).value];
        d.connected && d.servicesCharacteristics == Some(sch)
        && d.device == old(d.device) && d.lastSeenTimestamp == old(d.lastSeenTimestamp)
        && forall e :: e in old(devices) && e != d ==> unchanged(e)
      ensures old(failure).None? && failure.Some? ==>
        failure == Some(Error(NOT_IN_LIST)) && forall d :: d in old(devices) ==> unchanged(d)
      ensures old(failure).Some? ==>
        failure == old(failure) && forall d :: d in old(devices) ==> unchanged(d)
    {
      Dispatch(ConnectedDevice(sunFibreDevice.device, sch), now);
      OnDisconnectedSunFibreDevice(sunFibreDevice);
    }

    /** onDisconnectedSunFibreDevice: registers a disconnection listener for the record. */
    method OnDisconnectedSunFibreDevice(sunFibreDevice: SunFibreDevice)
      requires Valid()
      modifies this
      ensures Valid()
      ensures listeners == old(listeners)[old(nextSubscription) := sunFibreDevice]
      ensures old(nextSubscription) !in old(listeners) && |listeners| == |old(listeners)| + 1
      ensures nextSubscription == old(nextSubscription) + 1
      ensures devices == old(devices) && dispatched == old(dispatched) && failure == old(failure)
      ensures controlledDevice == old(controlledDevice)
    {
      listeners := listeners[nextSubscription := sunFibreDevice];
      nextSubscription := nextSubscription + 1;
    }

    /**
     * A disconnection event for a subscription: with no error the listener
     * dispatches DISCONNECTED_DEVICE for its record and removes itself; an
     * error is only logged; a removed subscription hears nothing.
     */
    method OnDisconnection(subscription: nat, error: Option<string>, now: int)
      requires Valid()
      modifies this, devices
      ensures Valid()
      ensures subscription !in old(listeners) || error.Some? ==>
        dispatched == old(dispatched) && devices == old(devices) && listeners == old(listeners)
      ensures subscription in old(listeners) && error.None? ==>
        dispatched == old(dispatched) + [DisconnectedDevice(old(listeners[subscription].device))]
        && listeners == old(listeners) - {subscription}
      ensures subscription !in old(listeners) || error.Some? || old(failure).Some? ==>
        failure == old(failure) && forall d :: d in old(devices) ==> unchanged(d)
      ensures subscription in old(listeners) && error.None? && old(failure).None? ==>
        failure.None? && Reduced(old(devices), DisconnectedDevice(old(listeners[subscription].device)), now, Success(devices))
      ensures nextSubscription == old(nextSubscription) && controlledDevice == old(controlledDevice)
    {
      if subscription !in listeners {
        return;
      }
      var sunFibreDevice := listeners[subscription];
      var handled := BleService.DisconnectionCallback(sunFibreDevice.device, error);
      if handled.Some? {
        Dispatch(DisconnectedDevice(sunFibreDevice.device), now);
        listeners := listeners - {subscription};
      }
    }

    /** disconnectSunFibreDevice: DISCONNECTED_DEVICE only after cancelConnection succeeded. */
    method DisconnectSunFibreDevice(sunFibreDevice: SunFibreDevice, cancellation: Outcome<BleDevice>, now: int)
      requires Valid()
      modifies this, devices
      ensures Valid()
      ensures cancellation.Ok? ==> dispatched == old(dispatched) + [DisconnectedDevice(old(sunFibreDevice.device))]
      ensures cancellation.Err? ==> dispatched == old(dispatched) && devices == old(devices)
      ensures cancellation.Ok? && old(failure).None? ==>
        failure.None? && Reduced(old(devices), DisconnectedDevice(old(sunFibreDevice.device)), now, Success(devices))
      ensures cancellation.Err? || old(failure).Some? ==>
        failure == old(failure) && forall d :: d in old(devices) ==> unchanged(d)
      ensures listeners == old(listeners) && nextSubscription == old(nextSubscription)
      ensures controlledDevice == old(controlledDevice)
    {
      var cancelled := BleService.Disconnect(cancellation);
      if cancelled.Resolved? {
        Dispatch(DisconnectedDevice(sunFibreDevice.device), now);
      }
    }

    /** clearSunFibreDevices. */
    method ClearSunFibreDevices(now: int)
      requires Valid()
      modifies this, devices
      ensures Valid()
      ensures dispatched == old(dispatched) + [Clear]
      ensures old(failure).None? ==> failure.None? && devices == old(ConnectedOnly(devices))
      ensures old(failure).None? ==> Reduced(old(devices), Clear, now, Success(devices))
      ensures old(failure).None? ==> forall d :: d in devices ==> d.connected && d.servicesCharacteristics.Some?
      ensures old(failure).Some? ==> failure == old(failure) && forall d :: d in old(devices) ==> unchanged(d)
      ensures listeners == old(listeners) && nextSubscription == old(nextSubscription)
      ensures controlledDevice == old(controlledDevice)
    {
      Dispatch(Clear, now);
    }

    /** setSunFibreDeviceToControl. */
    method SetSunFibreDeviceToControl(sunFibreDevice: Option<SunFibreDevice>)
      modifies this
      ensures controlledDevice == sunFibreDevice
      ensures devices == old(devices) && dispatched == old(dispatched) && failure == old(failure)
      ensures listeners == old(listeners) && nextSubscription == old(nextSubscription)
    {
      controlledDevice := sunFibreDevice;
    }
  }
}
