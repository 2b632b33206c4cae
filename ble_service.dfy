/**
 * src/services/BLEService.js: the thin layer over react-native-ble-plx.
 * Every transport call is replaced by its answer (an `Outcome`), and each
 * operation says how the promise it returns settles.
 */
module BleService {
  import opened Wrappers
  import opened BlePlx
  import opened Codec
  import BleConstants

  const TIMEOUT_MESSAGE := "Operation was cancelled"
  const DISCONNECTED_SUFFIX := "was disconnected"
  const DISCONNECT_FAILED := "Disconnect Failed"
  const WRITE_FAILED := "(BLE): WriteCharacteristics failed"
  const READ_FAILED := "(BLE): readCharacteristics failed"

  // ---------------------------------------------------------------------
  // Connection
  // ---------------------------------------------------------------------

  /**
   * connect: the timeout ("Operation was cancelled") and every other failure
   * differ only in what is logged; both reject with a new Error wrapping the
   * transport's error.
   */
  function Connect(outcome: Outcome<BleDevice>): (r: Settlement<BleDevice>)
    ensures r != Pending
    ensures r.Resolved? <==> outcome.Ok?
    ensures r.Resolved? ==> r.value == outcome.value
    ensures outcome.Err? ==> r.reason == Rethrown(BleError(outcome.message))
  {
    match outcome
    case Ok(device) => Resolved(device)
    case Err(message) => Rejected(Rethrown(BleError(message)))
  }

  /** The connection timeout `connect` asks the transport for, in milliseconds. */
  function ConnectTimeout(): nat
  {
    BleConstants.DEVICE_CONNECT_TIMEOUT
  }

  /** disconnect: a failure of cancelConnection rejects with "Disconnect Failed". */
  function Disconnect(outcome: Outcome<BleDevice>): (r: Settlement<BleDevice>)
    ensures r != Pending
    ensures r.Resolved? <==> outcome.Ok?
    ensures r.Resolved? ==> r.value == outcome.value
    ensures r.Rejected? ==> r.reason == Error(DISCONNECT_FAILED)
  {
    match outcome
    case Ok(device) => Resolved(device)
    case Err(_) => Rejected(Error(DISCONNECT_FAILED))
  }

  // ---------------------------------------------------------------------
  // Service discovery
  // ---------------------------------------------------------------------

  /** No two services share a uuid. */
  predicate DistinctUuids(services: seq<Service>)
  {
    forall j, k :: 0 <= j < k < |services| ==> services[j].uuid != services[k].uuid
  }

  /** The discovered services whose uuid is in `known`, in discovery order (`services.filter`). */
  function KnownServices(services: seq<Service>, known: seq<Uuid>): (r: seq<Service>)
    ensures forall s :: s in r <==> s in services && s.uuid in known
  {
    if |services| == 0 then []
    else (if services[0].uuid in known then [services[0]] else []) + KnownServices(services[1..], known)
  }

  /** The filter keeps discovery order and repeats: it distributes over concatenation. */
  lemma {:induction false} KnownServicesAppend(a: seq<Service>, b: seq<Service>, known: seq<Uuid>)
    ensures KnownServices(a + b, known) == KnownServices(a, known) + KnownServices(b, known)
    decreases |a|
  {
    if |a| > 0 {
      assert (a + b)[1..] == a[1..] + b;
      KnownServicesAppend(a[1..], b, known);
    } else {
      assert a + b == b;
    }
  }

  /** Discovered services with distinct uuids stay distinct once filtered. */
  lemma {:induction false} KnownServicesDistinct(services: seq<Service>, known: seq<Uuid>)
    requires DistinctUuids(services)
    ensures DistinctUuids(KnownServices(services, known))
    decreases |services|
  {
    if |services| > 0 {
      var tail := services[1..];
      assert DistinctUuids(tail) by {
        forall j, k | 0 <= j < k < |tail|
          ensures tail[j].uuid != tail[k].uuid
        {
          assert tail[j] == services[j + 1] && tail[k] == services[k + 1];
        }
      }
      KnownServicesDistinct(tail, known);
      var rest := KnownServices(tail, known);
      var r := KnownServices(services, known);
      if services[0].uuid in known {
        assert r == [services[0]] + rest;
        forall j, k | 0 <= j < k < |r|
          ensures r[j].uuid != r[k].uuid
        {
          assert r[k] == rest[k - 1] && rest[k - 1] in rest;
          if j == 0 {
            var m :| 0 <= m < |tail| && tail[m] == rest[k - 1];
            assert services[m + 1] == r[k];
          } else {
            assert r[j] == rest[j - 1];
          }
        }
      } else {
        assert r == rest;
      }
    }
  }

  /**
   * The table the loop builds: each service's uuid maps to that service's
   * characteristics; a uuid met twice keeps the later service's list.
   */
  function TableOf(services: seq<Service>): ServiceTable
  {
    if |services| == 0 then map[]
    else TableOf(services[..|services| - 1])[services[|services| - 1].uuid := services[|services| - 1].characteristics]
  }

  /** The keys of the table are exactly the uuids of the services. */
  lemma {:induction false} TableOfKeys(services: seq<Service>)
    ensures TableOf(services).Keys == set s | s in services :: s.uuid
    decreases |services|
  {
    if |services| > 0 {
      var init := services[..|services| - 1];
      TableOfKeys(init);
      assert services == init + [services[|services| - 1]];
    }
  }

  /** With distinct uuids, each service's list is found under its uuid, whole and in order. */
  lemma {:induction false} TableOfDistinct(services: seq<Service>, i: nat)
    requires i < |services|
    requires forall j, k :: 0 <= j < k < |services| ==> services[j].uuid != services[k].uuid
    ensures services[i].uuid in TableOf(services)
    ensures TableOf(services)[services[i].uuid] == services[i].characteristics
    decreases |services|
  {
    if i < |services| - 1 {
      TableOfDistinct(services[..|services| - 1], i);
    }
  }

  /**
   * With distinct discovered uuids, each discovered service of a known uuid
   * is found in the table of the filtered list with all its characteristics,
   * in discovery order.
   */
  lemma KnownTableOf(services: seq<Service>, known: seq<Uuid>, s: Service)
    requires DistinctUuids(services)
    requires s in services && s.uuid in known
    ensures s.uuid in TableOf(KnownServices(services, known))
    ensures TableOf(KnownServices(services, known))[s.uuid] == s.characteristics
  {
    var r := KnownServices(services, known);
    KnownServicesDistinct(services, known);
    assert s in r;
    var i :| 0 <= i < |r| && r[i] == s;
    TableOfDistinct(r, i);
  }

  /**
   * The `for` loop of getServicesAndCharacteristics: every service of the list
   * gets a fresh empty list under its uuid, into which its characteristics are
   * pushed one by one.
   */
  method BuildServiceTable(services: seq<Service>) returns (serviceCharacteristics: ServiceTable)
    ensures serviceCharacteristics == TableOf(services)
  {
    serviceCharacteristics := map[];
    var i := 0;
    while i < |services|
      invariant 0 <= i <= |services|
      invariant serviceCharacteristics == TableOf(services[..i])
    {
      var s := services[i];
      serviceCharacteristics := serviceCharacteristics[s.uuid := []];
      var characteristics := s.characteristics;
      var j := 0;
      while j < |characteristics|
        invariant 0 <= j <= |characteristics|
        invariant serviceCharacteristics == TableOf(services[..i])[s.uuid := characteristics[..j]]
      {
        assert characteristics[..j + 1] == characteristics[..j] + [characteristics[j]];
        serviceCharacteristics := serviceCharacteristics[s.uuid := serviceCharacteristics[s.uuid] + [characteristics[j]]];
        j := j + 1;
      }
      assert characteristics[..j] == characteristics;
      assert services[..i + 1][..i] == services[..i];
      assert TableOf(services[..i + 1]) == TableOf(services[..i])[s.uuid := s.characteristics];
      i := i + 1;
    }
    assert services[..i] == services;
  }

  /**
   * getServicesAndCharacteristics: `discovery` stands for everything the
   * transport is awaited for (discovery, the service list, each service's
   * characteristics). A failure there is only logged: the promise never settles.
   */
  method GetServicesAndCharacteristics(discovery: Outcome<seq<Service>>) returns (r: Settlement<ServiceTable>)
    ensures discovery.Err? <==> r == Pending
    ensures !r.Rejected?
    ensures r.Resolved? ==> r.value == TableOf(KnownServices(discovery.value, BleConstants.DEVICE_SERVICES))
    ensures r.Resolved? ==>
      r.value.Keys == set s | s in discovery.value && s.uuid in BleConstants.DEVICE_SERVICES :: s.uuid
    ensures r.Resolved? && DistinctUuids(discovery.value) ==>
      forall s :: s in discovery.value && s.uuid in BleConstants.DEVICE_SERVICES ==>
        s.uuid in r.value && r.value[s.uuid] == s.characteristics
  {
    if discovery.Err? {
      return Pending;
    }
    var services := KnownServices(discovery.value, BleConstants.DEVICE_SERVICES);
    var table := BuildServiceTable(services);
    TableOfKeys(services);
    if DistinctUuids(discovery.value) {
      forall s | s in discovery.value && s.uuid in BleConstants.DEVICE_SERVICES
        ensures s.uuid in table && table[s.uuid] == s.characteristics
      {
        KnownTableOf(discovery.value, BleConstants.DEVICE_SERVICES, s);
      }
    }
    r := Resolved(table);
  }

  // ---------------------------------------------------------------------
  // Characteristic I/O
  // ---------------------------------------------------------------------

  /** A failure whose message ends in "was disconnected": the device went away mid-operation. */
  predicate IsDisconnect(message: string)
  {
    EndsWith(message, DISCONNECTED_SUFFIX)
  }

  /**
   * writeCharacteristics: resolves with what writeWithResponse resolved with;
   * a failure because the device went away resolves with `undefined` (None);
   * any other failure rejects with a fixed message.
   */
  function WriteCharacteristics(outcome: Outcome<Characteristic>): (r: Settlement<Option<Characteristic>>)
    ensures r != Pending
    ensures r.Rejected? <==> outcome.Err? && !IsDisconnect(outcome.message)
    ensures r.Rejected? ==> r.reason == Error(WRITE_FAILED)
    ensures r == Resolved(None) <==> outcome.Err? && IsDisconnect(outcome.message)
    ensures outcome.Ok? ==> r == Resolved(Some(outcome.value))
  {
    match outcome
    case Ok(ch) => Resolved(Some(ch))
    case Err(message) =>
      if IsDisconnect(message) then Resolved(None) else Rejected(Error(WRITE_FAILED))
  }

  /**
   * readCharacteristics: the read value (base64 text, possibly null) is
   * decoded to bytes; a null value makes the decoding throw a TypeError, which
   * rejects the promise. Failures are classified as for writes.
   */
  function ReadCharacteristics(outcome: Outcome<Option<string>>): (r: Settlement<Option<seq<Byte>>>)
    ensures r != Pending
    ensures r == Resolved(None) <==> outcome.Err? && IsDisconnect(outcome.message)
    ensures r.Rejected? && r.reason != TypeError <==> outcome.Err? && !IsDisconnect(outcome.message)
    ensures r.Rejected? && r.reason != TypeError ==> r.reason == Error(READ_FAILED)
    ensures outcome.Ok? && outcome.value.Some? ==>
      r == Resolved(Some(Base64StrToBinaryArray(Text(outcome.value.value))))
    ensures outcome == Ok(None) <==> r == Rejected(TypeError)
  {
    match outcome
    case Ok(value) =>
      if value.None? then Rejected(TypeError)
      else Resolved(Some(Base64StrToBinaryArray(Text(value.value))))
    case Err(message) =>
      if IsDisconnect(message) then Resolved(None) else Rejected(Error(READ_FAILED))
  }

  /** Bytes written as base64 by the device come back unchanged from a read. */
  lemma ReadCharacteristicsOfEncoded(bytes: seq<Byte>)
    ensures ReadCharacteristics(Ok(Some(Base64Encode(bytes)))) == Resolved(Some(bytes))
  {
    Base64RoundTrip(bytes);
  }

  // ---------------------------------------------------------------------
  // Monitoring
  // ---------------------------------------------------------------------

  /** Which of the caller's handlers a monitor callback invokes. */
  datatype MonitorEffect =
    | ValueChanged(value: string)   // onCharacteristicValueChangeHandler(characteristic.value)
    | CallbackThrew(failure: Failure) // the value was null: logging it as hex throws before the handler
    | Ignored                       // a teardown race: neither handler
    | ErrorHandled(error: string)   // onCharacteristicValueErrorHandler(error)
    | ErrorLogged(error: string)    // no error handler: the error is only logged

  /** The two monitor errors that are expected on teardown and deliberately swallowed. */
  predicate IsTeardownRace(message: string)
  {
    message == TIMEOUT_MESSAGE || IsDisconnect(message)
  }

  /**
   * The callback given to a monitor: `error` is null when a new `value`
   * arrived. The value is first logged through base64StrToHexStr, which throws
   * a TypeError on a null value, so the change handler only ever sees text.
   */
  function MonitorCallback(error: Option<string>, value: Option<string>, hasErrorHandler: bool): (e: MonitorEffect)
    ensures e.ValueChanged? <==> error.None? && value.Some?
    ensures e.ValueChanged? ==> e.value == value.value
    ensures e == CallbackThrew(TypeError) <==> error.None? && value.None?
    ensures e.Ignored? <==> error.Some? && IsTeardownRace(error.value)
    ensures e.ErrorHandled? <==> error.Some? && !IsTeardownRace(error.value) && hasErrorHandler
    ensures e.ErrorLogged? <==> error.Some? && !IsTeardownRace(error.value) && !hasErrorHandler
    ensures e.ErrorHandled? || e.ErrorLogged? ==> e.error == error.value
  {
    if error.None? then
      (if value.None? then CallbackThrew(TypeError) else ValueChanged(value.value))
    else if error.value == TIMEOUT_MESSAGE then Ignored
    else if IsDisconnect(error.value) then Ignored
    else if hasErrorHandler then ErrorHandled(error.value)
    else ErrorLogged(error.value)
  }

  /**
   * The callback given to `device.onDisconnected` by monitorDisconnection:
   * the handler is called with the monitored device exactly when no error is
   * reported; an error is only logged.
   */
  function DisconnectionCallback(monitored: BleDevice, error: Option<string>): (handlerArgument: Option<BleDevice>)
    ensures handlerArgument.Some? <==> error.None?
    ensures handlerArgument.Some? ==> handlerArgument.value == monitored
  {
    if error.None? then Some(monitored) else None
  }
}
