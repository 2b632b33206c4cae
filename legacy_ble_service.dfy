/**
 * services/BLEService.js (the older revision). Its copies of the service
 * uuids and characteristic positions have the values of ble-constants.js and
 * are taken from LegacyBleConstants. It knows only the LED-control and maintenance services, sends
 * single-byte writes and turns every read, write and connect failure into
 * one fixed error. Its monitor and disconnection callbacks branch exactly as
 * the newer ones do and are modelled once, by BleService.MonitorCallback and
 * BleService.DisconnectionCallback.
 */
module LegacyBleService {
  import opened Wrappers
  import opened BlePlx
  import opened Codec
  import BleService
  import opened LegacyBleConstants

  const DEVICE_NAMES: seq<string> := ["SunFibre", "BlueIoToy"]

  const CONNECT_FAILED := "Connect failed"
  const DISCONNECT_FAILED := "Disconnect failed"
  const WRITE_FAILED := "Write failed"
  const READ_FAILED := "Read failed"

  /** connect: a timeout and any other failure both reject with "Connect failed". */
  function Connect(outcome: Outcome<BleDevice>): (r: Settlement<BleDevice>)
    ensures r != Pending
    ensures r.Resolved? <==> outcome.Ok?
    ensures r.Resolved? ==> r.value == outcome.value
    ensures r.Rejected? ==> r.reason == Error(CONNECT_FAILED)
  {
    match outcome
    case Ok(device) => Resolved(device)
    case Err(_) => Rejected(Error(CONNECT_FAILED))
  }

  /** disconnect: a failure of cancelConnection rejects with "Disconnect failed". */
  function Disconnect(outcome: Outcome<BleDevice>): (r: Settlement<BleDevice>)
    ensures r != Pending
    ensures r.Resolved? <==> outcome.Ok?
    ensures r.Resolved? ==> r.value == outcome.value
    ensures r.Rejected? ==> r.reason == Error(DISCONNECT_FAILED)
  {
    match outcome
    case Ok(device) => Resolved(device)
    case Err(_) => Rejected(Error(DISCONNECT_FAILED))
  }

  /**
   * getServicesAndCharacteristics: the same filter-then-loop as the newer
   * revision over the older set of known services; a failure is only logged
   * and the promise never settles.
   */
  method GetServicesAndCharacteristics(discovery: Outcome<seq<Service>>) returns (r: Settlement<ServiceTable>)
    ensures discovery.Err? <==> r == Pending
    ensures !r.Rejected?
    ensures r.Resolved? ==> r.value == BleService.TableOf(BleService.KnownServices(discovery.value, DEVICE_SERVICES))
    ensures r.Resolved? ==>
      r.value.Keys == set s | s in discovery.value && s.uuid in DEVICE_SERVICES :: s.uuid
    ensures r.Resolved? ==> r.value.Keys <= {SERVICE_LED_CONTROL, SERVICE_MAINTENANCE}
    ensures r.Resolved? && BleService.DistinctUuids(discovery.value) ==>
      forall s :: s in discovery.value && s.uuid in DEVICE_SERVICES ==>
        s.uuid in r.value && r.value[s.uuid] == s.characteristics
  {
    if discovery.Err? {
      return Pending;
    }
    var services := BleService.KnownServices(discovery.value, DEVICE_SERVICES);
    var table := BleService.BuildServiceTable(services);
    BleService.TableOfKeys(services);
    if BleService.DistinctUuids(discovery.value) {
      forall s | s in discovery.value && s.uuid in DEVICE_SERVICES
        ensures s.uuid in table && table[s.uuid] == s.characteristics
      {
        BleService.KnownTableOf(discovery.value, DEVICE_SERVICES, s);
      }
    }
    r := Resolved(table);
  }

  /** What writeCharacteristics hands to writeWithResponse: `binaryArrayToBase64Str([value])`. */
  function WritePayload(value: int): (text: string)
    ensures |text| == 4 && text[2..] == "=="
    ensures Base64StrToBinaryArray(Text(text)) == [value % 256]
  {
    var b := LowBytes([value]);
    Base64EncodePadding(b);
    Base64RoundTrip(b);
    BinaryArrayToBase64Str([value])
  }

  /** What a write hands to the transport and how its promise settles. */
  datatype Write = Write(payload: string, settlement: Settlement<Characteristic>)

  /**
   * writeCharacteristics: `value` goes out as the one-byte payload of
   * WritePayload; the promise resolves with the characteristic it was given
   * once the write succeeded, and any failure, a disconnection included,
   * rejects with "Write failed".
   */
  function WriteCharacteristics(characteristic: Characteristic, value: int, outcome: Outcome<()>): (w: Write)
    ensures |w.payload| == 4 && Base64StrToBinaryArray(Text(w.payload)) == [value % 256]
    ensures w.settlement != Pending
    ensures w.settlement.Resolved? <==> outcome.Ok?
    ensures w.settlement.Resolved? ==> w.settlement.value == characteristic
    ensures w.settlement.Rejected? ==> w.settlement.reason == Error(WRITE_FAILED)
  {
    var payload := WritePayload(value);
    match outcome
    case Ok(_) => Write(payload, Resolved(characteristic))
    case Err(_) => Write(payload, Rejected(Error(WRITE_FAILED)))
  }

  /**
   * readCharacteristics: the read value is logged as hex and resolved as
   * bytes. A null value makes that logging throw inside the try, so it ends
   * like a transport failure: rejected with "Read failed".
   */
  function ReadCharacteristics(outcome: Outcome<Option<string>>): (r: Settlement<seq<Byte>>)
    ensures r != Pending
    ensures r.Resolved? <==> outcome.Ok? && outcome.value.Some?
    ensures r.Resolved? ==> r.value == Base64StrToBinaryArray(Text(outcome.value.value))
    ensures r.Rejected? ==> r.reason == Error(READ_FAILED)
  {
    match outcome
    case Ok(value) =>
      if value.None? then Rejected(Error(READ_FAILED))
      else Resolved(Base64StrToBinaryArray(Text(value.value)))
    case Err(_) => Rejected(Error(READ_FAILED))
  }

  /** A byte written by writeCharacteristics is read back by readCharacteristics as that byte (modulo 256). */
  lemma WriteThenRead(characteristic: Characteristic, value: int, outcome: Outcome<()>)
    ensures var sent := WriteCharacteristics(characteristic, value, outcome).payload;
      ReadCharacteristics(Ok(Some(sent))) == Resolved([value % 256])
      && (0 <= value < 256 ==> ReadCharacteristics(Ok(Some(sent))) == Resolved([value]))
  {
  }

  /** Unlike the newer revision, a disconnection during a read or a write is not swallowed. */
  lemma DisconnectIsAFailure(message: string, characteristic: Characteristic, value: int)
    requires BleService.IsDisconnect(message)
    ensures ReadCharacteristics(Err(message)) == Rejected(Error(READ_FAILED))
    ensures WriteCharacteristics(characteristic, value, Err(message)).settlement == Rejected(Error(WRITE_FAILED))
    ensures BleService.ReadCharacteristics(Err(message)) == Resolved(None)
    ensures BleService.WriteCharacteristics(Err(message)) == Resolved(None)
  {
  }
}
