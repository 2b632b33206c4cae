/**
 * src/models/SunFibreDevice.js: the app's record of one peripheral, wrapping
 * the transport's device together with its discovered service table, its
 * connection flag and the time it was last seen by the scanner.
 */
module Device {
  import opened Wrappers
  import opened BlePlx
  import opened Codec
  import opened BleConstants
  import BleService

  const NO_CHARACTERISTIC := "Device does not possesses requested characteristic!"

  /** Which fixed-width reader a read method applies to the bytes it got. */
  datatype Reader = UInt8Reader | Int32Reader

  function Decode(reader: Reader, value: Payload): Result<int, Failure>
  {
    match reader
    case UInt8Reader => Base64StrToUInt8(value)
    case Int32Reader => Base64StrToInt32(value)
  }

  /**
   * `readCharacteristics(...).then(value => reader(value))`: the bytes are
   * decoded; a read that resolved `undefined` (the device went away) makes
   * `Buffer.from(undefined)` throw, so the chained promise rejects with a
   * TypeError; a decoder's RangeError rejects it too.
   */
  function ThenDecode(read: Settlement<Option<seq<Byte>>>, reader: Reader): (r: Settlement<int>)
    ensures read.Pending? <==> r.Pending?
    ensures read.Rejected? ==> r == Rejected(read.reason)
    ensures read == Resolved(None) ==> r == Rejected(TypeError)
    ensures r.Resolved? <==> read.Resolved? && read.value.Some? && Decode(reader, Raw(read.value.value)).Success?
    ensures r.Resolved? && reader.UInt8Reader? ==> 0 <= r.value < 256
    ensures r.Resolved? && reader.Int32Reader? ==> -0x8000_0000 <= r.value < 0x8000_0000
  {
    match read
    case Pending => Pending
    case Rejected(reason) => Rejected(reason)
    case Resolved(None) => Rejected(TypeError)
    case Resolved(Some(bytes)) =>
      match Decode(reader, Raw(bytes))
      case Success(v) => Resolved(v)
      case Failure(e) => Rejected(e)
  }

  /** A byte the peripheral holds is what the dim-LED read yields, whatever follows it. */
  lemma ReadUInt8Pipeline(x: Byte, rest: seq<Byte>)
    ensures ThenDecode(BleService.ReadCharacteristics(Ok(Some(Base64Encode([x] + rest)))), UInt8Reader) == Resolved(x)
  {
    BleService.ReadCharacteristicsOfEncoded([x] + rest);
    Base64StrToUInt8OfEncoded(x, rest);
  }

  /** A 32-bit value stored little-endian by the peripheral is what the temperature read yields. */
  lemma ReadInt32Pipeline(x: int, rest: seq<Byte>)
    requires -0x8000_0000 <= x < 0x8000_0000
    ensures ThenDecode(BleService.ReadCharacteristics(Ok(Some(Base64Encode(EncodeLE(x, 4) + rest)))), Int32Reader) == Resolved(x)
  {
    BleService.ReadCharacteristicsOfEncoded(EncodeLE(x, 4) + rest);
    Base64StrToInt32OfEncoded(x, rest);
  }

  /** A disconnection in the middle of a read is swallowed by the transport layer, but not by the device's reads. */
  lemma DisconnectDuringRead(message: string, reader: Reader)
    requires BleService.IsDisconnect(message)
    ensures ThenDecode(BleService.ReadCharacteristics(Err(message)), reader) == Rejected(TypeError)
  {
  }

  /** The lookup a read or write method guards on, turned into the synchronous throw it makes. */
  function GuardFailure(lookup: Lookup): (f: Failure)
    requires !lookup.Found?
    ensures lookup.Absent? ==> f == Error(NO_CHARACTERISTIC)
    ensures lookup.LookupThrew? ==> f == lookup.failure
  {
    if lookup.Absent? then Error(NO_CHARACTERISTIC) else lookup.failure
  }

  class SunFibreDevice {
    var device: BleDevice
    var servicesCharacteristics: Option<ServiceTable>
    var connected: bool
    var lastSeenTimestamp: int

    /** `now` is the `Date.now()` the constructor stamps the record with. */
    constructor(device: BleDevice, servicesCharacteristics: Option<ServiceTable>, now: int, connected: bool := false)
      ensures this.device == device
      ensures this.servicesCharacteristics == servicesCharacteristics
      ensures this.connected == connected
      ensures lastSeenTimestamp == now
    {
      this.device := device;
      this.servicesCharacteristics := servicesCharacteristics;
      this.connected := connected;
      lastSeenTimestamp := now;
    }

    function GetBLEDevice(): BleDevice
      reads this
    {
      device
    }

    function GetRSSI(): int
      reads this
    {
      device.rssi
    }

    function GetName(): Option<string>
      reads this
    {
      device.name
    }

    /** The MAC address a record is keyed by is the transport device's id. */
    function GetMAC(): string
      reads this
    {
      device.id
    }

    function GetLastSeenTimestamp(): int
      reads this
    {
      lastSeenTimestamp
    }

    method SetLastSeenTimestamp(timestamp: int)
      modifies this
      ensures lastSeenTimestamp == timestamp
      ensures device == old(device) && servicesCharacteristics == old(servicesCharacteristics)
      ensures connected == old(connected)
    {
      lastSeenTimestamp := timestamp;
    }

    function IsConnected(): bool
      reads this
    {
      connected
    }

    method SetConnected(connected: bool)
      modifies this
      ensures this.connected == connected
      ensures device == old(device) && servicesCharacteristics == old(servicesCharacteristics)
      ensures lastSeenTimestamp == old(lastSeenTimestamp)
    {
      this.connected := connected;
    }

    function GetServicesCharacteristics(): Option<ServiceTable>
      reads this
    {
      servicesCharacteristics
    }

    method SetServicesCharacteristics(servicesCharacteristics: Option<ServiceTable>)
      modifies this
      ensures this.servicesCharacteristics == servicesCharacteristics
      ensures device == old(device) && connected == old(connected)
      ensures lastSeenTimestamp == old(lastSeenTimestamp)
    {
      this.servicesCharacteristics := servicesCharacteristics;
    }

    /** Entry 0 of the LED-control list; nothing while there is no table. */
    function GetDimLEDCharacteristic(): (r: Lookup)
      reads this
      ensures servicesCharacteristics.None? ==> r == Absent
      ensures r.Found? <==> servicesCharacteristics.Some? && SERVICE_LED_CONTROL in servicesCharacteristics.value
                            && |servicesCharacteristics.value[SERVICE_LED_CONTROL]| > 0
      ensures r.Found? ==> r.characteristic == servicesCharacteristics.value[SERVICE_LED_CONTROL][0]
      ensures r.LookupThrew? <==> servicesCharacteristics.Some? && SERVICE_LED_CONTROL !in servicesCharacteristics.value
    {
      if servicesCharacteristics.None? then Absent
      else Index(servicesCharacteristics.value, Some(SERVICE_LED_CONTROL), CHARACTERISTIC_DIM_LED_IDX)
    }

    /**
     * The three monitor-service getters index the table by SERVICE_MAINTENANCE,
     * a name the constants no longer define: the key looked up is "undefined".
     */
    function MaintenanceCharacteristic(index: nat): (r: Lookup)
      reads this
      ensures servicesCharacteristics.None? ==> r == Absent
      ensures r.LookupThrew? <==> servicesCharacteristics.Some? && "undefined" !in servicesCharacteristics.value
      ensures r.Found? <==> servicesCharacteristics.Some? && "undefined" in servicesCharacteristics.value
                            && index < |servicesCharacteristics.value["undefined"]|
      ensures r.Found? ==> r.characteristic == servicesCharacteristics.value["undefined"][index]
    {
      if servicesCharacteristics.None? then Absent
      else Index(servicesCharacteristics.value, SERVICE_MAINTENANCE, index)
    }

    function GetBatteryLevelCharacteristic(): Lookup
      reads this
    {
      MaintenanceCharacteristic(CHARACTERISTIC_BATTERY_LEVEL_IDX)
    }

    function GetBatteryChargeCharacteristic(): Lookup
      reads this
    {
      MaintenanceCharacteristic(CHARACTERISTIC_BATTERY_CHARGING_IDX)
    }

    function GetTemperatureCharacteristic(): Lookup
      reads this
    {
      MaintenanceCharacteristic(CHARACTERISTIC_TEMPERATURE_IDX)
    }

    /**
     * writeDimLEDCharacteristics: throws before any transport call when the
     * characteristic is missing; otherwise `written` is the characteristic and
     * the value handed to the transport, and `transport` is its answer.
     */
    method WriteDimLEDCharacteristics(value: int, transport: Outcome<Characteristic>)
      returns (r: Call<Option<Characteristic>>, written: Option<(Characteristic, int)>)
      ensures written.Some? <==> GetDimLEDCharacteristic().Found?
      ensures written.Some? ==> written.value == (GetDimLEDCharacteristic().characteristic, value)
      ensures written.Some? ==> r == Returned(BleService.WriteCharacteristics(transport))
      ensures written.None? ==> r == Threw(GuardFailure(GetDimLEDCharacteristic()))
    {
      var ch := GetDimLEDCharacteristic();
      if !ch.Found? {
        return Threw(GuardFailure(ch)), None;
      }
      r := Returned(BleService.WriteCharacteristics(transport));
      written := Some((ch.characteristic, value));
    }

    /** The shared shape of the read methods: guard the lookup, read, decode. */
    method ReadThrough(lookup: Lookup, reader: Reader, transport: Outcome<Option<string>>)
      returns (r: Call<int>, readFrom: Option<Characteristic>)
      ensures readFrom.Some? <==> lookup.Found?
      ensures readFrom.Some? ==> readFrom.value == lookup.characteristic
      ensures readFrom.Some? ==> r == Returned(ThenDecode(BleService.ReadCharacteristics(transport), reader))
      ensures readFrom.None? ==> r == Threw(GuardFailure(lookup))
    {
      if !lookup.Found? {
        return Threw(GuardFailure(lookup)), None;
      }
      r := Returned(ThenDecode(BleService.ReadCharacteristics(transport), reader));
      readFrom := Some(lookup.characteristic);
    }

    method ReadDimLEDCharacteristics(transport: Outcome<Option<string>>) returns (r: Call<int>, readFrom: Option<Characteristic>)
      ensures readFrom.Some? <==> GetDimLEDCharacteristic().Found?
      ensures readFrom.Some? ==> readFrom.value == GetDimLEDCharacteristic().characteristic
      ensures readFrom.Some? ==> r == Returned(ThenDecode(BleService.ReadCharacteristics(transport), UInt8Reader))
      ensures readFrom.None? ==> r == Threw(GuardFailure(GetDimLEDCharacteristic()))
    {
      r, readFrom := ReadThrough(GetDimLEDCharacteristic(), UInt8Reader, transport);
    }

    method ReadBatteryLevelCharacteristics(transport: Outcome<Option<string>>) returns (r: Call<int>, readFrom: Option<Characteristic>)
      ensures readFrom.Some? <==> GetBatteryLevelCharacteristic().Found?
      ensures readFrom.Some? ==> readFrom.value == GetBatteryLevelCharacteristic().characteristic
      ensures readFrom.Some? ==> r == Returned(ThenDecode(BleService.ReadCharacteristics(transport), UInt8Reader))
      ensures readFrom.None? ==> r == Threw(GuardFailure(GetBatteryLevelCharacteristic()))
    {
      r, readFrom := ReadThrough(GetBatteryLevelCharacteristic(), UInt8Reader, transport);
    }

    method ReadBatteryChargeCharacteristics(transport: Outcome<Option<string>>) returns (r: Call<int>, readFrom: Option<Characteristic>)
      ensures readFrom.Some? <==> GetBatteryChargeCharacteristic().Found?
      ensures readFrom.Some? ==> readFrom.value == GetBatteryChargeCharacteristic().characteristic
      ensures readFrom.Some? ==> r == Returned(ThenDecode(BleService.ReadCharacteristics(transport), UInt8Reader))
      ensures readFrom.None? ==> r == Threw(GuardFailure(GetBatteryChargeCharacteristic()))
    {
      r, readFrom := ReadThrough(GetBatteryChargeCharacteristic(), UInt8Reader, transport);
    }

    method ReadTempratureCharacteristics(transport: Outcome<Option<string>>) returns (r: Call<int>, readFrom: Option<Characteristic>)
      ensures readFrom.Some? <==> GetTemperatureCharacteristic().Found?
      ensures readFrom.Some? ==> readFrom.value == GetTemperatureCharacteristic().characteristic
      ensures readFrom.Some? ==> r == Returned(ThenDecode(BleService.ReadCharacteristics(transport), Int32Reader))
      ensures readFrom.None? ==> r == Threw(GuardFailure(GetTemperatureCharacteristic()))
    {
      r, readFrom := ReadThrough(GetTemperatureCharacteristic(), Int32Reader, transport);
    }
  }

  /**
   * No table that service discovery can produce has the key "undefined", so on
   * a connected device the battery, charge and temperature getters throw a
   * TypeError rather than returning nothing.
   */
  lemma MaintenanceLookupThrowsOnDiscoveredTable(d: SunFibreDevice, services: seq<Service>, index: nat)
    requires d.servicesCharacteristics == Some(BleService.TableOf(BleService.KnownServices(services, DEVICE_SERVICES)))
    ensures d.MaintenanceCharacteristic(index) == LookupThrew(TypeError)
  {
    var known := BleService.KnownServices(services, DEVICE_SERVICES);
    BleService.TableOfKeys(known);
    assert "undefined" !in DEVICE_SERVICES;
  }
}
