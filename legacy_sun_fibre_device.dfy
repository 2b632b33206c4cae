/**
 * models/sun-fibre-device.js (the older revision): the same mutable record as
 * the newer one, but its two characteristic getters index the table without
 * a null guard, and the dim LED sits at position 1 of the LED-control list.
 */
module LegacyDevice {
  import opened Wrappers
  import opened BlePlx
  import opened LegacyBleConstants
  import BleService

  /**
   * `table[service][index]` on a table that may be null: indexing null throws
   * a TypeError before the service is even looked up.
   */
  function Unguarded(table: Option<ServiceTable>, service: Uuid, index: nat): (r: Lookup)
    ensures r.LookupThrew? <==> table.None? || service !in table.value
    ensures r.LookupThrew? ==> r.failure == TypeError
    ensures r.Found? <==> table.Some? && service in table.value && index < |table.value[service]|
    ensures r.Found? ==> r.characteristic == table.value[service][index]
  {
    if table.None? then LookupThrew(TypeError) else Index(table.value, Some(service), index)
  }

  class SunFibreDevice {
    var device: BleDevice
    var servicesCharacteristics: Option<ServiceTable>
    var connected: bool
    var lastSeenTimestamp: int

    /** `now` is the `Date.now()` the constructor stamps the record with. */
    constructor(device: BleDevice, servicesCharacteristics: Option<ServiceTable>, now: int, connected: bool := false)
      ensures this.device == device
      ensures this.servicesCharacteristics == servicesCharacteristics
      ensures this.connected == connected
      ensures lastSeenTimestamp == now
    {
      this.device := device;
      this.servicesCharacteristics := servicesCharacteristics;
      this.connected := connected;
      lastSeenTimestamp := now;
    }

    function GetDevice(): BleDevice
      reads this
    {
      device
    }

    function GetLastSeenTimestamp(): int
      reads this
    {
      lastSeenTimestamp
    }

    method SetLastSeenTimestamp(timestamp: int)
      modifies this
      ensures lastSeenTimestamp == timestamp
      ensures device == old(device) && servicesCharacteristics == old(servicesCharacteristics)
      ensures connected == old(connected)
    {
      lastSeenTimestamp := timestamp;
    }

    function IsConnected(): bool
      reads this
    {
      connected
    }

    method SetConnected(connected: bool)
      modifies this
      ensures this.connected == connected
      ensures device == old(device) && servicesCharacteristics == old(servicesCharacteristics)
      ensures lastSeenTimestamp == old(lastSeenTimestamp)
    {
      this.connected := connected;
    }

    function GetServicesCharacteristics(): Option<ServiceTable>
      reads this
    {
      servicesCharacteristics
    }

    method SetServicesCharacteristics(servicesCharacteristics: Option<ServiceTable>)
      modifies this
      ensures this.servicesCharacteristics == servicesCharacteristics
      ensures device == old(device) && connected == old(connected)
      ensures lastSeenTimestamp == old(lastSeenTimestamp)
    {
      this.servicesCharacteristics := servicesCharacteristics;
    }

    /** Entry 1 of the LED-control list; a null table makes the getter throw. */
    function GetDimLEDCharacteristic(): (r: Lookup)
      reads this
      ensures servicesCharacteristics.None? ==> r == LookupThrew(TypeError)
      ensures r.Found? <==> servicesCharacteristics.Some? && SERVICE_LED_CONTROL in servicesCharacteristics.value
                            && |servicesCharacteristics.value[SERVICE_LED_CONTROL]| > 1
      ensures r.Found? ==> r.characteristic == servicesCharacteristics.value[SERVICE_LED_CONTROL][1]
    {
      Unguarded(servicesCharacteristics, SERVICE_LED_CONTROL, CHARACTERISTIC_DIM_LED_IDX)
    }

    /** Entry 0 of the maintenance list; a null table makes the getter throw. */
    function GetBatteryLevelCharacteristic(): (r: Lookup)
      reads this
      ensures servicesCharacteristics.None? ==> r == LookupThrew(TypeError)
      ensures r.Found? <==> servicesCharacteristics.Some? && SERVICE_MAINTENANCE in servicesCharacteristics.value
                            && |servicesCharacteristics.value[SERVICE_MAINTENANCE]| > 0
      ensures r.Found? ==> r.characteristic == servicesCharacteristics.value[SERVICE_MAINTENANCE][0]
    {
      Unguarded(servicesCharacteristics, SERVICE_MAINTENANCE, CHARACTERISTIC_BATTERY_LEVEL_IDX)
    }
  }

  /**
   * On a table built by the older discovery, both getters find their service
   * exactly when a service with that uuid was discovered; otherwise they throw.
   */
  lemma GettersOnDiscoveredTable(d: SunFibreDevice, services: seq<Service>)
    requires d.servicesCharacteristics ==
      Some(BleService.TableOf(BleService.KnownServices(services, DEVICE_SERVICES)))
    ensures d.GetDimLEDCharacteristic().LookupThrew? <==> forall s :: s in services ==> s.uuid != SERVICE_LED_CONTROL
    ensures d.GetBatteryLevelCharacteristic().LookupThrew? <==> forall s :: s in services ==> s.uuid != SERVICE_MAINTENANCE
  {
    var known := BleService.KnownServices(services, DEVICE_SERVICES);
    BleService.TableOfKeys(known);
  }
}
