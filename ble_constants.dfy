/** The constants of src/constants/BLEConstants.js that the core uses. */
module BleConstants {
  import opened Wrappers
  import opened BlePlx

  /** Advertised-name prefixes of the devices the app handles. */
  const DEVICE_NAMES: seq<string> := ["SunFibre", "BlueIoToy"]

  const SERVICE_LED_CONTROL: Uuid := "0000aaaa-1212-efde-1523-785fef13d123"
  const SERVICE_MONITOR: Uuid := "0000aaaa-1413-f0df-1624-7960f014d224"
  const SERVICE_RFID: Uuid := "0000aaaa-1514-f1e0-1725-7a61f115d325"
  /**
   * The Device Information Service, 16-bit uuid 0x180A, expanded with the
   * Bluetooth Base UUID (Bluetooth Core Specification, Vol 3, Part B, section 2.5.1).
   */
  const SERVICE_DIS: Uuid := "0000180a-0000-1000-8000-00805f9b34fb"

  /** The services kept after discovery. */
  const DEVICE_SERVICES: seq<Uuid> := [SERVICE_LED_CONTROL, SERVICE_MONITOR, SERVICE_RFID, SERVICE_DIS]

  /**
   * The device model reads `BLE_C.SERVICE_MAINTENANCE`, which this file does
   * not export (the monitor service is exported as SERVICE_MONITOR), so the
   * name evaluates to `undefined`.
   */
  const SERVICE_MAINTENANCE: Option<Uuid> := None

  const DEVICE_CONNECT_TIMEOUT: nat := 8000

  // LED control service
  const CHARACTERISTIC_DIM_LED_IDX: nat := 0
  const CHARACTERISTIC_DEBUG_LED_IDX: nat := 1
  const CHARACTERISTIC_VLED_IDX: nat := 2
  const CHARACTERISTIC_ISNS_IDX: nat := 3

  // Monitor service
  const CHARACTERISTIC_BATTERY_LEVEL_IDX: nat := 0
  const CHARACTERISTIC_BATTERY_CHARGING_IDX: nat := 1
  const CHARACTERISTIC_TEMPERATURE_IDX: nat := 2
}
