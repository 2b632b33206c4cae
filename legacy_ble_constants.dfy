/**
 * ble-constants.js (the older revision): the product name, the two services
 * the older app knows and the positions of its characteristics in their lists.
 */
module LegacyBleConstants {
  import opened BlePlx

  const DEVICE_NAME := "SunFibre"
  const SERVICE_LED_CONTROL: Uuid := "0000aaaa-1212-efde-1523-785fef13d123"
  const SERVICE_MAINTENANCE: Uuid := "0000aaaa-1413-f0df-1624-7960f014d224"
  const DEVICE_SERVICES: seq<Uuid> := [SERVICE_LED_CONTROL, SERVICE_MAINTENANCE]

  // LED-control service
  const CHARACTERISTIC_DEBUG_LED_IDX: nat := 0
  const CHARACTERISTIC_DIM_LED_IDX: nat := 1
  // Maintenance service
  const CHARACTERISTIC_BATTERY_LEVEL_IDX: nat := 0
  const CHARACTERISTIC_BATTERY_CHARGING_IDX: nat := 1
  const CHARACTERISTIC_TEMPERATURE_IDX: nat := 2
}
