/**
 * The battery colours of the app's theme, by name: `battery0` to `battery5`
 * and `batteryUnknown`. Their RGB values are presentation and not modelled.
 */
module Theme {
  datatype Colour = Battery(level: nat) | BatteryUnknown
}
