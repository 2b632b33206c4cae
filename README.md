# SunFibre BLE core, modelled in Dafny

SunFibre is a React Native app that controls SunFibre (and BlueIoToy) light
peripherals over Bluetooth Low Energy. This project models the app's device
and BLE layer:

- the registry of scanned peripherals, a reducer over device records keyed by MAC address;
- the device record with its service table, characteristic getters and guarded reads and writes;
- the payload codec: base64 text (section 4 of RFC 4648) to bytes, fixed-width little-endian reads, and hex pretty-printing;
- service-table construction and the classification of transport errors;
- the session layer: the scan filter, and the order of dispatches on connect, disconnect and clear;
- small helpers in the UI: `increaseMAC` for firmware update, the battery reducers, the dim-LED mode handling and the settings screen's teardown.

The repository holds two revisions. The files under `src/` are the newer
revision. The root-level `services/`, `models/`, `utils.js`, `ble-constants.js`
and `components/` are an older one. The two differ in characteristic indices,
in the set of known services and in error handling, so each older file has a
module of its own (`Legacy…`). Where the older code is the same code as the
newer one, it is modelled once, and the table below cites both files for that
member.

The BLE transport (react-native-ble-plx), the clock and React are not modelled:

- every transport call is replaced by its answer, an `Outcome` (`Ok(value)` or `Err(message)`);
- `Date.now()` becomes a `now` parameter;
- how a returned promise ends up is a `Settlement`: `Resolved`, `Rejected` or `Pending` (never settles);
- a synchronous throw is `Call.Threw`.

Mutable objects are Dafny classes:

- the device record `SunFibreDevice`;
- the provider state `DevicesContext`;
- the settings screen's refs and state `SettingsScreenState`;
- the subscriptions that are removed.

The reducer updates the found record in place through its setters and returns
either the same list or a filtered one. Its actions are a datatype with one
constructor per type name it handles; every other type name is carried by
`Unsupported`, whose name type excludes the four handled ones. The provider
runs each action through a method of its own (`ApplyScanned` … `ApplyUnsupported`)
that commits the reducer's result, or its thrown error, to the provider's state.

Modules and files:

| file | module | models |
|---|---|---|
| wrappers.dfy | Wrappers | Option, Result |
| ble_plx.dfy | BlePlx | transport values, thrown errors, promise settlement, `table[service][index]` |
| ble_constants.dfy | BleConstants | src/constants/BLEConstants.js |
| theme.dfy | Theme | the battery colours, by level |
| codec.dfy | Codec | src/services/UtilsService.js and utils.js |
| ble_service.dfy | BleService | src/services/BLEService.js |
| sun_fibre_device.dfy | Device | src/models/SunFibreDevice.js |
| devices_reducer.dfy | DevicesReducer | src/redux/devicesReducer.js |
| devices_context_provider.dfy | DevicesContextProvider | src/redux/DevicesContextProvider.js |
| dfu_modal.dfy | DfuModal | `increaseMAC` and `loadFW` of src/components/DFUModal.js |
| settings_screen.dfy | SettingsScreen | src/screens/SettingsScreen.js |
| battery_indicator.dfy | BatteryIndicator | components/BatteryIndicator.js |
| legacy_ble_constants.dfy | LegacyBleConstants | ble-constants.js |
| legacy_sun_fibre_device.dfy | LegacyDevice | models/sun-fibre-device.js |
| legacy_ble_service.dfy | LegacyBleService | services/BLEService.js |

Behaviours of the code that the model states as written:

- The newer battery, charge and temperature getters index the table with `SERVICE_MAINTENANCE`. src/constants/BLEConstants.js does not export that name; it exports `SERVICE_MONITOR`. The key looked up is therefore "undefined", and on any table that service discovery builds, these getters throw a TypeError. They do not return nothing (`Device.MaintenanceLookupThrowsOnDiscoveredTable`).
- A disconnection during a read is swallowed by the transport layer: the promise resolves with undefined. The device's read methods then decode that undefined, and `Buffer.from(undefined)` throws, so the device read rejects with a TypeError (`Device.DisconnectDuringRead`).
- `increaseMAC` reads the last segment as a decimal number: "09" becomes "10", and "FF" becomes "NaN". The index on the left of the assignment is taken before `pop` shortens the array, so the segment count is kept.
- The older `BatteryIndicator` dispatches level 5 after every successful read, whatever value was read.
- The newer `writeDimLEDCharacteristics` (src/models/SunFibreDevice.js:91) hands the raw number to `writeCharacteristics`, which passes it to `writeWithResponse` as its `value_base64` argument (src/services/BLEService.js:60-61) without encoding it. The older revision encodes it first with `binaryArrayToBase64Str([value])` (services/BLEService.js:91). `Device.SunFibreDevice.WriteDimLEDCharacteristics` hands over the raw value; `LegacyBleService.WriteCharacteristics` sends the encoded payload.

## Model

| member | source | states |
|---|---|---|
| Codec.CharSextetOfSextetChar | src/services/UtilsService.js:21-23 | every base64 digit of the standard alphabet decodes back to its six-bit value, and no digit is the pad character |
| Codec.BinaryArrayToBase64Str | src/services/UtilsService.js:37-40 | the text of n values has 4·⌈n/3⌉ characters |
| Codec.Base64EncodeLength | src/services/UtilsService.js:37-40 | encoding n bytes gives 4·⌈n/3⌉ characters |
| Codec.Base64EncodePadding | src/services/UtilsService.js:37-40 | the padding is (3 − n mod 3) mod 3 '=' characters, only at the end, and no '=' before it |
| Codec.FromToSextets | src/services/UtilsService.js:21-23 | regrouping the sextets of any byte sequence gives back the bytes |
| Codec.Base64RoundTrip | src/services/UtilsService.js:21-23 | decoding the base64 encoding of any bytes gives back the bytes |
| Codec.BinaryArrayRoundTrip | src/services/UtilsService.js:21-40 | binaryArrayToBase64Str followed by base64StrToBinaryArray returns any array of values 0..255 |
| Codec.ReadUInt8 | src/services/UtilsService.js:25-27 | readUInt8 succeeds iff there is at least one byte; the value is 0..255 and is the first byte; otherwise a RangeError |
| Codec.ReadInt16LE | src/services/UtilsService.js:29-31 | readInt16LE succeeds iff there are at least two bytes; the value is in −32768..32767, and its two's-complement little-endian encoding is the first two bytes |
| Codec.ReadInt32LE | src/services/UtilsService.js:33-35 | readInt32LE succeeds iff there are at least four bytes; the value is in −2^31..2^31−1, and its two's-complement little-endian encoding is the first four bytes |
| Codec.ReadInt16LEOfEncoded | src/services/UtilsService.js:29-31 | any int16 written little-endian is read back, whatever bytes follow |
| Codec.ReadInt32LEOfEncoded | src/services/UtilsService.js:33-35 | any int32 written little-endian is read back, whatever bytes follow |
| Codec.ReadInt32LEExamples | src/services/UtilsService.js:33-35 | E8 03 00 00 reads as 1000 and FF FF FF FF reads as −1 |
| Codec.Base64StrToUInt8 | src/services/UtilsService.js:25-27 | base64StrToUInt8 succeeds iff the payload decodes to at least one byte, with a value in 0..255 |
| Codec.Base64StrToInt16 | src/services/UtilsService.js:29-31 | base64StrToInt16 succeeds iff the payload decodes to at least two bytes, with a value in −32768..32767 |
| Codec.Base64StrToInt32 | src/services/UtilsService.js:33-35 | base64StrToInt32 succeeds iff the payload decodes to at least four bytes, with a value in −2^31..2^31−1 |
| Codec.Base64StrToUInt8OfEncoded | src/services/UtilsService.js:25-27 | the first encoded byte is what base64StrToUInt8 yields; trailing bytes are ignored |
| Codec.Base64StrToInt16OfEncoded | src/services/UtilsService.js:29-31 | an int16 encoded little-endian and then as base64 is decoded back by base64StrToInt16 |
| Codec.Base64StrToInt32OfEncoded | src/services/UtilsService.js:33-35 | an int32 encoded little-endian and then as base64 is decoded back by base64StrToInt32 |
| Codec.PrettyHexAt | src/services/UtilsService.js:10-19 | byte k's five characters sit at 5k; they are "0x", its two lower-case hex digits and a space, and the two digits read back as the byte |
| Codec.PrettyHexLength | src/services/UtilsService.js:10-19 | the pretty hex text of n bytes has 5·n characters |
| Codec.Base64StrToHexStr | src/services/UtilsService.js:10-19 | the loop over the hex string produces "0xhh " for every decoded byte in order: 5 characters per byte |
| Codec.PrettyPrintServiceCharacteristics | src/services/UtilsService.js:47-52 | the result has the same service keys, and each list is replaced by its characteristics' uuids, same length and order |
| BlePlx.Index | src/models/SunFibreDevice.js:61 | `table[service][index]` throws iff the service key is missing (an undefined service reads the key "undefined"); it finds a characteristic iff the index is inside the list, and that characteristic is entry `index` |
| BleService.Connect | src/services/BLEService.js:8-19 | connect resolves with the connected device iff the transport succeeded; a timeout and every other failure reject with a new Error wrapping the transport's error; it never stays pending |
| BleService.Disconnect | src/services/BLEService.js:21-29 | disconnect resolves iff cancelConnection succeeded; otherwise it rejects with "Disconnect Failed" |
| BleService.KnownServices | src/services/BLEService.js:39-41 | a service is kept iff it was discovered and its uuid is in DEVICE_SERVICES |
| BleService.KnownServicesAppend | src/services/BLEService.js:39-41 | the filter distributes over concatenation, so it keeps the discovery order and every repeat |
| BleService.KnownServicesDistinct | src/services/BLEService.js:39-41 | discovered services with distinct uuids stay distinct after the filter |
| BleService.KnownTableOf | src/services/BLEService.js:39-52 | with distinct discovered uuids, every discovered service of a known uuid maps in the built table to all of its characteristics, in discovery order |
| BleService.TableOfKeys | src/services/BLEService.js:45-52 | the table's keys are exactly the uuids of the services looped over |
| BleService.TableOfDistinct | src/services/BLEService.js:45-52 | with distinct uuids, each service's key maps to all of its characteristics in discovery order |
| BleService.BuildServiceTable | src/services/BLEService.js:45-52 | the nested loop that pushes each characteristic builds exactly the specified table: each uuid maps to its service's characteristic list, and a later duplicate uuid wins |
| BleService.GetServicesAndCharacteristics | src/services/BLEService.js:31-58 | it never rejects; a discovery failure leaves the promise pending; success resolves with the table of the known discovered services, whose keys are exactly the discovered uuids in DEVICE_SERVICES; with distinct discovered uuids each such key maps to all of its service's characteristics, in discovery order |
| BleService.WriteCharacteristics | src/services/BLEService.js:60-72 | it rejects with "(BLE): WriteCharacteristics failed" iff the failure is not a disconnection; a disconnection resolves undefined; success resolves with the transport's answer |
| BleService.ReadCharacteristics | src/services/BLEService.js:74-87 | a disconnection resolves undefined; any other failure rejects with "(BLE): readCharacteristics failed"; a value is decoded to its bytes; the outcome is a null value exactly when the read rejects with a TypeError |
| BleService.ReadCharacteristicsOfEncoded | src/services/BLEService.js:74-76 | bytes the peripheral holds as base64 are resolved unchanged by a read |
| BleService.MonitorCallback | src/services/BLEService.js:89-104 | no error and a value: the change handler gets the value; no error and a null value: logging throws; "Operation was cancelled" or "…was disconnected": nothing happens; any other error: the error handler iff one was given, otherwise only a log |
| BleService.DisconnectionCallback | src/services/BLEService.js:106-118 | the handler is called with the monitored device iff no error was reported |
| Device.ThenDecode | src/models/SunFibreDevice.js:104-106 | decoding after a read: a rejection passes through; a read that resolved undefined becomes a TypeError; it resolves iff the bytes are long enough for the reader, with a value in the reader's range |
| Device.ReadUInt8Pipeline | src/models/SunFibreDevice.js:104-106 | a dim-LED read yields the first byte the peripheral holds, whatever follows it |
| Device.ReadInt32Pipeline | src/models/SunFibreDevice.js:139-141 | a temperature read yields the int32 the peripheral stores little-endian |
| Device.DisconnectDuringRead | src/models/SunFibreDevice.js:104-106 | a disconnection during a read rejects the device's read with a TypeError |
| Device.GuardFailure | src/models/SunFibreDevice.js:89-90 | a null or undefined lookup throws "Device does not possesses requested characteristic!"; a lookup that itself threw passes its error on |
| Device.SunFibreDevice.constructor | src/models/SunFibreDevice.js:10-15 | it stores the device and the table; connected defaults to false; the timestamp is the current time |
| Device.SunFibreDevice.SetLastSeenTimestamp | src/models/SunFibreDevice.js:37-39 | only the timestamp changes |
| Device.SunFibreDevice.SetConnected | src/models/SunFibreDevice.js:46-48 | only the connected flag changes |
| Device.SunFibreDevice.SetServicesCharacteristics | src/models/SunFibreDevice.js:55-57 | only the service table changes |
| Device.SunFibreDevice.GetDimLEDCharacteristic | src/models/SunFibreDevice.js:59-62 | with no table, the result is null; otherwise it is entry 0 of the LED-control list, when that list has one; a table without the LED-control service throws |
| Device.SunFibreDevice.MaintenanceCharacteristic | src/models/SunFibreDevice.js:64-77 | with no table, the result is null; otherwise the key looked up is "undefined": the getter throws iff the table lacks that key |
| Device.MaintenanceLookupThrowsOnDiscoveredTable | src/models/SunFibreDevice.js:64-77 | on any table that discovery builds, the battery, charge and temperature getters throw a TypeError |
| Device.SunFibreDevice.WriteDimLEDCharacteristics | src/models/SunFibreDevice.js:87-92 | it throws synchronously, before any transport call, iff the lookup finds nothing; otherwise it writes the value to the found characteristic and returns the write's promise |
| Device.SunFibreDevice.ReadThrough | src/models/SunFibreDevice.js:101-106 | the guard-read-decode shape of the read methods: it throws iff the lookup finds nothing; otherwise it reads the found characteristic and decodes the result |
| Device.SunFibreDevice.ReadDimLEDCharacteristics | src/models/SunFibreDevice.js:99-107 | the guard on the dim-LED lookup, then a read of the dim-LED characteristic that lookup returns, decoded as uint8 |
| Device.SunFibreDevice.ReadBatteryLevelCharacteristics | src/models/SunFibreDevice.js:114-122 | the guard on the battery-level lookup, then a read of the battery-level characteristic that lookup returns, decoded as uint8 |
| Device.SunFibreDevice.ReadBatteryChargeCharacteristics | src/models/SunFibreDevice.js:124-132 | the guard on the battery-charge lookup, then a read of the battery-charge characteristic that lookup returns, decoded as uint8 |
| Device.SunFibreDevice.ReadTempratureCharacteristics | src/models/SunFibreDevice.js:134-142 | the guard on the temperature lookup, then a read of the temperature characteristic that lookup returns, decoded as little-endian int32 |
| DevicesReducer.Find | src/redux/devicesReducer.js:12 | `find` by MAC: there is no result iff no record has the MAC; otherwise the result is the first record with it |
| DevicesReducer.WithoutMac | src/redux/devicesReducer.js:51 | the filter keeps exactly the records with another MAC, in their order |
| DevicesReducer.ConnectedOnly | src/redux/devicesReducer.js:56 | the filter keeps exactly the connected records, in their order |
| DevicesReducer.WithoutMacRemovesOne | src/redux/devicesReducer.js:47-51 | with unique MACs, removing a known MAC removes exactly that record and keeps the others in order |
| DevicesReducer.WithoutMacOfAbsent | src/redux/devicesReducer.js:51 | removing a MAC that no record has changes nothing |
| DevicesReducer.SubsequenceKeepsUnique | src/redux/devicesReducer.js:51-56 | filtering a list with unique MACs keeps them unique |
| DevicesReducer.AppendKeepsUnique | src/redux/devicesReducer.js:12-17 | appending a record for an unseen MAC keeps MACs unique |
| DevicesReducer.WithoutMacOfOnly | src/redux/devicesReducer.js:51 | filtering out a MAC that only one record has removes that record and keeps every other in order |
| DevicesReducer.WithoutMacAppend | src/redux/devicesReducer.js:51 | the MAC filter distributes over concatenation |
| DevicesReducer.ReduceScanned | src/redux/devicesReducer.js:10-25 | an unseen MAC appends one fresh record for the device, disconnected, table-less and stamped now, leaving every old record untouched; a known MAC returns the same list with only that record's timestamp refreshed; unique MACs stay unique, and so does "a table iff connected" |
| DevicesReducer.ReduceConnected | src/redux/devicesReducer.js:27-36 | an unknown MAC throws 'Device is not in devices list!' and changes nothing; a known one is marked connected and given the table, the list and every other record unchanged; unique MACs and "a table iff connected" are kept |
| DevicesReducer.ReduceDisconnected | src/redux/devicesReducer.js:38-52 | an unknown MAC returns the list untouched; a known record is marked disconnected, loses its table and the result is the list without its MAC, every other record unchanged; unique MACs stay unique, and so does "a table iff connected" |
| DevicesReducer.Reduce | src/redux/devicesReducer.js:4-61 | SCANNED_DEVICE with a new MAC appends one fresh, disconnected, table-less record; with a known MAC it keeps the list and refreshes only that record's timestamp. CONNECTED_DEVICE for an unknown MAC throws 'Device is not in devices list!'; for a known one it sets connected and the table and keeps the list. DISCONNECTED_DEVICE for an unknown MAC keeps the list; for a known one it clears the record and filters it out. CLEAR keeps the connected records in order. An action of any other type throws. At most the found record changes, a throw changes nothing, and unique MACs and "a record holds a table iff it is connected" are both kept (all of this is the `Reduced` predicate its contract names) |
| DevicesContextProvider.RouteScanError | src/redux/DevicesContextProvider.js:102-107 | a scan error goes to onScanError iff one was given; otherwise it is only logged |
| DevicesContextProvider.FindPrefix | src/redux/DevicesContextProvider.js:110 | `DEVICE_NAMES.find(startsWith)` finds a name iff the device name starts with one of the names |
| DevicesContextProvider.ScanAction | src/redux/DevicesContextProvider.js:108-113 | SCANNED_DEVICE is dispatched iff the device is non-null, named, and its name starts with "SunFibre" or "BlueIoToy" |
| DevicesContextProvider.ScanActionExamples | src/redux/DevicesContextProvider.js:108-113 | "SunFibre-07" and "BlueIoToy" are accepted; "Sun" and "" are not |
| DevicesContextProvider.DevicesContext.constructor | src/redux/DevicesContextProvider.js:16-19 | the device list starts empty and no device is controlled |
| DevicesContextProvider.DevicesContext.Dispatch | src/redux/DevicesContextProvider.js:16 | each action is recorded in order; while no error is held, the list becomes exactly what `Reduced` says the reducer returns for that action, and the provider holds a failure iff the reducer throws; a throw, or an error already held, leaves the list and every record's fields as they were; MACs stay unique, every record holds a table iff it is connected, and every live subscription id stays below the next one (`Valid`) |
| DevicesContextProvider.DevicesContext.ApplyScanned | src/redux/devicesReducer.js:10-25 | a SCANNED_DEVICE dispatch: the list becomes the reducer's result as `Reduced` states it, unique MACs stay unique, the action is recorded |
| DevicesContextProvider.DevicesContext.ApplyConnected | src/redux/devicesReducer.js:27-36 | a CONNECTED_DEVICE dispatch: on success the list is the reducer's result; on a throw the list is unchanged and the error is held; the action is recorded |
| DevicesContextProvider.DevicesContext.ApplyDisconnected | src/redux/devicesReducer.js:38-52 | a DISCONNECTED_DEVICE dispatch: the list becomes the reducer's result (the record filtered out when it was known), unique MACs stay unique, the action is recorded |
| DevicesContextProvider.DevicesContext.ApplyClear | src/redux/devicesReducer.js:54-56 | a CLEAR dispatch: the list becomes its connected records, in order, and stays MAC-unique; the action is recorded |
| DevicesContextProvider.DevicesContext.ApplyUnsupported | src/redux/devicesReducer.js:58-59 | an action of unknown type: the list is unchanged and 'Unsupported devicesReducer action received.' is held as the failure; the action is recorded |
| DevicesContextProvider.DevicesContext.OnScan | src/redux/DevicesContextProvider.js:101-114 | the scan callback routes the error, then dispatches SCANNED_DEVICE exactly when the filter accepts the device; then, with no error held, the list becomes what `Reduced` states (a fresh record appended, or the known record's timestamp refreshed); an ignored scan or a held error leaves every record unchanged |
| DevicesContextProvider.DevicesContext.ConnectSunFibreDevice | src/redux/DevicesContextProvider.js:65-79 | a connect failure dispatches nothing and rejects with the error wrapped once more; a discovery failure dispatches nothing and stays pending; otherwise CONNECTED_DEVICE with the discovered table is dispatched, and only then is one disconnection listener registered; with no error held, the list stays the same, the provider fails iff the MAC is not in it, and otherwise that record is connected and holds the discovered table, keeps its device and timestamp, and every other record is unchanged; the throw holds 'Device is not in devices list!' and leaves every record unchanged, as does a failed connect or discovery or a held error |
| DevicesContextProvider.DevicesContext.OnDisconnectedSunFibreDevice | src/redux/DevicesContextProvider.js:52-63 | it registers one new disconnection listener for the record under an id no live listener holds (`Valid` keeps every live id below the next one), so the listeners grow by exactly one and earlier ones survive |
| DevicesContextProvider.DevicesContext.OnServicesDiscovered | src/redux/DevicesContextProvider.js:68-77 | CONNECTED_DEVICE with the discovered table is dispatched and then one listener registered; with no error held the list becomes what `Reduced` states (a failure iff the MAC is unknown); a held error leaves every record unchanged |
| DevicesContextProvider.DevicesContext.OnDisconnection | src/redux/DevicesContextProvider.js:53-62 | a disconnection without error dispatches DISCONNECTED_DEVICE for the listener's record once, then removes the subscription, and with no error held the list becomes what `Reduced` states for that action; an error, a removed subscription or a held error leaves every record unchanged |
| DevicesContextProvider.DevicesContext.DisconnectSunFibreDevice | src/redux/DevicesContextProvider.js:81-94 | DISCONNECTED_DEVICE is dispatched iff cancelConnection succeeded; then, with no error held, the list becomes what `Reduced` states (the record cleared and filtered out when its MAC is known); a failed cancelConnection or a held error leaves every record unchanged |
| DevicesContextProvider.DevicesContext.ClearSunFibreDevices | src/redux/DevicesContextProvider.js:126-128 | CLEAR is dispatched: with no error held, the list becomes its connected records, in order and unchanged, so every remaining record is connected and holds a table; a held error leaves every record unchanged |
| DevicesContextProvider.DevicesContext.SetSunFibreDeviceToControl | src/redux/DevicesContextProvider.js:130-132 | only the controlled device changes |
| DfuModal.Split | src/components/DFUModal.js:44 | `split(":")` gives at least one part, and no part contains ':' |
| DfuModal.JoinSplit | src/components/DFUModal.js:44-46 | joining the parts of a split gives back the text |
| DfuModal.SplitJoin | src/components/DFUModal.js:44-46 | splitting a join of separator-free parts gives back the parts |
| DfuModal.DecimalString | src/components/DFUModal.js:45 | `toString()` of a number is decimal digits without a leading zero |
| DfuModal.DecimalValueOfString | src/components/DFUModal.js:45 | reading the digits `toString()` wrote gives back the number |
| DfuModal.ToNumber | src/components/DFUModal.js:45 | unary plus gives NaN iff the segment is not all decimal digits; otherwise it gives the decimal value ("" is 0) |
| DfuModal.Increment | src/components/DFUModal.js:45 | the new segment is "NaN" iff the old one is not decimal; otherwise it is decimal with value one more; it is never empty and has no ':' |
| DfuModal.IncrementDecimalExamples | src/components/DFUModal.js:45 | "22" becomes "23" and "09" becomes "10" |
| DfuModal.IncrementZeroExamples | src/components/DFUModal.js:45 | "00" and "" both become "1" |
| DfuModal.IncrementHexExamples | src/components/DFUModal.js:45 | "FF" and "2A" become "NaN" |
| DfuModal.IncreaseMac | src/components/DFUModal.js:42-51 | the result is null iff the MAC is null; otherwise its segments are the MAC's, with the last one incremented |
| DfuModal.IncreaseMacKeepsPrefix | src/components/DFUModal.js:42-47 | the number of segments and every segment but the last are kept |
| DfuModal.LoadFw | src/components/DFUModal.js:53-59 | the DFU state is always started first; the transfer to the increased address follows iff increaseMAC gave an address |
| SettingsScreen.FlashModeOfModes | src/screens/SettingsScreen.js:244-246 | the flash indicator is on for FLASH_SLOW (3) and FLASH_FAST (4) only |
| SettingsScreen.BatteryReducer | src/screens/SettingsScreen.js:44-61 | the codes 0x00..0x04 and 0xFF each give a state (0xFF is '?'); any other code, or null, keeps the previous state |
| SettingsScreen.BatteryReducerByCode | src/screens/SettingsScreen.js:44-57 | a known code gives the same state whatever came before, and different codes give different labels |
| SettingsScreen.BatteryReducerIgnoresFailure | src/screens/SettingsScreen.js:58-59 | the −1 dispatched after a failed read, and null, keep the previous state |
| SettingsScreen.Subscription.Remove | src/screens/SettingsScreen.js:190 | `remove()` is counted once per call |
| SettingsScreen.SettingsScreenState.constructor | src/screens/SettingsScreen.js:36-66 | the screen starts unmounted, in mode UNKNOWN, with no battery state and no subscriptions |
| SettingsScreen.SettingsScreenState.OnStart | src/screens/SettingsScreen.js:209-211 | onStart marks the screen mounted |
| SettingsScreen.SettingsScreenState.SetLightMode | src/screens/SettingsScreen.js:78 | setState sets the mode iff the screen is mounted |
| SettingsScreen.SettingsScreenState.DispatchBattery | src/screens/SettingsScreen.js:66-78 | the battery reducer is applied iff the screen is mounted |
| SettingsScreen.SettingsScreenState.WriteDimLEDHandler | src/screens/SettingsScreen.js:95-109 | the new mode is shown at once; if the write rejects, the mode current at the call comes back; a missing characteristic throws out of the handler |
| SettingsScreen.SettingsScreenState.ReadDimLEDHandler | src/screens/SettingsScreen.js:111-116 | a read value becomes the mode; a rejected read sets UNKNOWN (5) |
| SettingsScreen.SettingsScreenState.MonitorDisconnection | src/screens/SettingsScreen.js:85-93 | the disconnection subscription is kept in its ref |
| SettingsScreen.SettingsScreenState.OnDestroy | src/screens/SettingsScreen.js:181-207 | it unmounts the screen, removes each held subscription exactly once, nulls every ref and releases the controlled device; a second call finds nothing to remove; the provider's list, actions, listeners, subscription counter and failure are left as they were |
| BatteryIndicator.BatteryReducer | components/BatteryIndicator.js:7-22 | level k in 1..5 gives 20·k percent with colour k and its icon; any other action keeps the previous state |
| BatteryIndicator.AfterRead | components/BatteryIndicator.js:25-31 | any successful read shows level 5 (100%), whatever value was read; a failed read changes nothing |
| BatteryIndicator.AfterTeardown | components/BatteryIndicator.js:38-41 | the teardown's `dispatchBattery(null)` keeps the state |
| BatteryIndicator.BadgeAfterReads | components/BatteryIndicator.js:24-41 | once any read has succeeded, the badge shows 100%, and teardown keeps it |
| BatteryIndicator.BadgeBeforeReads | components/BatteryIndicator.js:24-46 | the state starts null, so nothing shows until a read succeeds |
| LegacyDevice.Unguarded | models/sun-fibre-device.js:46-51 | `table[service][index]` with no null guard: it throws iff the table is null or lacks the service; otherwise it is entry `index` when there is one |
| LegacyDevice.SunFibreDevice.constructor | models/sun-fibre-device.js:8-13 | it stores the device and the table; connected defaults to false; the timestamp is the current time |
| LegacyDevice.SunFibreDevice.SetLastSeenTimestamp | models/sun-fibre-device.js:23-25 | only the timestamp changes |
| LegacyDevice.SunFibreDevice.SetConnected | models/sun-fibre-device.js:32-34 | only the connected flag changes |
| LegacyDevice.SunFibreDevice.SetServicesCharacteristics | models/sun-fibre-device.js:42-44 | only the service table changes |
| LegacyDevice.SunFibreDevice.GetDimLEDCharacteristic | models/sun-fibre-device.js:46-48 | entry 1 (not 0) of the LED-control list; a null table throws |
| LegacyDevice.SunFibreDevice.GetBatteryLevelCharacteristic | models/sun-fibre-device.js:49-51 | entry 0 of the maintenance list; a null table throws |
| LegacyDevice.GettersOnDiscoveredTable | models/sun-fibre-device.js:46-51 | on a table from the older discovery, each getter throws iff no service with its uuid was discovered |
| LegacyBleService.Connect | services/BLEService.js:29-45 | connect resolves iff the transport succeeded; a timeout and every other failure reject with "Connect failed" |
| LegacyBleService.Disconnect | services/BLEService.js:47-58 | disconnect resolves iff cancelConnection succeeded; otherwise it rejects with "Disconnect failed" |
| LegacyBleService.GetServicesAndCharacteristics | services/BLEService.js:60-86 | only LED-control and maintenance services get a key; with distinct discovered uuids each maps to all of its service's characteristics, in discovery order; a failure is only logged and the promise stays pending |
| LegacyBleService.WritePayload | services/BLEService.js:91 | the value is sent as a one-byte base64 payload: 4 characters ending "==", decoding to the value's low byte |
| LegacyBleService.WriteCharacteristics | services/BLEService.js:88-104 | the payload sent is the base64 text of the value's low byte; it resolves with the characteristic iff the write succeeded; any failure, a disconnection included, rejects with "Write failed" |
| LegacyBleService.ReadCharacteristics | services/BLEService.js:106-120 | it resolves with the decoded bytes iff the read returned a value; a failure or a null value rejects with "Read failed" |
| LegacyBleService.WriteThenRead | services/BLEService.js:88-120 | a read of the payload a write of `value` sends returns `value`'s low byte, and `value` itself when it is a byte |
| LegacyBleService.DisconnectIsAFailure | services/BLEService.js:93-117 | a disconnection rejects both the read and the write, whereas the newer revision resolves them with undefined |

The older revision's `utils.js` (lines 10-45) and the monitor and disconnection callbacks of its `services/BLEService.js` (lines 122-150) are the same code as their newer counterparts. The same members model them: `Codec.BinaryArrayToBase64Str`, `Codec.BinaryArrayRoundTrip`, `Codec.Base64StrToUInt8`, `Codec.Base64StrToUInt8OfEncoded`, `Codec.Base64StrToHexStr`, `Codec.PrettyPrintServiceCharacteristics`, `BleService.MonitorCallback` and `BleService.DisconnectionCallback`.

## Left out

- The BLE transport itself: scanning, connecting, GATT reads, writes and notifications. Every call is an input `Outcome`; the connect timeout is an outcome, not timing.
- Timers and polling intervals, console logging, React rendering, navigation and styles. The disconnect dialog and its delay are also left out.
- Asynchrony: promise handlers are applied at once, one event at a time. Races between monitor callbacks, polling and disconnection events are not modelled.
- React's state identity: returning the same array does not re-render, and a reducer runs lazily at render. The model applies each dispatch at once.
- The `buffer` package decodes 4k+1 significant base64 characters (k ≥ 2) with a quirk of its own; the model drops the lone trailing digit in every case.
- Codec.Base64StrToHexStr: the model takes a payload that is never null. A null value, which makes `Buffer.from` throw, is modelled where it matters, in BleService.MonitorCallback and BleService.ReadCharacteristics.
- DfuModal.ToNumber: models only the empty string and runs of decimal digits. Signs, whitespace, decimal points, exponents, the 0x/0o/0b prefixes and "Infinity" are all read as NaN here, though JavaScript reads them as numbers. Values above 2^53 lose precision in JavaScript and are printed in exponent form from 10^21; the model keeps exact integers.
- SettingsScreen.SettingsScreenState.WriteDimLEDHandler: the restored mode is the model's current mode. In the source it is the render-time value captured by the handler's closure; the two are the same when handlers do not interleave.
- The settings screen's monitors (`monitorDimLEDHandler`, `monitorBatteryChargeHandler`) are not modelled. They call `getServiceCharacteristic` on the device record, which the record does not define, so the call throws, the catch only logs it, and the subscriptions stay null.
- `readBatteryLevelHandler` is not modelled. It destructures the read's result as a pair, but the device's battery read resolves a single number (and, as stated above, throws on any discovered table). Only its failure value, −1, is covered (SettingsScreen.BatteryReducerIgnoresFailure).
- The RFID check (`getService`), `readBatteryChargeHandler`, `pollBatteryLevel` and the rest of `onStart` are not modelled; onStart is modelled only as marking the screen mounted.
- The RFID, VLED, ISNS and firmware-version reads, and `base64StrToUInt32`, are not modelled; the device record does not define them.
- RFIDModal and MonitorModal hook state, and AsyncStorage persistence, are not modelled.
- The DFU transfer (NordicDFU, the progress emitter, the file picker) is not modelled; only `increaseMAC` and `loadFW`'s null guard are.
- LoadFw: takes the controlled device's MAC as given. With no controlled device, `controlledDevice.getMAC()` throws a TypeError right after `startDFU()` (src/components/DFUModal.js:56), outside `increaseMAC`'s try; that path is not modelled, and `mac == None` stands only for a MAC that is not a string.
- `addAlreadyConnectedDevices` (only logs) and `stopScanningSunFibreDevices` (a transport call) are not modelled.
- services/UtilsService.js, which the older services/BLEService.js imports, is not part of this model. It is taken to behave like utils.js.
- Plain getters (`getBLEDevice`, `getRSSI`, `getName`, `getMAC`, `getLastSeenTimestamp`, `isConnected`, `getServicesCharacteristics` and the older `getDevice`) are functions that return the field; they carry no contract of their own.
- Values are JavaScript numbers only where they are integers. Writes of non-integer values are not modelled.
