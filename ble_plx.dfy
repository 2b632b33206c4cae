/**
 * The values the core receives from, and hands to, the BLE transport
 * (react-native-ble-plx) and the JavaScript runtime: devices, services,
 * characteristics, thrown errors and the ways a promise can settle.
 * The transport itself is not modelled: its answers are parameters.
 */
module BlePlx {
  import opened Wrappers

  type Uuid = string

  /** A scanned peripheral: `device.id` is its MAC address. */
  datatype BleDevice = BleDevice(id: string, name: Option<string>, rssi: int)

  /** A characteristic handle; `handle` tells apart two characteristics with the same uuid. */
  datatype Characteristic = Characteristic(uuid: Uuid, handle: nat)

  /** A discovered GATT service and its characteristics in discovery order. */
  datatype Service = Service(uuid: Uuid, characteristics: seq<Characteristic>)

  /** The object mapping service uuid to its characteristic list. */
  type ServiceTable = map<Uuid, seq<Characteristic>>

  /** What a `throw` or a rejection carries. */
  datatype Failure =
    | Error(message: string)      // new Error("...")
    | BleError(reason: string)    // an error reported by the transport, with its message
    | Rethrown(cause: Failure)    // new Error(error): a fresh Error wrapping an earlier one
    | TypeError                   // a property read on null or undefined, and the like
    | RangeError                  // a Buffer read past its end

  /** How a promise ends up; `Pending` is a promise that never settles. */
  datatype Settlement<+T> = Resolved(value: T) | Rejected(reason: Failure) | Pending

  /** A call that either throws synchronously or returns a promise. */
  datatype Call<+T> = Threw(exception: Failure) | Returned(promise: Settlement<T>)

  /** The answer of one transport operation: success with a value, or an error with its message. */
  datatype Outcome<+T> = Ok(value: T) | Err(message: string)

  /** The property key JavaScript uses for `obj[k]`: an undefined `k` reads the key "undefined". */
  function PropertyKey(k: Option<string>): string
  {
    if k.Some? then k.value else "undefined"
  }

  /** What a characteristic lookup `table[service][index]` gives. */
  datatype Lookup =
    | Found(characteristic: Characteristic)
    | Absent                      // null or undefined: a falsy result
    | LookupThrew(failure: Failure)

  /**
   * `table[service][index]` on the service table object: a missing service
   * makes the second index read `undefined[index]`, a TypeError; an index past
   * the end of the list gives `undefined`.
   */
  function Index(table: ServiceTable, service: Option<Uuid>, index: nat): (r: Lookup)
    ensures r.LookupThrew? <==> PropertyKey(service) !in table
    ensures r.Found? <==> PropertyKey(service) in table && index < |table[PropertyKey(service)]|
    ensures r.Found? ==> r.characteristic == table[PropertyKey(service)][index]
  {
    var key := PropertyKey(service);
    if key !in table then LookupThrew(TypeError)
    else if index < |table[key]| then Found(table[key][index])
    else Absent
  }

  /** JavaScript's `s.endsWith(suffix)`. */
  predicate EndsWith(s: string, suffix: string)
  {
    |suffix| <= |s| && s[|s| - |suffix|..] == suffix
  }

  /** JavaScript's `s.startsWith(prefix)`. */
  predicate StartsWith(s: string, prefix: string)
  {
    |prefix| <= |s| && s[..|prefix|] == prefix
  }
}
