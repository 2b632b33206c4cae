/**
 * src/redux/devicesReducer.js: the registry of every SunFibre peripheral seen
 * by the scanner, an ordered list of device records keyed by MAC address.
 * Found records are updated in place through their setters; a thrown error
 * becomes a `Failure` result.
 */
module DevicesReducer {
  import opened Wrappers
  import opened BlePlx
  import opened Device

  const NOT_IN_LIST := "Device is not in devices list!"
  const UNSUPPORTED := "Unsupported devicesReducer action received."

  /** The `type` strings the reducer's switch has a case for. */
  const KNOWN_TYPES: set<string> := {"SCANNED_DEVICE", "CONNECTED_DEVICE", "DISCONNECTED_DEVICE", "CLEAR"}

  /** Any other `type` string: these fall to the switch's default branch. */
  type UnknownType = t: string | t !in KNOWN_TYPES witness ""

  /** The actions the reducer understands, plus any other `type`. */
  datatype Action =
    | ScannedDevice(device: BleDevice)
    | ConnectedDevice(device: BleDevice, servicesCharacteristics: ServiceTable)
    | DisconnectedDevice(device: BleDevice)
    | Clear
    | Unsupported(actionType: UnknownType)

  /** The MAC an action is about, if any. */
  function Target(action: Action): Option<string>
  {
    match action
    case ScannedDevice(device) => Some(device.id)
    case ConnectedDevice(device, _) => Some(device.id)
    case DisconnectedDevice(device) => Some(device.id)
    case _ => None
  }

  /** `devices.find(sfd => sfd.getMAC() == id)`, as the index of the first match. */
  function Find(devices: seq<SunFibreDevice>, id: string): (r: Option<nat>)
    reads devices
    ensures r.None? <==> forall d :: d in devices ==> d.device.id != id
    ensures r.Some? ==> r.value < |devices| && devices[r.value].device.id == id
    ensures r.Some? ==> forall j :: 0 <= j < r.value ==> devices[j].device.id != id
  {
    if |devices| == 0 then None
    else if devices[0].device.id == id then Some(0)
    else match Find(devices[1..], id)
      case None => None
      case Some(k) => Some(k + 1)
  }

  /** `a` is `b` with some elements left out, the rest kept in order. */
  predicate Subsequence<T(==)>(a: seq<T>, b: seq<T>)
  {
    if |a| == 0 then true
    else if |b| == 0 then false
    else if a[0] == b[0] then Subsequence(a[1..], b[1..])
    else Subsequence(a, b[1..])
  }

  /** `devices.filter(d => d.getMAC() !== id)`. */
  function WithoutMac(devices: seq<SunFibreDevice>, id: string): (r: seq<SunFibreDevice>)
    reads devices
    ensures forall d :: d in r ==> d in devices && d.device.id != id
    ensures forall d :: d in devices && d.device.id != id ==> d in r
    ensures Subsequence(r, devices)
  {
    if |devices| == 0 then []
    else if devices[0].device.id != id then [devices[0]] + WithoutMac(devices[1..], id)
    else WithoutMac(devices[1..], id)
  }

  /** `devices.filter(dev => dev.isConnected())`. */
  function ConnectedOnly(devices: seq<SunFibreDevice>): (r: seq<SunFibreDevice>)
    reads devices
    ensures forall d :: d in r ==> d in devices && d.connected
    ensures forall d :: d in devices && d.connected ==> d in r
    ensures Subsequence(r, devices)
  {
    if |devices| == 0 then []
    else if devices[0].connected then [devices[0]] + ConnectedOnly(devices[1..])
    else ConnectedOnly(devices[1..])
  }

  /** No two records share a MAC address. */
  predicate UniqueMacs(devices: seq<SunFibreDevice>)
    reads devices
  {
    forall i, j :: 0 <= i < |devices| && 0 <= j < |devices| && devices[i].device.id == devices[j].device.id ==> i == j
  }

  /** A record holds a service table exactly when it is connected. */
  predicate TableIffConnected(devices: seq<SunFibreDevice>)
    reads devices
  {
    forall d :: d in devices ==> (d.servicesCharacteristics.Some? <==> d.connected)
  }

  /** The actions the reducer throws on. */
  predicate Rejects(devices: seq<SunFibreDevice>, action: Action)
    reads devices
  {
    action.Unsupported? || (action.ConnectedDevice? && Find(devices, action.device.id).None?)
  }

  /** When MACs are unique, removing one MAC removes exactly the record that has it. */
  lemma WithoutMacRemovesOne(devices: seq<SunFibreDevice>, k: nat)
    requires k < |devices|
    requires UniqueMacs(devices)
    ensures WithoutMac(devices, devices[k].device.id) == devices[..k] + devices[k + 1..]
  {
    forall i | 0 <= i < |devices| && i != k
      ensures devices[i].device.id != devices[k].device.id
    {
    }
    WithoutMacOfOnly(devices, k, devices[k].device.id);
  }

  /** Removing a MAC that only the record at `k` has leaves everything else. */
  lemma WithoutMacOfOnly(devices: seq<SunFibreDevice>, k: nat, id: string)
    requires k < |devices| && devices[k].device.id == id
    requires forall i :: 0 <= i < |devices| && i != k ==> devices[i].device.id != id
    ensures WithoutMac(devices, id) == devices[..k] + devices[k + 1..]
  {
    var before, after := devices[..k], devices[k + 1..];
    assert devices == before + ([devices[k]] + after);
    WithoutMacAppend(before, [devices[k]] + after, id);
    assert ([devices[k]] + after)[1..] == after;
    forall i | 0 <= i < |before|
      ensures before[i].device.id != id
    {
      assert before[i] == devices[i];
    }
    forall i | 0 <= i < |after|
      ensures after[i].device.id != id
    {
      assert after[i] == devices[k + 1 + i];
    }
    WithoutMacOfAbsent(before, id);
    WithoutMacOfAbsent(after, id);
  }

  /** Filtering a concatenation filters each part. */
  lemma {:induction false} WithoutMacAppend(a: seq<SunFibreDevice>, b: seq<SunFibreDevice>, id: string)
    ensures WithoutMac(a + b, id) == WithoutMac(a, id) + WithoutMac(b, id)
    decreases |a|
  {
    if |a| == 0 {
      assert a + b == b;
    } else {
      assert (a + b)[1..] == a[1..] + b;
      WithoutMacAppend(a[1..], b, id);
    }
  }

  /** Dropping the first record keeps MACs unique. */
  lemma UniqueMacsTail(devices: seq<SunFibreDevice>)
    requires |devices| > 0 && UniqueMacs(devices)
    ensures UniqueMacs(devices[1..])
  {
    forall i, j | 0 <= i < |devices| - 1 && 0 <= j < |devices| - 1 && devices[1..][i].device.id == devices[1..][j].device.id
      ensures i == j
    {
      assert devices[i + 1].device.id == devices[j + 1].device.id;
    }
  }

  /** Removing a MAC nobody has changes nothing. */
  lemma {:induction false} WithoutMacOfAbsent(devices: seq<SunFibreDevice>, id: string)
    requires forall i :: 0 <= i < |devices| ==> devices[i].device.id != id
    ensures WithoutMac(devices, id) == devices
    decreases |devices|
  {
    if |devices| > 0 {
      WithoutMacOfAbsent(devices[1..], id);
    }
  }

  /** A subsequence of a list with unique MACs has unique MACs. */
  lemma {:induction false} SubsequenceKeepsUnique(a: seq<SunFibreDevice>, b: seq<SunFibreDevice>)
    requires Subsequence(a, b)
    requires UniqueMacs(b)
    ensures UniqueMacs(a)
    decreases |b|
  {
    if |a| > 0 && |b| > 0 {
      UniqueMacsTail(b);
      if a[0] == b[0] {
        SubsequenceKeepsUnique(a[1..], b[1..]);
        SubsequenceMembers(a[1..], b[1..]);
        forall i, j | 0 <= i < |a| && 0 <= j < |a| && a[i].device.id == a[j].device.id
          ensures i == j
        {
          if i != 0 && j != 0 {
            assert a[1..][i - 1].device.id == a[1..][j - 1].device.id;
          } else if i != 0 {
            assert a[1..][i - 1] == a[i];
            HeadMacNotInTail(b, a[i]);
          } else if j != 0 {
            assert a[1..][j - 1] == a[j];
            HeadMacNotInTail(b, a[j]);
          }
        }
      } else {
        SubsequenceKeepsUnique(a, b[1..]);
      }
    }
  }

  /** With unique MACs, the first record's MAC appears nowhere after it. */
  lemma HeadMacNotInTail(b: seq<SunFibreDevice>, x: SunFibreDevice)
    requires UniqueMacs(b)
    requires |b| > 0 && x in b[1..]
    ensures x.device.id != b[0].device.id
  {
    var p :| 0 <= p < |b| - 1 && b[1..][p] == x;
    assert b[p + 1] == x;
  }

  /** Every element of a subsequence is an element of the whole. */
  lemma {:induction false} SubsequenceMembers<T>(a: seq<T>, b: seq<T>)
    requires Subsequence(a, b)
    ensures forall x :: x in a ==> x in b
    decreases |b|
  {
    if |a| > 0 && |b| > 0 {
      if a[0] == b[0] {
        SubsequenceMembers(a[1..], b[1..]);
        assert a == [a[0]] + a[1..];
        assert b == [b[0]] + b[1..];
      } else {
        SubsequenceMembers(a, b[1..]);
      }
    }
  }

  /** Appending a record for a MAC not yet present keeps MACs unique. */
  lemma AppendKeepsUnique(devices: seq<SunFibreDevice>, n: SunFibreDevice)
    requires UniqueMacs(devices)
    requires forall d :: d in devices ==> d.device.id != n.device.id
    ensures UniqueMacs(devices + [n])
  {
    var s := devices + [n];
    forall i, j | 0 <= i < |s| && 0 <= j < |s| && s[i].device.id == s[j].device.id
      ensures i == j
    {
      if i < |devices| && j < |devices| {
        assert devices[i].device.id == devices[j].device.id;
      }
    }
  }

  /**
   * SCANNED_DEVICE: a record for an unseen MAC is appended (no table, not
   * connected); a known record only gets its timestamp refreshed.
   */
  method ReduceScanned(devices: seq<SunFibreDevice>, device: BleDevice, now: int) returns (r: seq<SunFibreDevice>)
    modifies devices
    ensures old(Find(devices, device.id)).None? ==>
      |r| == |devices| + 1 && r[..|devices|] == devices
      && fresh(r[|devices|]) && r[|devices|].device == device
      && r[|devices|].servicesCharacteristics.None? && !r[|devices|].connected
      && r[|devices|].lastSeenTimestamp == now
      && forall d :: d in devices ==> unchanged(d)
    ensures old(Find(devices, device.id)).Some? ==>
      var d := devices[old(Find(devices, device.id)).value];
      r == devices && d.lastSeenTimestamp == now && d.device == old(d.device)
      && d.connected == old(d.connected) && d.servicesCharacteristics == old(d.servicesCharacteristics)
      && forall e :: e in devices && e != d ==> unchanged(e)
    ensures old(UniqueMacs(devices)) ==> UniqueMacs(r)
    ensures old(TableIffConnected(devices)) ==> TableIffConnected(r)
  {
    var k := Find(devices, device.id);
    if k.None? {
      var n := new SunFibreDevice(device, None, now);
      if UniqueMacs(devices) {
        AppendKeepsUnique(devices, n);
      }
      return devices + [n];
    }
    devices[k.value].SetLastSeenTimestamp(now);
    return devices;
  }

  /**
   * CONNECTED_DEVICE: a known record is marked connected and gets the table;
   * an unknown MAC throws.
   */
  method ReduceConnected(devices: seq<SunFibreDevice>, device: BleDevice, servicesCharacteristics: ServiceTable)
    returns (r: Result<seq<SunFibreDevice>, Failure>)
    modifies devices
    ensures old(Find(devices, device.id)).None? ==>
      r == Failure(Error(NOT_IN_LIST)) && forall d :: d in devices ==> unchanged(d)
    ensures old(Find(devices, device.id)).Some? ==>
      var d := devices[old(Find(devices, device.id)).value];
      r == Success(devices) && d.connected && d.servicesCharacteristics == Some(servicesCharacteristics)
      && d.device == old(d.device) && d.lastSeenTimestamp == old(d.lastSeenTimestamp)
      && forall e :: e in devices && e != d ==> unchanged(e)
    ensures old(UniqueMacs(devices)) && r.Success? ==> UniqueMacs(r.value)
    ensures old(TableIffConnected(devices)) && r.Success? ==> TableIffConnected(r.value)
  {
    var k := Find(devices, device.id);
    if k.None? {
      return Failure(Error(NOT_IN_LIST));
    }
    devices[k.value].SetConnected(true);
    devices[k.value].SetServicesCharacteristics(Some(servicesCharacteristics));
    return Success(devices);
  }

  /**
   * DISCONNECTED_DEVICE: a known record is marked disconnected, loses its
   * table and is filtered out; an unknown MAC leaves the list as it is.
   */
  method ReduceDisconnected(devices: seq<SunFibreDevice>, device: BleDevice) returns (r: seq<SunFibreDevice>)
    modifies devices
    ensures old(Find(devices, device.id)).None? ==>
      r == devices && forall d :: d in devices ==> unchanged(d)
    ensures old(Find(devices, device.id)).Some? ==>
      var d := devices[old(Find(devices, device.id)).value];
      r == WithoutMac(devices, device.id) && !d.connected && d.servicesCharacteristics.None?
      && d.device == old(d.device) && d.lastSeenTimestamp == old(d.lastSeenTimestamp)
      && forall e :: e in devices && e != d ==> unchanged(e)
    ensures old(UniqueMacs(devices)) ==> UniqueMacs(r)
    ensures old(TableIffConnected(devices)) ==> TableIffConnected(r)
  {
    var k := Find(devices, device.id);
    if k.None? {
      return devices;
    }
    label BeforeUpdate:
    devices[k.value].SetConnected(false);
    devices[k.value].SetServicesCharacteristics(None);
    var rest := WithoutMac(devices, device.id);
    if old@BeforeUpdate(UniqueMacs(devices)) {
      forall i, j | 0 <= i < |devices| && 0 <= j < |devices| && devices[i].device.id == devices[j].device.id
        ensures i == j
      {
        assert old@BeforeUpdate(devices[i].device.id == devices[j].device.id);
      }
      SubsequenceKeepsUnique(rest, devices);
    }
    return rest;
  }

  /**
   * What devicesReducer does to a registry `before`, between the state before
   * the call and the state after it: `r` is its result, `now` the
   * `Date.now()` a scan refresh stamps.
   */
  twostate predicate Reduced(before: seq<SunFibreDevice>, action: Action, now: int, new r: Result<seq<SunFibreDevice>, Failure>)
    reads before, if r.Success? then r.value else []
  {
    // SCANNED_DEVICE, unseen MAC: one fresh, disconnected, table-less record appended
    (action.ScannedDevice? && old(Find(before, action.device.id)).None? ==>
      r.Success? && |r.value| == |before| + 1 && r.value[..|before|] == before
      && fresh(r.value[|before|]) && r.value[|before|].device == action.device
      && r.value[|before|].servicesCharacteristics.None? && !r.value[|before|].connected
      && r.value[|before|].lastSeenTimestamp == now)
    // SCANNED_DEVICE, known MAC: same list, only the timestamp of that record refreshed
    && (action.ScannedDevice? && old(Find(before, action.device.id)).Some? ==>
      var d := before[old(Find(before, action.device.id)).value];
      r == Success(before) && d.lastSeenTimestamp == now && d.device == old(d.device)
      && d.connected == old(d.connected) && d.servicesCharacteristics == old(d.servicesCharacteristics))
    // CONNECTED_DEVICE
    && (action.ConnectedDevice? && old(Find(before, action.device.id)).None? ==> r == Failure(Error(NOT_IN_LIST)))
    && (action.ConnectedDevice? && old(Find(before, action.device.id)).Some? ==>
      var d := before[old(Find(before, action.device.id)).value];
      r == Success(before) && d.connected && d.servicesCharacteristics == Some(action.servicesCharacteristics)
      && d.device == old(d.device) && d.lastSeenTimestamp == old(d.lastSeenTimestamp))
    // DISCONNECTED_DEVICE
    && (action.DisconnectedDevice? && old(Find(before, action.device.id)).None? ==> r == Success(before))
    && (action.DisconnectedDevice? && old(Find(before, action.device.id)).Some? ==>
      var d := before[old(Find(before, action.device.id)).value];
      r == Success(WithoutMac(before, action.device.id)) && !d.connected && d.servicesCharacteristics.None?
      && d.device == old(d.device) && d.lastSeenTimestamp == old(d.lastSeenTimestamp))
    // CLEAR and anything else
    && (action.Clear? ==> r == Success(old(ConnectedOnly(before))))
    && (action.Unsupported? ==> r == Failure(Error(UNSUPPORTED)))
    // at most the one record found is touched, and a throw touches none
    && (Target(action).None? || old(Find(before, Target(action).value)).None? ==>
      forall d :: d in before ==> unchanged(d))
    && (Target(action).Some? && old(Find(before, Target(action).value)).Some? ==>
      forall d :: d in before && d != before[old(Find(before, Target(action).value)).value] ==> unchanged(d))
    && (r.Failure? <==> old(Rejects(before, action)))
    && (r.Failure? ==> forall d :: d in before ==> unchanged(d))
  }

  /** devicesReducer: it does what `Reduced` says and keeps MACs unique. */
  method Reduce(devices: seq<SunFibreDevice>, action: Action, now: int) returns (r: Result<seq<SunFibreDevice>, Failure>)
    modifies devices
    ensures Reduced(devices, action, now, r)
    ensures old(UniqueMacs(devices)) && r.Success? ==> UniqueMacs(r.value)
    ensures old(TableIffConnected(devices)) && r.Success? ==> TableIffConnected(r.value)
  {
    match action {
      case ScannedDevice(device) =>
        var next := ReduceScanned(devices, device, now);
        return Success(next);
      case ConnectedDevice(device, servicesCharacteristics) =>
        r := ReduceConnected(devices, device, servicesCharacteristics);
      case DisconnectedDevice(device) =>
        var next := ReduceDisconnected(devices, device);
        return Success(next);
      case Clear =>
        var rest := ConnectedOnly(devices);
        if UniqueMacs(devices) {
          SubsequenceKeepsUnique(rest, devices);
        }
        return Success(rest);
      case Unsupported(_) =>
        return Failure(Error(UNSUPPORTED));
    }
  }
}
