/** Webcams wrap devices; the roster is a sequence of webcams
    (WebcamDiscoveryService.toWebcams and getDevices, lines 60-79). */
module Webcams {
  import opened Wrappers
  import opened Sequences
  import opened Devices

  /** The capture-facing handle of one device. Each `new Webcam` is a distinct object;
      its own capture and disposal machinery is not part of this model. */
  class Webcam {
    const device: Device

    constructor (device: Device)
      ensures this.device == device
    {
      this.device := device;
    }
  }

  /** The devices a roster wraps, position by position. */
  function DevicesOf(ws: seq<Webcam>): seq<Device>
  {
    seq(|ws|, i requires 0 <= i < |ws| => ws[i].device)
  }

  /** toWebcams: one new webcam per device, in the order of the devices. */
  method ToWebcams(devices: seq<Device>) returns (ws: seq<Webcam>)
    ensures DevicesOf(ws) == devices
    ensures forall i :: 0 <= i < |ws| ==> fresh(ws[i])
    ensures Distinct(ws)
  {
    ws := [];
    for i := 0 to |devices|
      invariant |ws| == i
      invariant forall k :: 0 <= k < i ==> ws[k].device == devices[k] && fresh(ws[k])
      invariant Distinct(ws)
    {
      var w := new Webcam(devices[i]);
      ws := ws + [w];
    }
  }

  /** getDevices: the device of every webcam, in roster order. */
  method GetDevices(ws: seq<Webcam>) returns (ds: seq<Device>)
    ensures |ds| == |ws|
    ensures forall i :: 0 <= i < |ws| ==> ds[i] == ws[i].device
  {
    ds := [];
    for i := 0 to |ws|
      invariant |ds| == i
      invariant forall k :: 0 <= k < i ==> ds[k] == ws[k].device
    {
      ds := ds + [ws[i].device];
    }
  }

  /** Reading the devices back from a freshly built roster gives the original list:
      getDevices(toWebcams(ds)) == ds. */
  method RosterRoundTrip(devices: seq<Device>) returns (back: seq<Device>)
    ensures back == devices
  {
    var ws := ToWebcams(devices);
    back := GetDevices(ws);
    assert back == DevicesOf(ws);
  }

  /** The linear scan of run() that stops at the first webcam of the roster whose device
      has the given name. */
  method FirstWebcamNamed(ws: seq<Webcam>, name: string) returns (k: Option<nat>)
    ensures k.Some? ==> k.value < |ws| && ws[k.value].device.name == name
    ensures k.Some? ==> forall j :: 0 <= j < k.value ==> ws[j].device.name != name
    ensures k.None? ==> forall j :: 0 <= j < |ws| ==> ws[j].device.name != name
    ensures k == FirstNamed(DevicesOf(ws), name)
  {
    var i := 0;
    while i < |ws|
      invariant i <= |ws|
      invariant forall j :: 0 <= j < i ==> ws[j].device.name != name
    {
      if ws[i].device.name == name {
        ghost var r := FirstNamed(DevicesOf(ws), name);
        assert DevicesOf(ws)[i].name == name;
        assert r.Some? && r.value <= i;
        assert DevicesOf(ws)[r.value] == ws[r.value].device;
        return Some(i);
      }
      i := i + 1;
    }
    assert forall j :: 0 <= j < |ws| ==> DevicesOf(ws)[j].name != name;
    return None;
  }

  /** The webcam a device is matched to: the first one of the roster with its name. */
  function MatchOf(d: Device, ws: seq<Webcam>): seq<Webcam>
  {
    match FirstNamed(DevicesOf(ws), d.name)
    case Some(k) => [ws[k]]
    case None => []
  }

  /** What the name scans collect for a list of devices, in the order of the devices;
      a device with no webcam of its name contributes nothing. */
  function Matches(devices: seq<Device>, ws: seq<Webcam>): seq<Webcam>
  {
    if devices == [] then []
    else Matches(devices[..|devices| - 1], ws) + MatchOf(devices[|devices| - 1], ws)
  }

  /** Every matched webcam belongs to the roster and carries the name of one of the devices. */
  lemma {:induction false} MatchesAreFromRoster(devices: seq<Device>, ws: seq<Webcam>)
    ensures forall m :: m in Matches(devices, ws) ==> m in ws && m.device.name in Names(devices)
    decreases |devices|
  {
    if devices != [] {
      var n := |devices| - 1;
      MatchesAreFromRoster(devices[..n], ws);
      forall m | m in Matches(devices, ws)
        ensures m in ws && m.device.name in Names(devices)
      {
        if m in Matches(devices[..n], ws) {
          var i :| 0 <= i < n && Names(devices[..n])[i] == m.device.name;
          assert Names(devices)[i] == m.device.name;
        } else {
          assert m in MatchOf(devices[n], ws);
          assert Names(devices)[n] == m.device.name;
        }
      }
    }
  }

  /** A device whose name the roster has contributes exactly the first webcam of that name. */
  lemma MatchOfPresent(d: Device, ws: seq<Webcam>)
    requires d.name in Names(DevicesOf(ws))
    ensures FirstNamed(DevicesOf(ws), d.name).Some?
    ensures MatchOf(d, ws) == [ws[FirstNamed(DevicesOf(ws), d.name).value]]
  {
    var names := Names(DevicesOf(ws));
    var j :| 0 <= j < |names| && names[j] == d.name;
    assert DevicesOf(ws)[j].name == d.name;
  }

  /** When every device's name is in the roster, each device gets exactly one webcam:
      the first webcam of the roster with that device's name. */
  lemma {:induction false} MatchesAreComplete(devices: seq<Device>, ws: seq<Webcam>)
    requires forall i :: 0 <= i < |devices| ==> devices[i].name in Names(DevicesOf(ws))
    ensures |Matches(devices, ws)| == |devices|
    ensures forall i :: 0 <= i < |devices| ==>
      FirstNamed(DevicesOf(ws), devices[i].name).Some? &&
      Matches(devices, ws)[i] == ws[FirstNamed(DevicesOf(ws), devices[i].name).value]
    decreases |devices|
  {
    if devices != [] {
      var n := |devices| - 1;
      var prefix := devices[..n];
      MatchesAreComplete(prefix, ws);
      var d := devices[n];
      MatchOfPresent(d, ws);
      var k := FirstNamed(DevicesOf(ws), d.name);
      assert Matches(devices, ws) == Matches(prefix, ws) + [ws[k.value]];
      CompleteStep(devices, prefix, ws, Matches(prefix, ws), ws[k.value], Matches(devices, ws));
    }
  }

  /** The induction step of MatchesAreComplete, on plain sequences. */
  lemma CompleteStep(devices: seq<Device>, prefix: seq<Device>, ws: seq<Webcam>, done: seq<Webcam>, w: Webcam,
                     all: seq<Webcam>)
    requires devices != [] && prefix == devices[..|devices| - 1] && |done| == |prefix|
    requires forall i :: 0 <= i < |prefix| ==>
      FirstNamed(DevicesOf(ws), prefix[i].name).Some? &&
      done[i] == ws[FirstNamed(DevicesOf(ws), prefix[i].name).value]
    requires FirstNamed(DevicesOf(ws), devices[|devices| - 1].name).Some?
    requires w == ws[FirstNamed(DevicesOf(ws), devices[|devices| - 1].name).value]
    requires all == done + [w]
    ensures |all| == |devices|
    ensures forall i :: 0 <= i < |devices| ==>
      FirstNamed(DevicesOf(ws), devices[i].name).Some? &&
      all[i] == ws[FirstNamed(DevicesOf(ws), devices[i].name).value]
  {
    forall i | 0 <= i < |devices|
      ensures FirstNamed(DevicesOf(ws), devices[i].name).Some?
      ensures all[i] == ws[FirstNamed(DevicesOf(ws), devices[i].name).value]
    {
      if i < |prefix| {
        assert prefix[i] == devices[i];
      }
    }
  }
}
