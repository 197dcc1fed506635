/** Finding and opening the keyboard's raw-HID interface: `find_target_device`
    picks the first enumerated interface whose four identifiers equal the
    selector, and `open_device_or_exit` opens it by path, falling back to an
    open by vendor and product. */
module Locator {
  import opened Types

  /** The four identifiers given on the command line. */
  datatype Selector = Selector(vendorId: uint16, productId: uint16, usagePage: uint16, usageId: uint16)

  /** One interface of the transport's enumeration. */
  datatype DeviceInfo = DeviceInfo(
    vendorId: uint16, productId: uint16, usagePage: uint16, usageId: uint16,
    path: string, productString: Option<string>, manufacturerString: Option<string>)

  predicate Matches(d: DeviceInfo, sel: Selector) {
    d.vendorId == sel.vendorId && d.productId == sel.productId
    && d.usagePage == sel.usagePage && d.usageId == sel.usageId
  }

  /** `find_target_device`: the first matching interface in enumeration
      order, or nothing exactly when no interface matches. */
  function FindTargetDevice(devices: seq<DeviceInfo>, sel: Selector): (r: Option<DeviceInfo>)
    ensures r.None? <==> forall j :: 0 <= j < |devices| ==> !Matches(devices[j], sel)
    ensures r.Some? ==> exists i :: 0 <= i < |devices| && devices[i] == r.value && Matches(devices[i], sel)
                          && forall j :: 0 <= j < i ==> !Matches(devices[j], sel)
  {
    if devices == [] then None
    else if Matches(devices[0], sel) then Some(devices[0])
    else
      var r := FindTargetDevice(devices[1..], sel);
      if r.Some? then
        var i :| 0 <= i < |devices[1..]| && devices[1..][i] == r.value && Matches(devices[1..][i], sel)
                 && forall j :: 0 <= j < i ==> !Matches(devices[1..][j], sel);
        assert devices[i + 1] == r.value;
        r
      else r
  }

  /** An opened interface; the transport behind it is not modelled. */
  datatype HidDevice = HidDevice(handle: nat)

  /** What the transport answers to one open request. */
  datatype OpenResult = Opened(device: HidDevice) | OpenError(cause: string)

  /** An open request made to the transport. */
  datatype OpenCall = OpenPath(path: string) | OpenIds(vendorId: uint16, productId: uint16)

  datatype LocateError =
    | DeviceNotFound(selector: Selector)
    | OpenFailed(vendorId: uint16, productId: uint16, cause: string)

  /** The result of `open_device_or_exit` and the open requests it made, in
      order. */
  datatype Located = Located(result: Result<HidDevice, LocateError>, calls: seq<OpenCall>)

  /** `open_device_or_exit`, with the transport's two open operations given as
      functions and the process exit turned into an error value. */
  function OpenDevice(devices: seq<DeviceInfo>, sel: Selector,
                      openPath: string -> OpenResult,
                      openIds: (uint16, uint16) -> OpenResult): (r: Located)
    ensures FindTargetDevice(devices, sel).None? <==> r.calls == []
    ensures FindTargetDevice(devices, sel).None? <==> r.result == Err(DeviceNotFound(sel))
    ensures r.calls != [] ==> r.calls[0] == OpenPath(FindTargetDevice(devices, sel).value.path)
    ensures |r.calls| <= 2
    ensures |r.calls| == 2 <==> r.calls != [] && openPath(FindTargetDevice(devices, sel).value.path).OpenError?
    ensures |r.calls| == 2 ==> r.calls[1] == OpenIds(sel.vendorId, sel.productId)
    ensures |r.calls| == 1 ==> r.result.Ok? && r.calls[0].OpenPath? && openPath(r.calls[0].path) == Opened(r.result.value)
    ensures |r.calls| == 2 ==> (r.result.Ok? <==> openIds(sel.vendorId, sel.productId).Opened?)
    ensures |r.calls| == 2 && r.result.Ok? ==> openIds(sel.vendorId, sel.productId) == Opened(r.result.value)
    ensures |r.calls| == 2 && r.result.Err? ==>
              r.result.error == OpenFailed(sel.vendorId, sel.productId, openIds(sel.vendorId, sel.productId).cause)
  {
    match FindTargetDevice(devices, sel)
    case None => Located(Err(DeviceNotFound(sel)), [])
    case Some(info) =>
      match openPath(info.path)
      case Opened(device) => Located(Ok(device), [OpenPath(info.path)])
      case OpenError(_) =>
        var calls := [OpenPath(info.path), OpenIds(sel.vendorId, sel.productId)];
        match openIds(sel.vendorId, sel.productId)
        case Opened(device) => Located(Ok(device), calls)
        case OpenError(cause) => Located(Err(OpenFailed(sel.vendorId, sel.productId, cause)), calls)
  }

  /** When several interfaces match, the earliest one is chosen: putting any
      interfaces that do not match in front changes nothing. */
  lemma {:induction false} NonMatchingPrefixIgnored(skipped: seq<DeviceInfo>, devices: seq<DeviceInfo>, sel: Selector)
    requires forall j :: 0 <= j < |skipped| ==> !Matches(skipped[j], sel)
    ensures FindTargetDevice(skipped + devices, sel) == FindTargetDevice(devices, sel)
    decreases |skipped|
  {
    if skipped != [] {
      assert (skipped + devices)[0] == skipped[0];
      assert (skipped + devices)[1..] == skipped[1..] + devices;
      NonMatchingPrefixIgnored(skipped[1..], devices, sel);
      assert !Matches((skipped + devices)[0], sel);
    } else {
      assert skipped + devices == devices;
    }
  }

  /** A matching interface ends the search: what is enumerated after it is
      never looked at. */
  lemma {:induction false} FirstMatchWins(devices: seq<DeviceInfo>, d: DeviceInfo, later: seq<DeviceInfo>, sel: Selector)
    requires forall j :: 0 <= j < |devices| ==> !Matches(devices[j], sel)
    requires Matches(d, sel)
    ensures FindTargetDevice(devices + [d] + later, sel) == Some(d)
  {
    assert devices + [d] + later == devices + ([d] + later);
    NonMatchingPrefixIgnored(devices, [d] + later, sel);
  }
}
