/** The device-selection screen: two parallel lists, the device records and
    the labels shown for them, rebuilt on every scan from the bonded devices
    and then extended by live-scan events; plus the flag that says whether the
    scan-event receiver is registered. */
module Discovery {
  import opened JavaText
  import opened DeviceFilter

  /** The broadcast action of a live-scan event (`BluetoothDevice.ACTION_FOUND`). */
  const ActionFound: string := "android.bluetooth.device.action.FOUND"

  /** The bonded pass lists a device when its name, or the placeholder for a
      null name, passes the filter; since the placeholder never passes (lemma
      NamelessNeverListed), that is when the device has a name that passes. */
  predicate BondedListed(d: Device)
  {
    d.name.Some? && NameMatches(d.name.value)
  }

  /** The label of a bonded device: its name followed by " (Paired)". */
  function PairedLabel(d: Device): string
  {
    NameOr(d.name, PairedPlaceholder) + PairedSuffix
  }

  /** The devices the bonded pass appends, in enumeration order. */
  function BondedMatches(bonded: seq<Device>): seq<Device>
  {
    if bonded == [] then []
    else
      var last := bonded[|bonded| - 1];
      BondedMatches(bonded[..|bonded| - 1]) + if BondedListed(last) then [last] else []
  }

  /** The labels the bonded pass appends, in enumeration order. */
  function BondedLabels(bonded: seq<Device>): seq<string>
  {
    if bonded == [] then []
    else
      var last := bonded[|bonded| - 1];
      BondedLabels(bonded[..|bonded| - 1]) + if BondedListed(last) then [PairedLabel(last)] else []
  }

  /** Label `entry` describes device `d`: the device has a name that passes
      the filter, and the label is that name, with " (Paired)" appended when
      the entry came from the bonded pass. */
  predicate Describes(entry: string, d: Device)
  {
    d.name.Some? && NameMatches(d.name.value)
    && (entry == d.name.value + PairedSuffix || entry == d.name.value)
  }

  /** The bonded pass yields as many labels as devices; label i is device i's
      name with " (Paired)" appended; and a bonded device is listed exactly
      when it has a name that passes the filter. */
  lemma {:induction false} BondedPass(bonded: seq<Device>)
    ensures |BondedMatches(bonded)| == |BondedLabels(bonded)| <= |bonded|
    ensures forall i :: 0 <= i < |BondedMatches(bonded)| ==>
      var d := BondedMatches(bonded)[i];
      d.name.Some? && NameMatches(d.name.value) && BondedLabels(bonded)[i] == d.name.value + PairedSuffix
    ensures forall d :: d in BondedMatches(bonded) <==> d in bonded && d.name.Some? && NameMatches(d.name.value)
  {
    if bonded != [] {
      var init, last := bonded[..|bonded| - 1], bonded[|bonded| - 1];
      assert bonded == init + [last];
      BondedPass(init);
    }
  }

  /** The two parallel lists agree: equal length, and label i describes
      device i. */
  predicate Agree(devices: seq<Device>, labels: seq<string>)
  {
    |devices| == |labels|
    && forall i :: 0 <= i < |devices| ==> Describes(labels[i], devices[i])
  }

  lemma AgreeAppend(devices: seq<Device>, labels: seq<string>, d: Device, entry: string)
    requires Agree(devices, labels)
    requires Describes(entry, d)
    ensures Agree(devices + [d], labels + [entry])
  {
    var ds, ls := devices + [d], labels + [entry];
    forall i | 0 <= i < |ds| ensures Describes(ls[i], ds[i]) {
      if i < |devices| {
        assert ds[i] == devices[i] && ls[i] == labels[i];
      }
    }
  }

  /** Appending the result of a bonded pass keeps the lists in agreement. */
  lemma AgreeAfterBondedPass(devices: seq<Device>, labels: seq<string>, bonded: seq<Device>)
    requires Agree(devices, labels)
    ensures Agree(devices + BondedMatches(bonded), labels + BondedLabels(bonded))
  {
    BondedPass(bonded);
    var ds, ls := devices + BondedMatches(bonded), labels + BondedLabels(bonded);
    forall i | 0 <= i < |ds| ensures Describes(ls[i], ds[i]) {
      if i < |devices| {
        assert ds[i] == devices[i] && ls[i] == labels[i];
      } else {
        assert ds[i] == BondedMatches(bonded)[i - |devices|];
        assert ls[i] == BondedLabels(bonded)[i - |devices|];
      }
    }
  }

  /** One more bonded device extends both results by that device alone. */
  lemma BondedStep(bonded: seq<Device>, i: nat)
    requires i < |bonded|
    ensures BondedMatches(bonded[..i + 1]) == BondedMatches(bonded[..i]) + if BondedListed(bonded[i]) then [bonded[i]] else []
    ensures BondedLabels(bonded[..i + 1]) == BondedLabels(bonded[..i]) + if BondedListed(bonded[i]) then [PairedLabel(bonded[i])] else []
  {
    assert bonded[..i + 1][..i] == bonded[..i];
  }

  class DeviceList {
    /** `discoveredDevices`. */
    var devices: seq<Device>
    /** The entries of the list adapter shown to the user. */
    var labels: seq<string>
    /** `isReceiverRegistered`. */
    var receiverRegistered: bool
    /** Whether the adapter is running a discovery (`isDiscovering()`). */
    var discovering: bool

    /** The two lists have equal length and label i describes device i, so a
        clicked label position is a valid index into the device list. */
    ghost predicate Valid()
      reads this
    {
      Agree(devices, labels)
    }

    constructor (adapterDiscovering: bool)
      ensures Valid()
      ensures devices == [] && labels == []
      ensures !receiverRegistered && discovering == adapterDiscovering
    {
      devices := [];
      labels := [];
      receiverRegistered := false;
      discovering := adapterDiscovering;
    }

    /** `listBondedDevices`: appends every bonded device that passes the
        filter, labelled with " (Paired)". `connectAllowed` says that the
        platform is older than API level S or that the connect permission is
        granted; without it nothing changes. */
    method ListBondedDevices(bonded: seq<Device>, connectAllowed: bool)
      requires Valid()
      modifies this`devices, this`labels
      ensures Valid()
      ensures connectAllowed ==> devices == old(devices) + BondedMatches(bonded)
                                 && labels == old(labels) + BondedLabels(bonded)
      ensures !connectAllowed ==> devices == old(devices) && labels == old(labels)
    {
      if !connectAllowed {
        return;
      }
      var i := 0;
      while i < |bonded|
        invariant 0 <= i <= |bonded|
        invariant devices == old(devices) + BondedMatches(bonded[..i])
        invariant labels == old(labels) + BondedLabels(bonded[..i])
      {
        BondedStep(bonded, i);
        AddIfBondedMatch(bonded[i]);
        i := i + 1;
      }
      assert bonded[..i] == bonded;
      AgreeAfterBondedPass(old(devices), old(labels), bonded);
    }

    /** The body of the bonded-device loop: a null name becomes the
        placeholder, and a name that passes the filter is appended with
        " (Paired)". */
    method AddIfBondedMatch(device: Device)
      modifies this`devices, this`labels
      ensures devices == old(devices) + if BondedListed(device) then [device] else []
      ensures labels == old(labels) + if BondedListed(device) then [PairedLabel(device)] else []
    {
      var deviceName := if device.name.None? then PairedPlaceholder else device.name.value;
      NamelessNeverListed(device.name, PairedPlaceholder);
      if NameMatches(deviceName) {
        var listItem := deviceName + PairedSuffix;
        devices := devices + [device];
        labels := labels + [listItem];
      }
    }

    /** `startBluetoothDiscovery`: both lists are emptied and refilled by the
        bonded pass; with the scan permission the receiver is registered and
        a discovery runs (one already running is cancelled first). */
    method StartBluetoothDiscovery(bonded: seq<Device>, connectAllowed: bool, scanAllowed: bool)
      requires Valid()
      modifies this
      ensures Valid()
      ensures devices == (if connectAllowed then BondedMatches(bonded) else [])
      ensures labels == (if connectAllowed then BondedLabels(bonded) else [])
      ensures scanAllowed ==> receiverRegistered && discovering
      ensures !scanAllowed ==> receiverRegistered == old(receiverRegistered) && discovering == old(discovering)
    {
      devices := [];
      labels := [];
      ListBondedDevices(bonded, connectAllowed);
      if !scanAllowed {
        return;
      }
      if discovering {
        discovering := false;
      }
      receiverRegistered := true;
      discovering := true;
    }

    /** `mReceiver.onReceive`: a found device whose name is readable and
        passes the filter is appended, with its bare name as label, unless it
        is already bonded. Nothing is removed and no duplicate check is made.
        `nameReadable` says that the platform is older than API level S or
        that the connect permission is granted; otherwise the name is taken
        as null. */
    method OnReceive(action: string, device: Option<Device>, nameReadable: bool)
      requires Valid()
      modifies this`devices, this`labels
      ensures Valid()
      ensures if action == ActionFound && device.Some? && nameReadable
                 && device.value.name.Some? && NameMatches(device.value.name.value)
                 && device.value.bond != Bonded
              then devices == old(devices) + [device.value] && labels == old(labels) + [device.value.name.value]
              else devices == old(devices) && labels == old(labels)
    {
      if action != ActionFound || device.None? {
        return;
      }
      var d := device.value;
      var deviceName: Option<string> := None;
      if nameReadable {
        deviceName := d.name;
      }
      var shown := if deviceName.None? then ScanPlaceholder else deviceName.value;
      NamelessNeverListed(deviceName, ScanPlaceholder);
      if NameMatches(shown) {
        if d.bond != Bonded {
          devices := devices + [d];
          var listItem := shown;
          labels := labels + [listItem];
        }
      }
    }

    /** `stopDiscovery`: without the scan permission nothing changes;
        otherwise any running discovery is cancelled and the receiver is
        unregistered (a failure to unregister is only logged), so a second
        call finds nothing left to do. */
    method StopDiscovery(scanAllowed: bool)
      modifies this`receiverRegistered, this`discovering
      ensures scanAllowed ==> !receiverRegistered && !discovering
      ensures !scanAllowed ==> receiverRegistered == old(receiverRegistered) && discovering == old(discovering)
    {
      if !scanAllowed {
        return;
      }
      if discovering {
        discovering := false;
      }
      if receiverRegistered {
        receiverRegistered := false;
      }
    }

    /** The item-click handler: the device at the clicked label position is
        handed on by address, and a bond is requested first when the device
        reports, at the moment of the click, that it is not bonded
        (`bondNow`: the bond state may have changed since it was listed). */
    method ChooseDevice(position: nat, bondNow: BondState) returns (address: string, requestBond: bool)
      requires Valid()
      requires position < |labels|
      ensures address == devices[position].address
      ensures requestBond <==> bondNow != Bonded
      ensures Describes(labels[position], devices[position])
    {
      var chosen := devices[position];
      requestBond := bondNow != Bonded;
      address := chosen.address;
    }
  }
}
