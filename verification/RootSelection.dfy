/**
 What same-root selection promises about PCIe roots.  The code files devices without a root
 under "~unknown", so devices that name that very root are filed with them.
 */
module RootSelection {
  import opened Orders
  import opened Api
  import opened Topology
  import opened SnapshotProperties
  import opened Groups
  import opened Selection

  /** Every same-root selection from these devices is a set of devices on one root. */
  ghost predicate AlwaysOneRoot(devices: seq<Device>, allowUnknown: bool) {
    forall k: nat :: k >= 1 ==> SelectsOneRoot(devices, allowUnknown, k)
  }

  ghost predicate SelectsOneRoot(devices: seq<Device>, allowUnknown: bool, k: nat) {
    OneRoot(devices, allowUnknown, Elements(GroupSelection(devices, RootLabel(allowUnknown), k)))
  }

  /**
   Devices without a root and devices on a root named "~unknown" share a group, and no group
   of the same size whose root sorts first is preferred to it.
   */
  ghost predicate LabelMixes(devices: seq<Device>, allowUnknown: bool) {
    && allowUnknown && Rootless(devices) > 0 && Mislabelled(devices) > 0
    && forall x :: x != "" && Less(x, UNKNOWN) ==>
         |Members(devices, RootKey(true), x)| != Rootless(devices) + Mislabelled(devices)
  }

  /** Same-root selections stay on one root, for every request, if and only if the label does not mix roots. */
  lemma SelectionsShareRoot(devices: seq<Device>, allowUnknown: bool)
    requires Ascending(IdList(devices))
    ensures AlwaysOneRoot(devices, allowUnknown) <==> !LabelMixes(devices, allowUnknown)
  {
    if LabelMixes(devices, allowUnknown) {
      MixedSelection(devices);
    } else {
      forall k: nat | k >= 1
        ensures SelectsOneRoot(devices, allowUnknown, k)
      {
        UnmixedSelection(devices, allowUnknown, k);
      }
    }
  }

  lemma UnmixedSelection(devices: seq<Device>, allowUnknown: bool, k: nat)
    requires k >= 1 && Ascending(IdList(devices)) && !LabelMixes(devices, allowUnknown)
    ensures SelectsOneRoot(devices, allowUnknown, k)
  {
    var key := RootLabel(allowUnknown);
    var r := GroupSelection(devices, key, k);
    if r != [] {
      GroupSelectionSound(devices, key, k);
      BestKeyIsBestFit(devices, key, k);
      if BestKey(devices, key, k, |devices|) == Some(UNKNOWN) && allowUnknown {
        OneKindOfUnknown(devices, k);
      }
    }
  }

  /** If the merged group is preferred although it does not mix, one of the two kinds of device is missing. */
  lemma OneKindOfUnknown(devices: seq<Device>, k: nat)
    requires BestFit(devices, RootLabel(true), k, UNKNOWN) && !LabelMixes(devices, true)
    ensures (forall d :: d in devices ==> d.pcieRoot != "") || (forall d :: d in devices ==> d.pcieRoot != UNKNOWN)
  {
    var bare, literal := (d: Device) => d.pcieRoot == "", (d: Device) => d.pcieRoot == UNKNOWN;
    FilterExact(devices, bare);
    FilterExact(devices, literal);
    RootLabelGroups(devices, true, UNKNOWN);
    if Rootless(devices) > 0 && Mislabelled(devices) > 0 {
      var x :| && x != "" && Less(x, UNKNOWN)
               && |Members(devices, RootKey(true), x)| == Rootless(devices) + Mislabelled(devices);
      LessIrreflexive(UNKNOWN);
      RootLabelGroups(devices, true, x);
    }
  }

  lemma MixedSelection(devices: seq<Device>)
    requires Ascending(IdList(devices)) && LabelMixes(devices, true)
    ensures !AlwaysOneRoot(devices, true)
  {
    var key := RootLabel(true);
    var group := Members(devices, key, UNKNOWN);
    MixedGroupIsBest(devices);
    GroupSelectionBestFit(devices, key, |group|);
    assert group[..|group|] == group;
    var r := GroupSelection(devices, key, |group|);
    assert r == IdList(group);
    var d := Filter(devices, (d: Device) => d.pcieRoot == "")[0];
    var e := Filter(devices, (d: Device) => d.pcieRoot == UNKNOWN)[0];
    FilterExact(devices, (d: Device) => d.pcieRoot == "");
    FilterExact(devices, (d: Device) => d.pcieRoot == UNKNOWN);
    FilterExact(devices, HasKey(key, UNKNOWN));
    IdsListed(group);
    assert d in group && e in group;
    assert d.id in IdsOf(group) && e.id in IdsOf(group);
    assert !SelectsOneRoot(devices, true, |group|);
  }

  /** A request for the whole merged group is served from it. */
  lemma MixedGroupIsBest(devices: seq<Device>)
    requires LabelMixes(devices, true)
    ensures |Members(devices, RootLabel(true), UNKNOWN)| >= 2
    ensures BestFit(devices, RootLabel(true), |Members(devices, RootLabel(true), UNKNOWN)|, UNKNOWN)
  {
    var key := RootLabel(true);
    var n := |Members(devices, key, UNKNOWN)|;
    RootLabelGroups(devices, true, UNKNOWN);
    LessIrreflexive(UNKNOWN);
    forall y | |Members(devices, key, y)| >= n
      ensures Before(devices, key, UNKNOWN, y)
    {
      RootLabelGroups(devices, true, y);
      LessTotal(y, UNKNOWN);
    }
  }

}
