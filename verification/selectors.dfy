/** Lookup-by-key selectors over the probe readings: filesystem usage by mount
    point and temperature by sensor label. Both scan the whole list and keep
    the reading of the LAST element whose key matches. */
module Selectors {
  import opened Outcomes
  import opened RustInt

  /** A mount point as the selectors see it after `to_str()`: a string when
      the path is valid UTF-8, nothing otherwise. */
  datatype MountPath = Utf8(path: string) | NotUtf8

  /** One disk as the disk probe lists it. */
  datatype Disk = Disk(mountPoint: MountPath, totalSpace: U64, availableSpace: U64)

  /** One thermal sensor, its reading already converted to an integer. */
  datatype Component = Component(sensorLabel: string, temperature: I32)

  /** A usage percentage: the literal 0.0 used when no disk matches, or the
      floating-point quotient `used / total * 100`, kept by its operands. */
  datatype Percent = Zero | UsedOf(used: nat, total: nat)

  const ROOT_MOUNT: string := "/"

  /** Position `i` holds the last disk mounted at `m`. */
  predicate IsLastMount(disks: seq<Disk>, m: string, i: int) {
    0 <= i < |disks| && disks[i].mountPoint == Utf8(m) &&
    forall j :: i < j < |disks| ==> disks[j].mountPoint != Utf8(m)
  }

  predicate NoMount(disks: seq<Disk>, m: string) {
    forall j :: 0 <= j < |disks| ==> disks[j].mountPoint != Utf8(m)
  }

  /** Every listed mount point converts to a string, so no `unwrap` fails. */
  predicate MountsReadable(disks: seq<Disk>) {
    forall j :: 0 <= j < |disks| ==> disks[j].mountPoint.Utf8?
  }

  /** Every mount point is readable and every disk mounted at `m` reports no
      more free than total space, so the `u64` subtraction
      `total - available` does not underflow. */
  predicate UsageDefined(disks: seq<Disk>, m: string) {
    MountsReadable(disks) &&
    forall j :: 0 <= j < |disks| && disks[j].mountPoint == Utf8(m) ==>
      disks[j].availableSpace <= disks[j].totalSpace
  }

  /** Usage of one disk; panics when it reports more free than total space. */
  function DiskUsage(d: Disk): (r: Outcome<Percent>)
    ensures r.Ok? <==> d.availableSpace <= d.totalSpace
    ensures r.Ok? ==> r.value == UsedOf(d.totalSpace - d.availableSpace, d.totalSpace)
  {
    var used :- SubUnsigned(d.totalSpace, d.availableSpace);
    Ok(UsedOf(used, d.totalSpace))
  }

  /** `get_fs_use(disks, m)`: the usage of the last disk mounted at `m`, or
      0.0 when none is. Every disk's mount point is unwrapped and every
      matching disk is evaluated on the way, so an unreadable mount point
      anywhere in the list, or a matching disk with more free than total
      space, panics. */
  function FsUse(disks: seq<Disk>, m: string): (r: Outcome<Percent>)
    ensures r.Ok? <==> UsageDefined(disks, m)
    ensures r.Panic? ==> r.cause == UnwrapNone || r.cause == ArithmeticOverflow
    ensures r.Panic? && MountsReadable(disks) ==> r.cause == ArithmeticOverflow
    ensures r.Ok? && NoMount(disks, m) ==> r.value == Zero
    ensures forall i :: IsLastMount(disks, m, i) && r.Ok? ==>
      r.value == UsedOf(disks[i].totalSpace - disks[i].availableSpace, disks[i].totalSpace)
  {
    if |disks| == 0 then Ok(Zero)
    else
      var init, d := disks[..|disks| - 1], disks[|disks| - 1];
      assert forall i :: IsLastMount(disks, m, i) && i < |disks| - 1 ==> IsLastMount(init, m, i);
      assert MountsReadable(disks) <==> MountsReadable(init) && d.mountPoint.Utf8?;
      assert UsageDefined(disks, m) <==>
        UsageDefined(init, m) && d.mountPoint.Utf8? &&
        (d.mountPoint == Utf8(m) ==> d.availableSpace <= d.totalSpace);
      var acc :- FsUse(init, m);
      if d.mountPoint.NotUtf8? then Panic(UnwrapNone)
      else if d.mountPoint.path == m then DiskUsage(d)
      else Ok(acc)
  }

  /** `get_root_use(disks)`: the usage of the last disk mounted at `/`. */
  function RootUse(disks: seq<Disk>): (r: Outcome<Percent>)
    ensures r.Ok? <==> UsageDefined(disks, ROOT_MOUNT)
    ensures r.Ok? && NoMount(disks, ROOT_MOUNT) ==> r.value == Zero
    ensures forall i :: IsLastMount(disks, ROOT_MOUNT, i) && r.Ok? ==>
      r.value == UsedOf(disks[i].totalSpace - disks[i].availableSpace, disks[i].totalSpace)
  {
    FsUse(disks, ROOT_MOUNT)
  }

  /** A mount point that is not valid UTF-8 makes `get_root_use` panic even
      when the root filesystem is listed and readable. */
  lemma UnreadableMountPanics()
    ensures RootUse([Disk(Utf8("/"), 100, 40), Disk(NotUtf8, 10, 5)]) == Panic(UnwrapNone)
  {
  }

  /** Every mount point that appears has a last occurrence, so the two cases
      of `FsUse`'s contract cover all inputs. */
  lemma {:induction false} LastMountExists(disks: seq<Disk>, m: string)
    requires !NoMount(disks, m)
    ensures exists i :: IsLastMount(disks, m, i)
  {
    var n := |disks| - 1;
    if disks[n].mountPoint == Utf8(m) {
      assert IsLastMount(disks, m, n);
    } else {
      var init := disks[..n];
      assert !NoMount(init, m);
      LastMountExists(init, m);
      var i :| IsLastMount(init, m, i);
      assert IsLastMount(disks, m, i);
    }
  }

  /** Position `i` holds the last sensor labelled `item`. */
  predicate IsLastLabel(comps: seq<Component>, item: string, i: int) {
    0 <= i < |comps| && comps[i].sensorLabel == item &&
    forall j :: i < j < |comps| ==> comps[j].sensorLabel != item
  }

  predicate NoLabel(comps: seq<Component>, item: string) {
    forall j :: 0 <= j < |comps| ==> comps[j].sensorLabel != item
  }

  const NO_SENSOR: I32 := -1

  /** `get_temp(comps, item)`: the reading of the last sensor labelled
      `item`, or -1 when none is. */
  function GetTemp(comps: seq<Component>, item: string): (r: I32)
    ensures NoLabel(comps, item) ==> r == NO_SENSOR
    ensures forall i :: IsLastLabel(comps, item, i) ==> r == comps[i].temperature
  {
    if |comps| == 0 then NO_SENSOR
    else
      var init, c := comps[..|comps| - 1], comps[|comps| - 1];
      assert forall i :: IsLastLabel(comps, item, i) && i < |comps| - 1 ==> IsLastLabel(init, item, i);
      if c.sensorLabel == item then c.temperature else GetTemp(init, item)
  }

  /** Every label that appears has a last occurrence, so the two cases of
      `GetTemp`'s contract cover all inputs. */
  lemma {:induction false} LastLabelExists(comps: seq<Component>, item: string)
    requires !NoLabel(comps, item)
    ensures exists i :: IsLastLabel(comps, item, i)
  {
    var n := |comps| - 1;
    if comps[n].sensorLabel == item {
      assert IsLastLabel(comps, item, n);
    } else {
      var init := comps[..n];
      assert !NoLabel(init, item);
      LastLabelExists(init, item);
      var i :| IsLastLabel(init, item, i);
      assert IsLastLabel(comps, item, i);
    }
  }
}
