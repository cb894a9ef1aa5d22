// scripts/patch-add-devices-endpoint-v1.py: the device snapshot behind `/api/devices` (root
// parent, boot mode, mount points and the "Option A" flash-target rule) and the insertion of
// the endpoint into app/app.py. The outputs of findmnt and lsblk are inputs here; json.loads is
// an input too (the parsed value, or None when it raises).
module Devices {
  import opened Common
  import opened Text
  import opened PyValue
  import opened Lines
  import opened AppLines

  // ---------------------------------------------------------------------------------------
  // Root source, root parent and boot mode

  /** `out.strip() if rc == 0 else ""` for `findmnt -no SOURCE /`. */
  function RootSource(rc: int, out: string): string {
    if rc == 0 then Strip(out) else ""
  }

  predicate NotSlash(c: char) { c != '/' }

  /** `os.path.basename(p)`: the text after the last '/'. */
  function Basename(p: string): (r: string)
    ensures '/' !in r
    ensures EndsWith(p, r)
    ensures |r| < |p| ==> p[|p| - |r| - 1] == '/'
  {
    p[|p| - SuffixLen(p, NotSlash)..]
  }

  /** The fallback when `lsblk -no PKNAME` prints nothing: an nvme or mmcblk name holding a 'p'
      keeps what comes before its first 'p'; any other name loses its trailing digits
      (`re.sub(r"\d+$", "", name)`). */
  function FallbackParent(name: string): (r: string)
    ensures r <= name
    ensures (StartsWith(name, "nvme") || StartsWith(name, "mmcblk")) && 'p' in name ==>
              'p' !in r && name[|r|] == 'p'
    ensures !((StartsWith(name, "nvme") || StartsWith(name, "mmcblk")) && 'p' in name) ==>
              (r == [] || !IsDigit(r[|r| - 1])) && forall i :: |r| <= i < |name| ==> IsDigit(name[i])
  {
    if (StartsWith(name, "nvme") || StartsWith(name, "mmcblk")) && 'p' in name then BeforeFirst(name, 'p')
    else RStripWhile(name, IsDigit)
  }

  /** The root parent: empty without a root source; otherwise lsblk's PKNAME, or the fallback
      on the base name of the root source when that is empty. */
  function RootParent(rootSource: string, pkOut: string): string {
    if rootSource == "" then ""
    else if Strip(pkOut) != "" then Strip(pkOut)
    else FallbackParent(ReplaceAll(Basename(rootSource), "/dev/", ""))
  }

  /** Removing "/dev/" from a base name changes nothing: a base name holds no '/'. */
  lemma RootParentFallback(rootSource: string, pkOut: string)
    requires rootSource != "" && Strip(pkOut) == ""
    ensures RootParent(rootSource, pkOut) == FallbackParent(Basename(rootSource))
  {
    MissingCharNoText(Basename(rootSource), "/dev/", '/');
  }

  datatype Mode = SD | NVME | UNKNOWN

  /** Booted from SD when the root parent is an mmcblk device, from NVMe when it is an nvme
      device. */
  function ModeOf(rootParent: string): Mode {
    if StartsWith(rootParent, "mmcblk") then SD
    else if StartsWith(rootParent, "nvme") then NVME
    else UNKNOWN
  }

  function ModeName(m: Mode): string {
    match m
    case SD => "SD"
    case NVME => "NVME"
    case UNKNOWN => "UNKNOWN"
  }

  /** The fallback never changes the boot mode a device name implies: "mmcblk" and "nvme" hold
      no 'p' and do not end in a digit, so their prefix survives, and a prefix of a name that
      has neither cannot start with either. */
  lemma FallbackKeepsMode(name: string)
    ensures ModeOf(FallbackParent(name)) == ModeOf(name)
  {
    var r := FallbackParent(name);
    var p := (StartsWith(name, "nvme") || StartsWith(name, "mmcblk")) && 'p' in name;
    if StartsWith(name, "mmcblk") {
      assert |r| >= 6 by {
        if p {
          assert forall i :: 0 <= i < 6 ==> name[i] != 'p';
        } else {
          assert !IsDigit(name[5]);
        }
      }
      assert r[..6] == name[..6];
    } else if StartsWith(name, "nvme") {
      assert |r| >= 4 by {
        if p {
          assert forall i :: 0 <= i < 4 ==> name[i] != 'p';
        } else {
          assert !IsDigit(name[3]);
        }
      }
      assert r[..4] == name[..4];
    } else {
      assert !StartsWith(r, "mmcblk") by {
        if |r| >= 6 {
          assert r[..6] == name[..6];
        }
      }
      assert !StartsWith(r, "nvme") by {
        if |r| >= 4 {
          assert r[..4] == name[..4];
        }
      }
    }
  }

  // ---------------------------------------------------------------------------------------
  // Mount points

  /** The node's own mount points: the truthy entries of a `mountpoints` list, or a non-empty
      `mountpoint` string. */
  function OwnMountpoints(mp: Json): (r: seq<Json>)
    ensures forall i :: 0 <= i < |r| ==> Truthy(r[i])
  {
    match mp
    case JList(xs) => KeepTruthy(xs)
    case JStr(s) => if s != "" then [mp] else []
    case _ => []
  }

  /** `[x for x in xs if x]` */
  function KeepTruthy(xs: seq<Json>): (r: seq<Json>)
    ensures forall i :: 0 <= i < |r| ==> Truthy(r[i]) && r[i] in xs
    ensures forall x :: x in xs && Truthy(x) ==> x in r
  {
    if xs == [] then [] else (if Truthy(xs[0]) then [xs[0]] else []) + KeepTruthy(xs[1..])
  }

  /** A tree `collect_mountpoints` can walk: a dict whose `children`, when truthy, is a list of
      such trees. */
  predicate IsTree(node: Json)
    decreases node
  {
    && node.JDict?
    && var ch := Get(node, "children");
       (!Truthy(ch) || (ch.JList? && forall i :: 0 <= i < |ch.items| ==> IsTree(ch.items[i])))
  }

  /** `collect_mountpoints(node)`: the node's own mount points, then those of each child in
      order; None where Python raises (a node that is not a dict, or truthy `children` that are
      not a list). Every collected entry is truthy, and the walk raises exactly on non-trees. */
  function Mountpoints(node: Json): (r: Option<seq<Json>>)
    ensures r.Some? <==> IsTree(node)
    ensures r.Some? ==> forall x :: x in r.value ==> Truthy(x)
    decreases node, 0
  {
    if !node.JDict? then None
    else
      var own := OwnMountpoints(Or(Get(node, "mountpoints"), Get(node, "mountpoint")));
      var ch := Get(node, "children");
      if !Truthy(ch) then Some(own)
      else if !ch.JList? then None
      else match ChildMountpoints(ch, 0)
        case None => None
        case Some(rest) => Some(own + rest)
  }

  /** `for ch in children[k:]: mps += collect_mountpoints(ch)` */
  function ChildMountpoints(children: Json, k: nat): (r: Option<seq<Json>>)
    requires children.JList? && k <= |children.items|
    ensures r.Some? <==> forall i :: k <= i < |children.items| ==> IsTree(children.items[i])
    ensures r.Some? ==> forall x :: x in r.value ==> Truthy(x)
    decreases children, |children.items| - k
  {
    if k == |children.items| then Some([])
    else match Mountpoints(children.items[k])
      case None => None
      case Some(a) =>
        match ChildMountpoints(children, k + 1)
        case None => None
        case Some(b) => Some(a + b)
  }

  // ---------------------------------------------------------------------------------------
  // The Option A rule

  /** `name.startswith(("ram", "zram", "loop"))` */
  predicate Skipped(name: string) {
    StartsWith(name, "ram") || StartsWith(name, "zram") || StartsWith(name, "loop")
  }

  /** What each boot mode lets through: from SD only NVMe targets, from NVMe only SD cards or
      USB disks, and nothing when the mode is unknown. */
  predicate ModeAllows(mode: Mode, name: string, tran: Json) {
    match mode
    case SD => StartsWith(name, "nvme") || tran == JStr("nvme")
    case NVME => StartsWith(name, "mmcblk") || tran == JStr("usb")
    case UNKNOWN => false
  }

  function ModeReason(mode: Mode): string {
    match mode
    case SD => "mode_SD_allows_only_nvme_targets"
    case NVME => "mode_NVME_allows_only_sd_or_usb_targets"
    case UNKNOWN => "mode_unknown"
  }

  /** The reasons against a disk, in the order the rules run. */
  function WhyNot(name: string, tran: Json, mps: seq<Json>, rootParent: string, mode: Mode): seq<string> {
    (if name == rootParent then ["is_root_parent"] else [])
    + (if mps != [] then ["mounted"] else [])
    + (if ModeAllows(mode, name, tran) then [] else [ModeReason(mode)])
  }

  /** A flash target under Option A: not the disk the system runs from, not mounted anywhere,
      and of the kind the boot mode allows. */
  predicate AllowedTarget(name: string, tran: Json, mps: seq<Json>, rootParent: string, mode: Mode) {
    name != rootParent && mps == [] && ModeAllows(mode, name, tran)
  }

  /** A disk is allowed exactly when there is no reason against it. */
  lemma AllowedIffNoReasons(name: string, tran: Json, mps: seq<Json>, rootParent: string, mode: Mode)
    ensures AllowedTarget(name, tran, mps, rootParent, mode) <==> WhyNot(name, tran, mps, rootParent, mode) == []
  {
  }

  /** One entry of `disks`. */
  datatype Disk = Disk(name: string, path: Json, size: Json, model: Json, tran: Json, rm: Json, ro: Json,
                       mountpoints: seq<Json>, isRootParent: bool, allowed: bool, whyNot: seq<string>)

  /** `d.get("name") or ""`; None when that is a truthy non-string (its `startswith` raises). */
  function NameOf(d: Json): Option<string>
    requires d.JDict?
  {
    var v := Get(d, "name");
    if !Truthy(v) then Some("") else if v.JStr? then Some(v.s) else None
  }

  /** What the loop does with one lsblk entry. */
  datatype Row = Raises | Skip | Keep(disk: Disk)

  function RowOf(d: Json, rootParent: string, mode: Mode): Row {
    if !d.JDict? then Raises
    else if Get(d, "type") != JStr("disk") then Skip
    else match NameOf(d)
      case None => Raises
      case Some(name) =>
        if Skipped(name) then Skip
        else match Mountpoints(d)
          case None => Raises
          case Some(mps) =>
            var tran := Get(d, "tran");
            Keep(Disk(name, Get(d, "path"), Get(d, "size"), Get(d, "model"), tran, Get(d, "rm"), Get(d, "ro"),
                      mps, name == rootParent, AllowedTarget(name, tran, mps, rootParent, mode),
                      WhyNot(name, tran, mps, rootParent, mode)))
  }

  /** `disks_out` after the loop over `blocks`; None when the loop raises. */
  function DisksOut(blocks: seq<Json>, rootParent: string, mode: Mode): Option<seq<Disk>>
    decreases |blocks|
  {
    if blocks == [] then Some([])
    else match DisksOut(blocks[..|blocks| - 1], rootParent, mode)
      case None => None
      case Some(acc) =>
        match RowOf(blocks[|blocks| - 1], rootParent, mode)
        case Raises => None
        case Skip => Some(acc)
        case Keep(disk) => Some(acc + [disk])
  }

  /** The rules for one disk, run in order: each failed rule clears the `allowed` flag and
      appends its reason to `why`. */
  method Judge(name: string, tran: Json, mps: seq<Json>, rootParent: string, mode: Mode)
    returns (allowed: bool, why: seq<string>)
    ensures allowed == AllowedTarget(name, tran, mps, rootParent, mode)
    ensures why == WhyNot(name, tran, mps, rootParent, mode)
  {
    allowed, why := PlaceRules(name, mps, rootParent);
    allowed, why := ModeRule(name, tran, mode, allowed, why);
  }

  /** The first two rules: not the disk the system runs from, and not mounted. */
  method PlaceRules(name: string, mps: seq<Json>, rootParent: string) returns (allowed: bool, why: seq<string>)
    ensures allowed == (name != rootParent && mps == [])
    ensures why == (if name == rootParent then ["is_root_parent"] else []) + (if mps != [] then ["mounted"] else [])
  {
    allowed := true;
    why := [];
    if name == rootParent {
      allowed := false;
      why := why + ["is_root_parent"];
    }
    if mps != [] {
      allowed := false;
      why := why + ["mounted"];
    }
  }

  /** The Option A rule for the boot mode, applied after the first two. */
  method ModeRule(name: string, tran: Json, mode: Mode, allowed0: bool, why0: seq<string>)
    returns (allowed: bool, why: seq<string>)
    ensures allowed == (allowed0 && ModeAllows(mode, name, tran))
    ensures why == why0 + (if ModeAllows(mode, name, tran) then [] else [ModeReason(mode)])
  {
    allowed, why := allowed0, why0;
    match mode {
      case SD =>
        if !(StartsWith(name, "nvme") || tran == JStr("nvme")) {
          allowed := false;
          why := why + ["mode_SD_allows_only_nvme_targets"];
        }
      case NVME =>
        if !(StartsWith(name, "mmcblk") || tran == JStr("usb")) {
          allowed := false;
          why := why + ["mode_NVME_allows_only_sd_or_usb_targets"];
        }
      case UNKNOWN =>
        allowed := false;
        why := why + ["mode_unknown"];
    }
  }

  /** The body of the loop for one lsblk entry. */
  method ClassifyOne(d: Json, rootParent: string, mode: Mode) returns (row: Row)
    ensures row == RowOf(d, rootParent, mode)
  {
    if !d.JDict? {
      return Raises;
    }
    if Get(d, "type") != JStr("disk") {
      return Skip;
    }
    var v := Get(d, "name");
    var name := "";
    if Truthy(v) {
      if !v.JStr? {
        return Raises;
      }
      name := v.s;
    }
    if Skipped(name) {
      return Skip;
    }
    var mps := Mountpoints(d);
    if mps.None? {
      return Raises;
    }
    var tran := Get(d, "tran");
    var allowed, why := Judge(name, tran, mps.value, rootParent, mode);
    row := Keep(Disk(name, Get(d, "path"), Get(d, "size"), Get(d, "model"), tran, Get(d, "rm"), Get(d, "ro"),
                     mps.value, name == rootParent, allowed, why));
  }

  /** The per-disk loop over `blocks`, appending each kept entry to `disks_out`. */
  method ClassifyDisks(blocks: seq<Json>, rootParent: string, mode: Mode) returns (r: Option<seq<Disk>>)
    ensures r == DisksOut(blocks, rootParent, mode)
  {
    var out: seq<Disk> := [];
    var k := 0;
    while k < |blocks|
      invariant 0 <= k <= |blocks|
      invariant DisksOut(blocks[..k], rootParent, mode) == Some(out)
    {
      assert blocks[..k + 1][..k] == blocks[..k];
      var row := ClassifyOne(blocks[k], rootParent, mode);
      match row {
        case Raises =>
          DisksOutRaises(blocks, k, rootParent, mode);
          return None;
        case Skip =>
        case Keep(disk) =>
          out := out + [disk];
      }
      k := k + 1;
    }
    assert blocks[..k] == blocks;
    r := Some(out);
  }

  /** Once the loop raises, it has raised for the whole list. */
  lemma {:induction false} DisksOutRaises(blocks: seq<Json>, k: nat, rootParent: string, mode: Mode)
    requires k < |blocks| && DisksOut(blocks[..k + 1], rootParent, mode).None?
    ensures DisksOut(blocks, rootParent, mode).None?
    decreases |blocks| - k
  {
    if k + 1 < |blocks| {
      assert blocks[..k + 2][..k + 1] == blocks[..k + 1];
      DisksOutRaises(blocks, k + 1, rootParent, mode);
    } else {
      assert blocks[..k + 1] == blocks;
    }
  }

  /** What every entry of the output says about itself: its name is a disk name that is not a
      RAM, zram or loop device; it is the root parent exactly when its name is; it is allowed
      exactly when there is no reason against it, that is when it is not the root parent, has
      no mount point and is of the kind the boot mode allows. */
  predicate EntryHolds(e: Disk, rootParent: string, mode: Mode) {
    && !Skipped(e.name)
    && e.isRootParent == (e.name == rootParent)
    && e.whyNot == WhyNot(e.name, e.tran, e.mountpoints, rootParent, mode)
    && (e.allowed <==> e.whyNot == [])
    && (e.allowed <==> !e.isRootParent && e.mountpoints == [] && ModeAllows(mode, e.name, e.tran))
    && (forall x :: x in e.mountpoints ==> Truthy(x))
  }

  /** A kept row comes from a dict of type "disk" and describes it. */
  lemma KeptRow(d: Json, rootParent: string, mode: Mode)
    requires RowOf(d, rootParent, mode).Keep?
    ensures d.JDict? && Get(d, "type") == JStr("disk")
    ensures NameOf(d) == Some(RowOf(d, rootParent, mode).disk.name)
    ensures EntryHolds(RowOf(d, rootParent, mode).disk, rootParent, mode)
  {
    var e := RowOf(d, rootParent, mode).disk;
    AllowedIffNoReasons(e.name, e.tran, e.mountpoints, rootParent, mode);
  }

  /** Every entry of the output holds, and comes from an entry of `blocks` of type "disk" with
      that name. */
  lemma {:induction false} DisksOutEntries(blocks: seq<Json>, rootParent: string, mode: Mode)
    requires DisksOut(blocks, rootParent, mode).Some?
    ensures forall e :: e in DisksOut(blocks, rootParent, mode).value ==>
      EntryHolds(e, rootParent, mode) &&
      exists i :: 0 <= i < |blocks| && RowOf(blocks[i], rootParent, mode) == Keep(e)
    decreases |blocks|
  {
    if blocks != [] {
      var init, last := blocks[..|blocks| - 1], blocks[|blocks| - 1];
      DisksOutEntries(init, rootParent, mode);
      var acc := DisksOut(init, rootParent, mode).value;
      var row := RowOf(last, rootParent, mode);
      var out := DisksOut(blocks, rootParent, mode).value;
      assert out == if row.Keep? then acc + [row.disk] else acc;
      if row.Keep? {
        KeptRow(last, rootParent, mode);
      }
      forall e | e in out
        ensures EntryHolds(e, rootParent, mode)
        ensures exists i :: 0 <= i < |blocks| && RowOf(blocks[i], rootParent, mode) == Keep(e)
      {
        if e in acc {
          var i :| 0 <= i < |init| && RowOf(init[i], rootParent, mode) == Keep(e);
          assert blocks[i] == init[i];
        } else {
          assert row == Keep(e);
        }
      }
    }
  }

  /** With the boot mode unknown nothing is allowed; the root-parent disk and any mounted disk
      never are. */
  lemma NothingAllowedWhen(blocks: seq<Json>, rootParent: string, mode: Mode, e: Disk)
    requires DisksOut(blocks, rootParent, mode).Some? && e in DisksOut(blocks, rootParent, mode).value
    ensures mode == UNKNOWN ==> !e.allowed
    ensures e.name == rootParent ==> !e.allowed
    ensures e.mountpoints != [] ==> !e.allowed
  {
    DisksOutEntries(blocks, rootParent, mode);
  }

  /** The loop keeps the order of `blocks`: classifying two lists one after the other gives the
      two outputs one after the other. */
  lemma {:induction false} DisksOutAppend(a: seq<Json>, b: seq<Json>, rootParent: string, mode: Mode)
    requires DisksOut(a, rootParent, mode).Some? && DisksOut(b, rootParent, mode).Some?
    ensures DisksOut(a + b, rootParent, mode) == Some(DisksOut(a, rootParent, mode).value + DisksOut(b, rootParent, mode).value)
    decreases |b|
  {
    var ra := DisksOut(a, rootParent, mode).value;
    if b == [] {
      assert a + b == a;
      assert ra + [] == ra;
    } else {
      var init := b[..|b| - 1];
      assert (a + b)[..|a + b| - 1] == a + init;
      assert (a + b)[|a + b| - 1] == b[|b| - 1];
      DisksOutAppend(a, init, rootParent, mode);
      var ri := DisksOut(init, rootParent, mode).value;
      match RowOf(b[|b| - 1], rootParent, mode)
      case Keep(disk) =>
        assert (ra + ri) + [disk] == ra + (ri + [disk]);
      case Skip =>
      case Raises =>
    }
  }

  // ---------------------------------------------------------------------------------------
  // The snapshot

  /** What `device_snapshot()` returns (the endpoint adds `"ok": True`). */
  datatype Snapshot = Snapshot(generatedAt: Json, rootSource: string, rootParent: string, mode: string, disks: seq<Disk>)

  /** `(lsblk_json.get("blockdevices") if isinstance(lsblk_json, dict) else None) or []`, where
      `lsblk_json` stays `{}` unless lsblk succeeded with output, and is an error dict (without
      "blockdevices") when that output does not parse. */
  function Blocks(rc: int, out: string, parsed: Option<Json>): Json {
    var lsblk := if rc == 0 && Strip(out) != "" && parsed.Some? then parsed.value else JDict(map[]);
    Or(if lsblk.JDict? then Get(lsblk, "blockdevices") else JNull, JList([]))
  }

  /** `device_snapshot()`; None when it raises. Iterating a truthy non-list raises (a dict's
      keys and a string's characters have no `get`, a number is not iterable). */
  function DeviceSnapshot(findmntRc: int, findmntOut: string, pkOut: string,
                          lsblkRc: int, lsblkOut: string, parsed: Option<Json>, now: Json): Option<Snapshot>
  {
    var rs := RootSource(findmntRc, findmntOut);
    var rp := RootParent(rs, pkOut);
    var mode := ModeOf(rp);
    match Blocks(lsblkRc, lsblkOut, parsed)
    case JList(bs) =>
      (match DisksOut(bs, rp, mode)
       case None => None
       case Some(disks) => Some(Snapshot(now, rs, rp, ModeName(mode), disks)))
    case _ => None
  }

  /** Without a usable lsblk listing the snapshot has no disks (and does not raise). */
  lemma NoListingNoDisks(findmntRc: int, findmntOut: string, pkOut: string,
                         lsblkRc: int, lsblkOut: string, parsed: Option<Json>, now: Json)
    requires lsblkRc != 0 || Strip(lsblkOut) == "" || parsed.None?
    ensures DeviceSnapshot(findmntRc, findmntOut, pkOut, lsblkRc, lsblkOut, parsed, now).Some?
    ensures DeviceSnapshot(findmntRc, findmntOut, pkOut, lsblkRc, lsblkOut, parsed, now).value.disks == []
  {
    assert Get(JDict(map[]), "blockdevices") == JNull;
    assert Blocks(lsblkRc, lsblkOut, parsed) == JList([]);
  }

  /** Without a root source there is no root parent and the mode is unknown, so no disk is
      allowed. */
  lemma NoRootNoTargets(findmntOut: string, pkOut: string, lsblkRc: int, lsblkOut: string,
                        parsed: Option<Json>, now: Json, findmntRc: int, e: Disk)
    requires findmntRc != 0
    requires DeviceSnapshot(findmntRc, findmntOut, pkOut, lsblkRc, lsblkOut, parsed, now).Some?
    requires e in DeviceSnapshot(findmntRc, findmntOut, pkOut, lsblkRc, lsblkOut, parsed, now).value.disks
    ensures !e.allowed && e.whyNot != [] && e.whyNot[|e.whyNot| - 1] == "mode_unknown"
  {
    var bs := Blocks(lsblkRc, lsblkOut, parsed).items;
    assert ModeOf("") == UNKNOWN;
    DisksOutEntries(bs, "", UNKNOWN);
  }

  // ---------------------------------------------------------------------------------------
  // The script

  const Marker := "API_DEVICES_V1"
  const HealthRoute := "/api/health"

  /** The first line of the inserted text (`insert.lstrip("\n")` starts with it). */
  const EndpointHead := "# " + Marker + ": read-only device inventory + Option-A target classification\n"

  /** The script with the rest of the inserted text (the code modelled above) as `code`: exit 0
      when the marker is in the file; exit 1 when there is no `@app.get("/api/health")` line or
      no `@app.` line after it; otherwise the text goes in as one element right before that next
      decorator. */
  function PatchWith(lines: seq<string>, code: string): Outcome<seq<string>> {
    if Contains(Join(lines), Marker) then Exit(0)
    else match FindRouteBlock(lines, HealthRoute)
      case None => Exit(1)
      case Some((s, e)) => if e == |lines| then Exit(1) else Write(Splice(lines, e, e, [EndpointHead + code]))
  }

  /** A write puts the endpoint right before the first `@app.` line after the health decorator
      and changes nothing else. */
  lemma PatchInserts(lines: seq<string>, code: string, out: seq<string>) returns (s: nat, e: nat)
    requires PatchWith(lines, code) == Write(out)
    ensures s < e < |lines|
    ensures IsRouteDecoratorLine(lines[s], HealthRoute) && forall k :: 0 <= k < s ==> !IsRouteDecoratorLine(lines[k], HealthRoute)
    ensures IsAppDecorator(lines[e]) && forall k :: s < k < e ==> !IsAppDecorator(lines[k])
    ensures !Contains(Join(lines), Marker)
    ensures InsertedAt(lines, out, e, [EndpointHead + code])
  {
    var b := FindRouteBlock(lines, HealthRoute).value;
    s, e := b.0, b.1;
    FindBlockMeaning(lines, IsRouteLine(HealthRoute), IsAppDecorator);
    SpliceInserts(lines, e, [EndpointHead + code]);
  }

  /** A second run finds the marker and exits 0. */
  lemma PatchRerun(lines: seq<string>, code: string, out: seq<string>)
    requires PatchWith(lines, code) == Write(out)
    ensures PatchWith(out, code) == Exit(0)
  {
    var s, e := PatchInserts(lines, code, out);
    assert [EndpointHead + code][0] == EndpointHead + code;
    assert out[e] == EndpointHead + code;
    HeadHasMarker(code);
    JoinHasLine(out, e, Marker);
  }

  lemma HeadHasMarker(code: string)
    ensures Contains(EndpointHead + code, Marker)
  {
    ContainsInRight("# ", Marker, Marker);
    ContainsInLeft("# " + Marker, ": read-only device inventory + Option-A target classification\n", Marker);
    ContainsInLeft(EndpointHead, code, Marker);
  }

  method PatchRun(lines: seq<string>, code: string) returns (r: Outcome<seq<string>>)
    ensures r == PatchWith(lines, code)
  {
    if Contains(Join(lines), Marker) {
      return Exit(0);
    }
    var b := FindRouteBlockScan(lines, HealthRoute);
    if b.None? || b.value.1 == |lines| {
      return Exit(1);
    }
    var e := b.value.1;
    r := Write(lines[..e] + [EndpointHead + code] + lines[e..]);
  }
}
