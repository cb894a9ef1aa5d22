// app/app.py: `parent_disk`, which names the disk a partition belongs to, and the `/api/disks`
// handler, which marks the top-level lsblk entry of that disk. The outputs of findmnt and lsblk
// are inputs here (None when the command fails), as is the parsed lsblk JSON.
module AppDisks {
  import opened Common
  import opened Text
  import opened PyValue

  predicate IsP(c: char) { c == 'p' }

  /** The fallback of `parent_disk` as written: `dev.rstrip("0123456789").rstrip("p")`. */
  function StripPartitionAsWritten(dev: string): (r: string)
    ensures r <= dev
    ensures r == [] || (!IsDigit(r[|r| - 1]) && r[|r| - 1] != 'p') || (IsDigit(r[|r| - 1]) && |r| < |dev| && dev[|r|] == 'p')
  {
    var t := RStripWhile(dev, IsDigit);
    var r := RStripWhile(t, IsP);
    assert |r| < |t| ==> t[|r|] == 'p';
    r
  }

  /** The fallback as its comment means it: trailing digits go, and then one 'p' when it
      follows a digit, which is how nvme and mmcblk name their partitions (`nvme0n1p2`,
      `mmcblk0p2`). A 'p' that is part of the disk name (`sdp`) stays. */
  function StripPartition(dev: string): (r: string)
    ensures r <= dev
  {
    var t := RStripWhile(dev, IsDigit);
    if |t| >= 2 && t[|t| - 1] == 'p' && IsDigit(t[|t| - 2]) then t[..|t| - 1] else t
  }

  predicate AllDigits(n: string) {
    n != [] && forall i :: 0 <= i < |n| ==> IsDigit(n[i])
  }

  /** Digits appended to a text that does not end in a digit are exactly what the digit strip
      removes. */
  lemma StripDigitsOf(disk: string, n: string)
    requires AllDigits(n) && (disk == [] || !IsDigit(disk[|disk| - 1]))
    ensures RStripWhile(disk + n, IsDigit) == disk
  {
    var s := disk + n;
    var r := RStripWhile(s, IsDigit);
    assert forall i :: |disk| <= i < |s| ==> s[i] == n[i - |disk|];
    assert r == [] || r[|r| - 1] == s[|r| - 1];
    if disk != [] {
      assert s[|disk| - 1] == disk[|disk| - 1];
    }
    assert |r| == |disk|;
    assert r == s[..|disk|] == disk;
  }

  /** The intended behaviour on the two partition namings: `<disk><n>` for a disk whose name
      ends in a letter, and `<disk>p<n>` for one whose name ends in a digit. */
  lemma StripPartitionNamings(disk: string, n: string)
    requires AllDigits(n) && disk != []
    ensures !IsDigit(disk[|disk| - 1]) && !(|disk| >= 2 && disk[|disk| - 1] == 'p' && IsDigit(disk[|disk| - 2])) ==>
              StripPartition(disk + n) == disk
    ensures IsDigit(disk[|disk| - 1]) ==> StripPartition(disk + "p" + n) == disk
  {
    if !IsDigit(disk[|disk| - 1]) {
      StripDigitsOf(disk, n);
    } else {
      StripDigitsOf(disk + "p", n);
      assert (disk + "p")[..|disk|] == disk;
    }
  }

  /** The fallback as written agrees on `<disk>p<n>`, but loses the last letter of a disk whose
      name ends in 'p' and a letter before it: the partition `sdp1` of the sixteenth SCSI disk
      `sdp` comes out as `sd`. */
  lemma StripPartitionAsWrittenLosesP(disk: string, n: string)
    requires AllDigits(n) && |disk| >= 2 && disk[|disk| - 1] == 'p' && IsAsciiLetter(disk[|disk| - 2])
    ensures StripPartitionAsWritten(disk + n) == disk[..|disk| - 1] || |StripPartitionAsWritten(disk + n)| < |disk| - 1
    ensures StripPartitionAsWritten(disk + n) != disk
    ensures StripPartition(disk + n) == disk
  {
    StripDigitsOf(disk, n);
    StripPartitionNamings(disk, n);
    var r := StripPartitionAsWritten(disk + n);
    assert |r| < |disk| by {
      assert forall i :: |RStripWhile(disk, IsP)| <= i < |disk| ==> disk[i] == 'p';
    }
    assert r <= disk;
    if |r| == |disk| - 1 {
      assert r == disk[..|disk| - 1];
    }
  }

  /** The concrete case: `/dev/sdp1` with lsblk failing. */
  lemma SdpExample()
    ensures StripPartitionAsWritten("sdp1") == "sd"
    ensures StripPartition("sdp1") == "sdp"
  {
    StripPartitionNamings("sdp", "1");
    assert "sdp" + "1" == "sdp1";
    StripDigitsOf("sdp", "1");
    var t := RStripWhile("sdp1", IsDigit);
    assert t == "sdp";
    assert RStripWhile(t, IsP) == "sd" by {
      var r := RStripWhile(t, IsP);
      assert t[1] == 'd' && t[2] == 'p';
      assert |r| == 2;
      assert r == t[..2];
    }
  }

  /** `parent_disk(devpath)`, with `pk` the output of `lsblk -no PKNAME` (None when it fails;
      `sh` strips the output and `parent_disk` strips it again) and the fallback as written. */
  function ParentDisk(devpath: string, pk: Option<string>): (r: string)
    ensures ReplaceAll(devpath, "/dev/", "") == "" ==> r == ""
    ensures ReplaceAll(devpath, "/dev/", "") != "" && pk.Some? ==> r == Strip(pk.value)
    ensures ReplaceAll(devpath, "/dev/", "") != "" && pk.None? ==> r <= ReplaceAll(devpath, "/dev/", "")
  {
    var dev := ReplaceAll(devpath, "/dev/", "");
    if dev == "" then ""
    else match pk
      case Some(out) => (StripIsStripped(out); Strip(Strip(out)))
      case None => StripPartitionAsWritten(dev)
  }

  /** `parent_disk(devpath)` with the corrected fallback. */
  function ParentDiskFixed(devpath: string, pk: Option<string>): (r: string)
    ensures ReplaceAll(devpath, "/dev/", "") == "" ==> r == ""
    ensures ReplaceAll(devpath, "/dev/", "") != "" && pk.Some? ==> r == Strip(pk.value)
    ensures ReplaceAll(devpath, "/dev/", "") != "" && pk.None? ==> r <= ReplaceAll(devpath, "/dev/", "")
  {
    var dev := ReplaceAll(devpath, "/dev/", "");
    if dev == "" then ""
    else match pk
      case Some(out) => (StripIsStripped(out); Strip(Strip(out)))
      case None => StripPartition(dev)
  }

  /** With lsblk failing, a partition of a disk whose name ends in 'p' after a letter (`/dev/sdp1`)
      is not taken to belong to its disk; the corrected fallback names the disk. */
  lemma ParentDiskLosesP(disk: string, n: string)
    requires AllDigits(n) && |disk| >= 2 && disk[|disk| - 1] == 'p' && IsAsciiLetter(disk[|disk| - 2])
    requires !Contains(disk + n, "/dev/")
    ensures ParentDisk("/dev/" + (disk + n), None) != disk
    ensures ParentDiskFixed("/dev/" + (disk + n), None) == disk
  {
    DevPrefixRemoved(disk + n);
    StripPartitionAsWrittenLosesP(disk, n);
  }

  /** Every "/dev/" goes, wherever it stands: `/dev/mmcblk0p2` becomes `mmcblk0p2`. */
  lemma DevPrefixRemoved(rest: string)
    requires !Contains(rest, "/dev/")
    ensures ReplaceAll("/dev/" + rest, "/dev/", "") == rest
  {
    assert StartsWith("/dev/" + rest, "/dev/");
    assert ("/dev/" + rest)[5..] == rest;
  }

  // ---------------------------------------------------------------------------------------
  // `/api/disks`

  /** The annotation of one top-level entry: `d["is_root_disk"] = (d.get("name") ==
      root_parent)` for an entry of type "disk"; None when `d` is not a dict (`d.get` raises). */
  function Annotate(d: Json, rootParent: string): Option<Json> {
    if !d.JDict? then None
    else if Get(d, "type") == JStr("disk") then Some(Set(d, "is_root_disk", JBool(Get(d, "name") == JStr(rootParent))))
    else Some(d)
  }

  /** The annotation of a list of entries; None when one of them raises. */
  function AnnotateAll(devs: seq<Json>, rootParent: string): Option<seq<Json>>
    decreases |devs|
  {
    if devs == [] then Some([])
    else match AnnotateAll(devs[..|devs| - 1], rootParent)
      case None => None
      case Some(acc) =>
        match Annotate(devs[|devs| - 1], rootParent)
        case None => None
        case Some(d) => Some(acc + [d])
  }

  /** The entry-by-entry meaning of the annotation: it raises exactly when some entry is not a
      dict; otherwise every entry keeps its place, a "disk" entry gains `is_root_disk` (true
      exactly when its name is the root parent) and keeps every other key (its `children` among
      them), and any other entry is left as it was. */
  lemma {:induction false} AnnotateAllMeaning(devs: seq<Json>, rootParent: string)
    ensures AnnotateAll(devs, rootParent).Some? <==> forall i :: 0 <= i < |devs| ==> devs[i].JDict?
    ensures AnnotateAll(devs, rootParent).Some? ==> |AnnotateAll(devs, rootParent).value| == |devs|
    ensures AnnotateAll(devs, rootParent).Some? ==> forall i :: 0 <= i < |devs| ==>
      AnnotateAll(devs, rootParent).value[i] == Annotate(devs[i], rootParent).value
    decreases |devs|
  {
    if devs != [] {
      var init := devs[..|devs| - 1];
      AnnotateAllMeaning(init, rootParent);
      assert forall i :: 0 <= i < |init| ==> init[i] == devs[i];
    }
  }

  /** What the annotation does to one entry. */
  lemma AnnotateMeaning(d: Json, rootParent: string)
    requires d.JDict?
    ensures var r := Annotate(d, rootParent).value;
      Get(d, "type") != JStr("disk") ==> r == d
    ensures var r := Annotate(d, rootParent).value;
      Get(d, "type") == JStr("disk") ==>
        r.JDict? && Get(r, "is_root_disk") == JBool(Get(d, "name") == JStr(rootParent)) &&
        forall k :: k in d.fields && k != "is_root_disk" ==> k in r.fields && r.fields[k] == d.fields[k]
  {
  }

  /** The handler's loop, which sets `is_root_disk` on the entries in place. It reports False
      when an entry is not a dict (Python raises there, and the response is an error). */
  method AnnotateInPlace(a: array<Json>, rootParent: string) returns (ok: bool)
    modifies a
    ensures ok <==> AnnotateAll(old(a[..]), rootParent).Some?
    ensures ok ==> a[..] == AnnotateAll(old(a[..]), rootParent).value
  {
    ghost var orig := a[..];
    var k := 0;
    while k < a.Length
      invariant 0 <= k <= a.Length
      invariant a[k..] == orig[k..]
      invariant AnnotateAll(orig[..k], rootParent) == Some(a[..k])
    {
      var d := a[k];
      AnnotateAllStep(orig, k, a[..k], rootParent);
      if !d.JDict? {
        AnnotateAllRaises(orig, k, rootParent);
        return false;
      }
      if Get(d, "type") == JStr("disk") {
        a[k] := Set(d, "is_root_disk", JBool(Get(d, "name") == JStr(rootParent)));
      }
      assert a[..k + 1] == a[..k] + [Annotate(d, rootParent).value];
      k := k + 1;
    }
    assert orig[..k] == orig;
    assert a[..k] == a[..];
    ok := true;
  }

  /** One more entry extends the annotation by that entry's own, or makes it raise. */
  lemma AnnotateAllStep(devs: seq<Json>, k: nat, acc: seq<Json>, rootParent: string)
    requires k < |devs| && AnnotateAll(devs[..k], rootParent) == Some(acc)
    ensures AnnotateAll(devs[..k + 1], rootParent) ==
      if devs[k].JDict? then Some(acc + [Annotate(devs[k], rootParent).value]) else None
  {
    assert devs[..k + 1][..k] == devs[..k];
  }

  /** Once an entry raises, the whole annotation raises. */
  lemma {:induction false} AnnotateAllRaises(devs: seq<Json>, k: nat, rootParent: string)
    requires k < |devs| && AnnotateAll(devs[..k + 1], rootParent).None?
    ensures AnnotateAll(devs, rootParent).None?
    decreases |devs| - k
  {
    if k + 1 < |devs| {
      assert devs[..k + 2][..k + 1] == devs[..k + 1];
      AnnotateAllRaises(devs, k + 1, rootParent);
    } else {
      assert devs[..k + 1] == devs;
    }
  }

  /** The lsblk entries `for d in obj.get("blockdevices", [])` walks: a list's items; an empty
      string or dict walks nothing; anything else raises (None, a number, the characters of a
      string or the keys of a dict, which have no `get`). */
  function Entries(v: Json): Option<seq<Json>> {
    match v
    case JList(xs) => Some(xs)
    case JStr(s) => if s == "" then Some([]) else None
    case JDict(m) => if m == map[] then Some([]) else None
    case _ => None
  }

  /** What `/api/disks` returns. */
  datatype DisksReply = DisksReply(rootSource: string, rootParent: string, lsblk: Json)

  /** The handler; None when it raises. `rs` is `root_source()`: findmnt's output, stripped,
      or "" when findmnt fails. */
  function Disks(obj: Json, rs: string, pk: Option<string>): Option<DisksReply> {
    if !obj.JDict? then None
    else
      var rp := ParentDisk(rs, pk);
      if "blockdevices" !in obj.fields then Some(DisksReply(rs, rp, obj))
      else match Entries(obj.fields["blockdevices"])
        case None => None
        case Some(xs) =>
          match AnnotateAll(xs, rp)
          case None => None
          case Some(ys) =>
            Some(DisksReply(rs, rp, if obj.fields["blockdevices"].JList? then Set(obj, "blockdevices", JList(ys)) else obj))
  }

  /** The reply carries the root source and root parent, and an lsblk object whose only change
      is the annotation of its top-level entries. */
  lemma DisksMeaning(obj: Json, rs: string, pk: Option<string>)
    requires Disks(obj, rs, pk).Some?
    ensures var r := Disks(obj, rs, pk).value;
      r.rootSource == rs && r.rootParent == ParentDisk(rs, pk)
    ensures var r := Disks(obj, rs, pk).value;
      r.lsblk.JDict? && r.lsblk.fields.Keys == obj.fields.Keys &&
      forall k :: k in obj.fields && k != "blockdevices" ==> r.lsblk.fields[k] == obj.fields[k]
    ensures var r := Disks(obj, rs, pk).value;
      "blockdevices" in obj.fields && obj.fields["blockdevices"].JList? ==>
        r.lsblk.fields["blockdevices"] == JList(AnnotateAll(obj.fields["blockdevices"].items, ParentDisk(rs, pk)).value)
  {
  }
}
