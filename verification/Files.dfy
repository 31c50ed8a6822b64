/** Files as the agent sees them: a disk maps a path to bytes, and every operation may fail. */
module Files {
  newtype Byte = b: int | 0 <= b < 256
  type Bytes = seq<Byte>
  type Path = string
  type Disk = map<Path, Bytes>

  function Remove(d: Disk, p: Path, fails: bool): (Disk, bool) {
    if fails || p !in d then (d, false) else (d - {p}, true)
  }

  /** Renaming replaces an existing destination. */
  function Rename(d: Disk, src: Path, dst: Path, fails: bool): (Disk, bool) {
    if fails || src !in d then (d, false)
    else if src == dst then (d, true) else (d[dst := d[src]] - {src}, true)
  }

  /** How a copy goes: whether both files could be opened, how many bytes reach the destination,
      and whether closing it succeeds.  A copy that dies half-way is one with few bytes. */
  datatype CopyRun = CopyRun(opens: bool, bytes: nat, closes: bool)

  /** The copy of a file of `size` bytes fails. */
  predicate RunFails(size: nat, run: CopyRun) { !run.opens || run.bytes < size || !run.closes }

  predicate CopyFails(d: Disk, src: Path, run: CopyRun) { src !in d || RunFails(|d[src]|, run) }

  /** Copying truncates the destination first. */
  function Copy(d: Disk, src: Path, dst: Path, run: CopyRun): (Disk, bool) {
    if src !in d || !run.opens then (d, false)
    else if run.bytes < |d[src]| then (d[dst := d[src][..run.bytes]], false)
    else (d[dst := d[src]], run.closes)
  }

  /** The disks a process leaves behind one after the other; the last one is the current one. */
  type History = h: seq<Disk> | |h| > 0 witness [map[]]

  function Last(h: History): Disk { h[|h| - 1] }

  /** How a download leaves its file: untouched, cut short, or complete. */
  datatype Download = Refused | Cut(got: Bytes) | Complete(got: Bytes)

  function One(fails: bool): nat { if fails then 1 else 0 }

  /** A disk with the operations the agent's processes use; `disks` has one entry per operation. */
  class Drive {
    var disk: Disk
    ghost var disks: History

    ghost predicate Valid()
      reads this
    {
      Last(disks) == disk
    }

    method CopyFile(src: Path, dst: Path, run: CopyRun) returns (ok: bool)
      requires Valid()
      modifies this
      ensures Valid() && disks == old(disks) + [disk] && (disk, ok) == Copy(old(disk), src, dst, run)
      ensures ok <==> src in old(disk) && run.opens && run.bytes >= |old(disk)[src]| && run.closes
      ensures src in old(disk) && run.opens ==>
        disk == old(disk)[dst := if run.bytes < |old(disk)[src]| then old(disk)[src][..run.bytes] else old(disk)[src]]
    {
      if src !in disk || !run.opens {
        disks := disks + [disk];
        return false;
      }
      var n := if run.bytes < |disk[src]| then run.bytes else |disk[src]|;
      ok := run.closes && n == |disk[src]|;
      assert n == |disk[src]| ==> disk[src][..n] == disk[src];
      disk := disk[dst := disk[src][..n]];
      disks := disks + [disk];
    }

    method RemoveFile(p: Path, fails: bool) returns (ok: bool)
      requires Valid()
      modifies this
      ensures Valid() && disks == old(disks) + [disk] && (disk, ok) == Remove(old(disk), p, fails)
      ensures ok <==> !fails && p in old(disk)
      ensures disk == if ok then map q | q in old(disk) && q != p :: old(disk)[q] else old(disk)
    {
      ok := !fails && p in disk;
      if ok { disk := disk - {p}; }
      disks := disks + [disk];
    }

    method RenameFile(src: Path, dst: Path, fails: bool) returns (ok: bool)
      requires Valid()
      modifies this
      ensures Valid() && disks == old(disks) + [disk] && (disk, ok) == Rename(old(disk), src, dst, fails)
      ensures ok <==> !fails && src in old(disk)
      ensures ok && src != dst ==>
        src !in disk && dst in disk && disk[dst] == old(disk)[src] && disk - {dst} == old(disk) - {src, dst}
      ensures !ok || src == dst ==> disk == old(disk)
    {
      ok := !fails && src in disk;
      if ok && src != dst { disk := disk[dst := disk[src]] - {src}; }
      disks := disks + [disk];
    }

    /** Overwrites a file, as a download does. */
    method WriteFile(p: Path, bytes: Bytes)
      requires Valid()
      modifies this
      ensures Valid() && disk == old(disk)[p := bytes] && disks == old(disks) + [disk]
    {
      disk := disk[p := bytes];
      disks := disks + [disk];
    }
  }
}
