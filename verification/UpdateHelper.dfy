/** The helper process of cmd/update-helper/main_windows.go, which stops the service, backs up
    its executable, replaces it, and rolls back when something fails. */
module UpdateHelper {
  import opened Files

  datatype Paths = Paths(target: Path, staged: Path, backup: Path, meta: Path) {
    /** The file that replaceFile copies to before it renames. */
    function Fresh(): Path { target + ".new" }

    predicate Distinct() {
      && target != staged && target != backup && staged != backup
      && staged != Fresh() && backup != Fresh()
      && meta != target && meta != backup && meta != staged
      && Fresh() != target && Fresh() != meta
    }
  }

  datatype ReplaceFaults = ReplaceFaults(copy: CopyRun, removeDst: bool, rename: bool, removeSrc: bool)

  /** Everything that can go wrong in one run of the helper. */
  datatype Faults = Faults(stop: bool, backup: CopyRun, replace: ReplaceFaults, config: bool, removeMeta: bool,
                           start: bool, rollback: ReplaceFaults, restart: bool)

  function Replace(h: History, src: Path, dst: Path, f: ReplaceFaults): (r: (History, bool))
    ensures h <= r.0
  {
    var tmp := dst + ".new";
    var (copied, ok) := Copy(Last(h), src, tmp, f.copy);
    if !ok then (h + [copied], false)
    else
      var removed := Remove(copied, dst, f.removeDst).0;
      var (moved, ok') := Rename(removed, tmp, dst, f.rename);
      if !ok' then (h + [copied] + [removed] + [moved], false)
      else (h + [copied] + [removed] + [moved] + [Remove(moved, src, f.removeSrc).0], true)
  }

  /** The machine: its disks so far, the version in the config file, and whether the service runs. */
  datatype Machine = Machine(disks: History, version: string, running: bool)

  function Rollback(m: Machine, p: Paths, f: Faults): Machine {
    m.(disks := Replace(m.disks, p.backup, p.target, f.rollback).0)
  }

  function Cleaned(m: Machine, p: Paths, f: Faults): Machine {
    m.(disks := m.disks + [Remove(Last(m.disks), p.meta, f.removeMeta).0])
  }

  function Finish(m: Machine, p: Paths, version: string, f: Faults): Machine {
    var configured := if f.config then m else m.(version := version);
    var cleaned := if p.meta == "" then configured
                   else Cleaned(configured, p, f);
    if f.start then Rollback(cleaned, p, f).(running := !f.restart) else cleaned.(running := true)
  }

  /** One whole run of the helper. */
  function Help(m: Machine, p: Paths, version: string, f: Faults): Machine {
    if f.stop then m
    else
      var (saved, ok) := Copy(Last(m.disks), p.target, p.backup, f.backup);
      var stopped := Machine(m.disks + [saved], m.version, false);
      if !ok then stopped
      else
        var (replaced, ok') := Replace(stopped.disks, p.staged, p.target, f.replace);
        if ok' then Finish(stopped.(disks := replaced), p, version, f)
        else Rollback(stopped.(disks := replaced), p, f)
  }

  class Helper {
    const drive: Drive
    var version: string
    var running: bool

    ghost function Value(): Machine
      reads this, drive
    {
      Machine(drive.disks, version, running)
    }

    constructor (drive: Drive, version: string)
      ensures this.drive == drive && Value() == Machine(drive.disks, version, true)
    {
      this.drive, this.version, running := drive, version, true;
    }

    method ReplaceFile(src: Path, dst: Path, f: ReplaceFaults) returns (ok: bool)
      requires drive.Valid()
      modifies drive
      ensures drive.Valid() && (drive.disks, ok) == Replace(old(drive.disks), src, dst, f)
    {
      var tmp := dst + ".new";
      var copied := drive.CopyFile(src, tmp, f.copy);
      if !copied { return false; }
      var removed := drive.RemoveFile(dst, f.removeDst);
      var moved := drive.RenameFile(tmp, dst, f.rename);
      if !moved { return false; }
      var cleaned := drive.RemoveFile(src, f.removeSrc);
      return true;
    }

    method Update(p: Paths, targetVersion: string, f: Faults)
      requires drive.Valid()
      modifies this, drive
      ensures drive.Valid() && Value() == Help(old(Value()), p, targetVersion, f)
    {
      if f.stop { return; }
      running := false;
      var saved := drive.CopyFile(p.target, p.backup, f.backup);
      if !saved { return; }
      var replaced := ReplaceFile(p.staged, p.target, f.replace);
      if !replaced {
        var restored := ReplaceFile(p.backup, p.target, f.rollback);
        return;
      }
      if !f.config { version := targetVersion; }
      if p.meta != "" { var cleaned := drive.RemoveFile(p.meta, f.removeMeta); }
      if f.start {
        var restored := ReplaceFile(p.backup, p.target, f.rollback);
        running := !f.restart;
      } else {
        running := true;
      }
    }
  }

  // ---------- What holds at every instant ----------

  /** The old executable is there in full, at the target or at the backup path. */
  predicate OldIsSafe(d: Disk, p: Paths, was: Bytes) {
    (p.target in d && d[p.target] == was) || (p.backup in d && d[p.backup] == was)
  }

  /** The target is missing or exactly the old or exactly the staged bytes. */
  predicate TargetIsWhole(d: Disk, p: Paths, was: Bytes, next: Bytes) {
    p.target in d ==> d[p.target] == was || d[p.target] == next
  }

  ghost predicate Good(d: Disk, p: Paths, was: Bytes, next: Bytes) {
    OldIsSafe(d, p, was) && TargetIsWhole(d, p, was, next) && (p.staged in d ==> d[p.staged] == next)
  }

  /** All disks of `h` that come after the first n are good. */
  ghost predicate GoodFrom(h: History, n: nat, p: Paths, was: Bytes, next: Bytes) {
    forall i | n <= i < |h| :: Good(h[i], p, was, next)
  }

  lemma CopyFromStagedIsGood(d: Disk, p: Paths, src: Path, run: CopyRun, was: Bytes, next: Bytes)
    requires p.Distinct() && Good(d, p, was, next)
    ensures Good(Copy(d, src, p.Fresh(), run).0, p, was, next)
  {}

  /** Replacing the target by the staged file, or by a backup that holds the old bytes, keeps the
      old bytes safe and the target whole after every operation. */
  lemma ReplaceIsGood(h: History, p: Paths, src: Path, f: ReplaceFaults, was: Bytes, next: Bytes)
    requires p.Distinct() && Good(Last(h), p, was, next) && src in {p.staged, p.backup}
    requires p.backup in Last(h) && Last(h)[p.backup] == was
    ensures GoodFrom(Replace(h, src, p.target, f).0, |h|, p, was, next)
    ensures !Replace(h, src, p.target, f).1 || src == p.staged
            ==> && p.backup in Last(Replace(h, src, p.target, f).0)
                && Last(Replace(h, src, p.target, f).0)[p.backup] == was
  {
    var (copied, ok) := Copy(Last(h), src, p.Fresh(), f.copy);
    CopyFromStagedIsGood(Last(h), p, src, f.copy, was, next);
    if ok {
      var removed := Remove(copied, p.target, f.removeDst).0;
      assert Good(removed, p, was, next);
      var (moved, ok') := Rename(removed, p.Fresh(), p.target, f.rename);
      assert Good(moved, p, was, next);
      if ok' { assert Good(Remove(moved, src, f.removeSrc).0, p, was, next); }
    }
  }

  lemma FinishIsGood(m: Machine, p: Paths, version: string, f: Faults, was: Bytes, next: Bytes)
    requires p.Distinct() && Good(Last(m.disks), p, was, next)
    requires p.backup in Last(m.disks) && Last(m.disks)[p.backup] == was
    ensures GoodFrom(Finish(m, p, version, f).disks, |m.disks|, p, was, next)
    ensures m.disks <= Finish(m, p, version, f).disks
  {
    var cleaned := if p.meta == "" then m.disks else m.disks + [Remove(Last(m.disks), p.meta, f.removeMeta).0];
    assert Good(Last(cleaned), p, was, next);
    ReplaceIsGood(cleaned, p, p.backup, f.rollback, was, next);
  }

  /** Whatever fails, and wherever the helper is interrupted, the old executable exists in full
      at the target or at the backup path and the target is never a partial file. */
  lemma HelperKeepsOld(m: Machine, p: Paths, version: string, f: Faults, was: Bytes, next: Bytes)
    requires p.Distinct() && p.target in Last(m.disks) && Last(m.disks)[p.target] == was
    requires p.staged in Last(m.disks) ==> Last(m.disks)[p.staged] == next
    ensures GoodFrom(Help(m, p, version, f).disks, |m.disks|, p, was, next)
  {
    var (saved, ok) := Copy(Last(m.disks), p.target, p.backup, f.backup);
    if !f.stop && ok {
      var h := m.disks + [saved];
      ReplaceIsGood(h, p, p.staged, f.replace, was, next);
      var (replaced, ok') := Replace(h, p.staged, p.target, f.replace);
      if !ok' {
        ReplaceIsGood(replaced, p, p.backup, f.rollback, was, next);
      } else {
        FinishIsGood(Machine(replaced, m.version, false), p, version, f, was, next);
      }
    }
  }

  /** The path holds what it held, or nothing. */
  predicate StaysOrGoes(d: Disk, d': Disk, path: Path) { path in d' ==> path in d && d'[path] == d[path] }

  lemma ReplaceWritesNothingElse(h: History, src: Path, dst: Path, f: ReplaceFaults, other: Path)
    requires other !in {dst, dst + ".new"}
    ensures StaysOrGoes(Last(h), Last(Replace(h, src, dst, f).0), other)
  {}

  lemma FinishWritesNothingElse(m: Machine, p: Paths, version: string, f: Faults, other: Path)
    requires other !in {p.target, p.Fresh()}
    ensures StaysOrGoes(Last(m.disks), Last(Finish(m, p, version, f).disks), other)
  {
    var cleaned := if p.meta == "" then m.disks else m.disks + [Remove(Last(m.disks), p.meta, f.removeMeta).0];
    ReplaceWritesNothingElse(cleaned, p.backup, p.target, f.rollback, other);
  }

  /** Nothing but the backup, the target and its copy is ever written; another file stays as it is
      or goes. */
  lemma HelpWritesNothingElse(m: Machine, p: Paths, version: string, f: Faults, other: Path)
    requires other !in {p.target, p.backup, p.Fresh()}
    ensures StaysOrGoes(Last(m.disks), Last(Help(m, p, version, f).disks), other)
  {
    if !f.stop && !CopyFails(Last(m.disks), p.target, f.backup) {
      var h := m.disks + [Copy(Last(m.disks), p.target, p.backup, f.backup).0];
      ReplaceWritesNothingElse(h, p.staged, p.target, f.replace, other);
      var (replaced, ok) := Replace(h, p.staged, p.target, f.replace);
      if ok {
        FinishWritesNothingElse(Machine(replaced, m.version, false), p, version, f, other);
      } else {
        ReplaceWritesNothingElse(replaced, p.backup, p.target, f.rollback, other);
      }
    }
  }

  // ---------- How it ends ----------

  /** The replacement stops after the old target was removed and before the new one is in place. */
  predicate LosesDst(d: Disk, src: Path, f: ReplaceFaults) {
    !CopyFails(d, src, f.copy) && !f.removeDst && f.rename
  }

  predicate ReplaceFails(d: Disk, src: Path, f: ReplaceFaults) { CopyFails(d, src, f.copy) || f.rename }

  lemma ReplaceEnds(h: History, p: Paths, src: Path, f: ReplaceFaults)
    requires p.Distinct() && src in {p.staged, p.backup}
    ensures var (h', ok) := Replace(h, src, p.target, f);
            var d, d' := Last(h), Last(h');
            && ok == !ReplaceFails(d, src, f)
            && (ok ==> p.target in d' && d'[p.target] == d[src])
            && (!ok && LosesDst(d, src, f) ==> p.target !in d')
            && (!ok && !LosesDst(d, src, f) ==>
                  (p.target in d' <==> p.target in d) && (p.target in d ==> d'[p.target] == d[p.target]))
            && (!ok ==> (p.backup in d' <==> p.backup in d) && (p.backup in d ==> d'[p.backup] == d[p.backup]))
            && (ok && src == p.staged ==>
                  (p.backup in d' <==> p.backup in d) && (p.backup in d ==> d'[p.backup] == d[p.backup]))
  {}

  /** The backup holds `size` bytes when it is copied back. */
  predicate RollbackLoses(size: nat, f: Faults) {
    !RunFails(size, f.rollback.copy) && !f.rollback.removeDst && f.rollback.rename
  }

  predicate RollbackFails(size: nat, f: Faults) { RunFails(size, f.rollback.copy) || f.rollback.rename }

  predicate Prepared(d: Disk, p: Paths, f: Faults) { !f.stop && !CopyFails(d, p.target, f.backup) }

  predicate Replaced(d: Disk, p: Paths, f: Faults) { Prepared(d, p, f) && !ReplaceFails(d, p.staged, f.replace) }

  /** The failures after which no executable is left at the target. */
  predicate LosesTarget(d: Disk, p: Paths, size: nat, f: Faults) {
    Prepared(d, p, f) &&
    if Replaced(d, p, f) then f.start && RollbackLoses(size, f)
    else if LosesDst(d, p.staged, f.replace) then RollbackFails(size, f)
    else RollbackLoses(size, f)
  }

  predicate EndsNew(d: Disk, p: Paths, size: nat, f: Faults) {
    Replaced(d, p, f) && (f.start ==> RollbackFails(size, f))
  }

  /** The disk after the backup: only the backup path has changed. */
  lemma AfterBackup(d: Disk, p: Paths, f: Faults)
    requires p.Distinct() && p.target in d
    ensures var d' := Copy(d, p.target, p.backup, f.backup).0;
            && p.target in d' && d'[p.target] == d[p.target]
            && (p.staged in d' <==> p.staged in d) && (p.staged in d ==> d'[p.staged] == d[p.staged])
            && (!CopyFails(d, p.target, f.backup) ==> p.backup in d' && d'[p.backup] == d[p.target])
  {}

  ghost predicate TargetIs(d: Disk, p: Paths, missing: bool, bytes: Bytes) {
    if missing then p.target !in d else p.target in d && d[p.target] == bytes
  }

  lemma FinishEnds(m: Machine, p: Paths, version: string, f: Faults, was: Bytes)
    requires p.Distinct() && p.target in Last(m.disks) && p.backup in Last(m.disks) && Last(m.disks)[p.backup] == was
    ensures TargetIs(Last(Finish(m, p, version, f).disks), p, f.start && RollbackLoses(|was|, f),
                     if f.start && !RollbackFails(|was|, f) then was else Last(m.disks)[p.target])
  {
    var cleaned := if p.meta == "" then m.disks else m.disks + [Remove(Last(m.disks), p.meta, f.removeMeta).0];
    var d := Last(cleaned);
    assert p.target in d && d[p.target] == Last(m.disks)[p.target] && p.backup in d && d[p.backup] == was;
    ReplaceEnds(cleaned, p, p.backup, f.rollback);
    assert Finish(m, p, version, f).disks
        == if f.start then Replace(cleaned, p.backup, p.target, f.rollback).0 else cleaned;
  }

  /** The executable is missing at the end exactly after the failures of LosesTarget; otherwise it
      is exactly the staged bytes or exactly the old ones. */
  lemma HelperEnds(m: Machine, p: Paths, version: string, f: Faults)
    requires p.Distinct() && p.target in Last(m.disks)
    ensures var d, d' := Last(m.disks), Last(Help(m, p, version, f).disks);
            var was := d[p.target];
            && (p.target !in d' <==> LosesTarget(d, p, |was|, f))
            && (p.target in d' && EndsNew(d, p, |was|, f) ==> p.staged in d && d'[p.target] == d[p.staged])
            && (p.target in d' && !EndsNew(d, p, |was|, f) ==> d'[p.target] == was)
  {
    var d := Last(m.disks);
    AfterBackup(d, p, f);
    if Prepared(d, p, f) {
      var h := m.disks + [Copy(d, p.target, p.backup, f.backup).0];
      ReplaceEnds(h, p, p.staged, f.replace);
      var (replaced, ok) := Replace(h, p.staged, p.target, f.replace);
      if ok {
        FinishEnds(Machine(replaced, m.version, false), p, version, f, d[p.target]);
      } else {
        ReplaceEnds(replaced, p, p.backup, f.rollback);
      }
    }
  }

  ghost predicate SameAt(d: Disk, d': Disk, path: Path) {
    (path in d' <==> path in d) && (path in d ==> d'[path] == d[path])
  }

  /** A replacement removes its source at the end and leaves every other file alone. */
  lemma ReplaceCleansUp(h: History, src: Path, dst: Path, f: ReplaceFaults, other: Path)
    requires other !in {dst, dst + ".new"} && src !in {dst, dst + ".new"}
    ensures var (h', ok) := Replace(h, src, dst, f);
            if other != src || !ok || f.removeSrc then SameAt(Last(h), Last(h'), other) else other !in Last(h')
  {}

  lemma FinishCleansUp(m: Machine, p: Paths, version: string, f: Faults, other: Path)
    requires p.Distinct() && other !in {p.target, p.Fresh(), p.backup}
    ensures var d, d' := Last(m.disks), Last(Finish(m, p, version, f).disks);
            if other == "" || other != p.meta || f.removeMeta then SameAt(d, d', other) else other !in d'
  {
    var cleaned := if p.meta == "" then m.disks else m.disks + [Remove(Last(m.disks), p.meta, f.removeMeta).0];
    ReplaceCleansUp(cleaned, p.backup, p.target, f.rollback, other);
  }

  /** When the service does not stop, nothing happens at all.  Once it has, a run that replaces the
      target removes the staged file and the metadata, unless a removal fails, also when the new
      executable then does not start.  Any other run leaves both as they were, and every run leaves every
      other file. */
  lemma HelpCleansUp(m: Machine, p: Paths, version: string, f: Faults, other: Path)
    requires p.Distinct() && other !in {p.target, p.Fresh(), p.backup}
    ensures f.stop ==> Help(m, p, version, f) == m
    ensures
      var d, d' := Last(m.disks), Last(Help(m, p, version, f).disks);
      var removed := (other == p.staged && !f.replace.removeSrc)
                     || (other == p.meta && p.meta != "" && !f.removeMeta);
      if Replaced(d, p, f) && removed then other !in d' else SameAt(d, d', other)
  {
    if Prepared(Last(m.disks), p, f) {
      AfterBackup(Last(m.disks), p, f);
      var h := m.disks + [Copy(Last(m.disks), p.target, p.backup, f.backup).0];
      ReplaceEnds(h, p, p.staged, f.replace);
      ReplaceCleansUp(h, p.staged, p.target, f.replace, other);
      var (replaced, ok) := Replace(h, p.staged, p.target, f.replace);
      if ok {
        FinishCleansUp(Machine(replaced, m.version, false), p, version, f, other);
      } else {
        ReplaceCleansUp(replaced, p.backup, p.target, f.rollback, other);
      }
    }
  }

  /** A run that replaces the target, starts the service and cannot remove the staged file leaves every
      other file where it was, and the new bytes at the target. */
  lemma ReplacedKeepsOthers(m: Machine, p: Paths, version: string, f: Faults, other: Path)
    requires p.Distinct() && Replaced(Last(m.disks), p, f) && f.replace.removeSrc && !f.start
    requires other !in {p.target, p.backup, p.Fresh(), p.meta}
    ensures var d, d' := Last(m.disks), Last(Help(m, p, version, f).disks);
            && p.staged in d && p.target in d' && d'[p.target] == d[p.staged]
            && (other in d ==> other in d' && d'[other] == d[other])
  {
    HelperEnds(m, p, version, f);
    HelpCleansUp(m, p, version, f, other);
  }

  // ---------- What is cleaned up ----------

  /** A run that replaces the target and starts the service leaves the old bytes at the backup path. */
  lemma BackupHoldsOld(m: Machine, p: Paths, version: string, f: Faults)
    requires p.Distinct() && p.target in Last(m.disks) && Replaced(Last(m.disks), p, f) && !f.start
    ensures var d, d' := Last(m.disks), Last(Help(m, p, version, f).disks);
            p.backup in d' && d'[p.backup] == d[p.target]
  {
    AfterBackup(Last(m.disks), p, f);
    ReplaceEnds(m.disks + [Copy(Last(m.disks), p.target, p.backup, f.backup).0], p, p.staged, f.replace);
  }

  // ---------- When nothing new is put in place ----------

  /** The target is missing or holds the old bytes. */
  predicate TargetIsOld(d: Disk, p: Paths, was: Bytes) { p.target in d ==> d[p.target] == was }

  ghost predicate TargetIsOldFrom(h: History, n: nat, p: Paths, was: Bytes) {
    forall i | n <= i < |h| :: TargetIsOld(h[i], p, was)
  }

  lemma ReplaceKeepsOld(h: History, p: Paths, src: Path, f: ReplaceFaults, was: Bytes)
    requires p.Distinct() && TargetIsOld(Last(h), p, was) && src in {p.staged, p.backup}
    requires !Replace(h, src, p.target, f).1 || (src in Last(h) && Last(h)[src] == was)
    ensures TargetIsOldFrom(Replace(h, src, p.target, f).0, |h|, p, was)
  {}

  /** A run that does not replace the target never shows anything else there. */
  lemma NotReplacedKeepsOld(m: Machine, p: Paths, version: string, f: Faults, was: Bytes)
    requires p.Distinct() && p.target in Last(m.disks) && Last(m.disks)[p.target] == was
    requires !Replaced(Last(m.disks), p, f)
    ensures TargetIsOldFrom(Help(m, p, version, f).disks, |m.disks|, p, was)
  {
    AfterBackup(Last(m.disks), p, f);
    if Prepared(Last(m.disks), p, f) {
      var h := m.disks + [Copy(Last(m.disks), p.target, p.backup, f.backup).0];
      ReplaceEnds(h, p, p.staged, f.replace);
      ReplaceKeepsOld(h, p, p.staged, f.replace, was);
      var replaced := Replace(h, p.staged, p.target, f.replace).0;
      ReplaceKeepsOld(replaced, p, p.backup, f.rollback, was);
    }
  }

  /** A run that replaces it shows the staged bytes there at some instant. */
  lemma ReplacedShowsStaged(m: Machine, p: Paths, version: string, f: Faults) returns (i: nat)
    requires p.Distinct() && Replaced(Last(m.disks), p, f)
    ensures p.staged in Last(m.disks)
    ensures var h := Help(m, p, version, f).disks;
            && |m.disks| <= i < |h| && p.target in h[i] && h[i][p.target] == Last(m.disks)[p.staged]
  {
    i := |m.disks| + 3;
    var h := m.disks + [Copy(Last(m.disks), p.target, p.backup, f.backup).0];
    var replaced := Replace(h, p.staged, p.target, f.replace).0;
    assert |replaced| == |m.disks| + 5 && replaced <= Help(m, p, version, f).disks;
  }

  // ---------- Counting failures ----------

  /** How many of the operations of one replaceFile fail that are reached, when its copy does or
      does not fail. */
  function ReplaceFaultCount(copyFails: bool, f: ReplaceFaults): nat {
    if copyFails then 1
    else One(f.removeDst) + if f.rename then 1 else One(f.removeSrc)
  }

  /** The same for a rollback that copies `size` bytes back. */
  function RollbackFaultCount(size: nat, f: Faults): nat {
    ReplaceFaultCount(RunFails(size, f.rollback.copy), f.rollback)
  }

  /** How many of the operations that a run of the helper reaches fail; a missing staged file fails
      the copy of it. */
  function FaultCount(d: Disk, p: Paths, size: nat, f: Faults): nat {
    if f.stop || CopyFails(d, p.target, f.backup) then 1
    else
      ReplaceFaultCount(CopyFails(d, p.staged, f.replace.copy), f.replace)
      + if ReplaceFails(d, p.staged, f.replace) then RollbackFaultCount(size, f)
        else
          One(f.config) + (if p.meta == "" then 0 else One(f.removeMeta))
          + if f.start then 1 + RollbackFaultCount(size, f) + One(f.restart) else 0
  }

  /** With at most one failure the target ends as exactly the old or exactly the new bytes. */
  lemma OneFaultIsHarmless(m: Machine, p: Paths, version: string, f: Faults)
    requires p.Distinct() && p.target in Last(m.disks)
    requires FaultCount(Last(m.disks), p, |Last(m.disks)[p.target]|, f) <= 1
    ensures var d, d' := Last(m.disks), Last(Help(m, p, version, f).disks);
            p.target in d' && (d'[p.target] == d[p.target] || (p.staged in d && d'[p.target] == d[p.staged]))
  {
    HelperEnds(m, p, version, f);
  }

  const FINE := CopyRun(true, 0x1_0000_0000, true)
  const STUCK_RENAME := ReplaceFaults(FINE, false, true, false)

  /** Two are too many: when both renames fail, nothing is left at the target. */
  lemma TwoFaultsLoseTarget(m: Machine, p: Paths, version: string, f: Faults)
    requires p.Distinct() && p.target in Last(m.disks) && p.staged in Last(m.disks)
    requires |Last(m.disks)[p.target]| <= FINE.bytes && |Last(m.disks)[p.staged]| <= FINE.bytes
    requires f == Faults(false, FINE, STUCK_RENAME, false, false, false, STUCK_RENAME, false)
    ensures FaultCount(Last(m.disks), p, |Last(m.disks)[p.target]|, f) == 2
    ensures p.target !in Last(Help(m, p, version, f).disks)
  {
    HelperEnds(m, p, version, f);
  }

  /** The service is left stopped whenever the backup or the replacement fails, even when the
      old executable is back in place; and the config then still has the old version. */
  lemma ServiceAndVersionAtEnd(m: Machine, p: Paths, version: string, f: Faults)
    requires p.Distinct() && !f.stop
    ensures var d, m' := Last(m.disks), Help(m, p, version, f);
            && (m'.running <==> Replaced(d, p, f) && (f.start ==> !f.restart))
            && (m'.version == if Replaced(d, p, f) && !f.config then version else m.version)
  {
    var d := Last(m.disks);
    if Prepared(d, p, f) {
      AfterBackup(d, p, f);
      ReplaceEnds(m.disks + [Copy(d, p.target, p.backup, f.backup).0], p, p.staged, f.replace);
    }
  }

  /** The config names the executable that is in place: the new version with the staged bytes, or
      the old version with the old bytes. */
  ghost predicate ConfigNamesTarget(before: Machine, after: Machine, p: Paths, version: string)
    requires p.target in Last(before.disks) && p.staged in Last(before.disks)
  {
    var was, next := Last(before.disks)[p.target], Last(before.disks)[p.staged];
    p.target in Last(after.disks)
    && ((after.version == version && Last(after.disks)[p.target] == next)
        || (after.version == before.version && Last(after.disks)[p.target] == was))
  }

  /** Once the service has stopped, config and executable agree at the end exactly when no executable
      was lost and, if the replacement went through, the config write fails just when a failed start
      is rolled back. */
  lemma ConfigNamesTargetIff(m: Machine, p: Paths, version: string, f: Faults)
    requires p.Distinct() && p.target in Last(m.disks) && p.staged in Last(m.disks) && !f.stop
    requires Last(m.disks)[p.target] != Last(m.disks)[p.staged] && m.version != version
    ensures var d := Last(m.disks);
            var size := |d[p.target]|;
            ConfigNamesTarget(m, Help(m, p, version, f), p, version)
            <==> !LosesTarget(d, p, size, f)
                 && (Replaced(d, p, f) ==> (f.config <==> f.start && !RollbackFails(size, f)))
  {
    HelperEnds(m, p, version, f);
    ServiceAndVersionAtEnd(m, p, version, f);
  }

  /** After a failed start and a rollback that works, the old executable runs under a config
      that names the new version. */
  lemma RollbackKeepsNewVersion(m: Machine, p: Paths, version: string, f: Faults)
    requires p.Distinct() && p.target in Last(m.disks) && Replaced(Last(m.disks), p, f)
    requires f.start && !f.config && !f.restart && !RollbackFails(|Last(m.disks)[p.target]|, f)
    ensures var m' := Help(m, p, version, f);
            && m'.running && m'.version == version
            && p.target in Last(m'.disks) && Last(m'.disks)[p.target] == Last(m.disks)[p.target]
  {
    HelperEnds(m, p, version, f);
    ServiceAndVersionAtEnd(m, p, version, f);
  }
}
