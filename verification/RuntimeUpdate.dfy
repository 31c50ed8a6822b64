/** Keeping the tray and helper executables current: internal/runtimeupdate/manager.go. */
module RuntimeUpdate {
  import opened FileHash
  import opened Files

  /** Which of the operations of one replacement fail. */
  datatype Faults = Faults(removeBackup: bool, moveOut: bool, removeDst: bool, moveIn: bool, moveBack: bool)

  /** How one file's check goes; `busy` is whether a process of that file is running. */
  datatype FileRun = FileRun(localUnreadable: bool, download: Download, tempUnreadable: bool, busy: bool,
                             f: Faults, removeTemp: bool)

  /** A fetched manifest: the hash each file should have, trimmed; a download that fails is None. */
  type Manifest = map<string, string>

  const TRAY := "appcenter-tray.exe"
  const HELPER := "rshelper.exe"

  // ---------- One replacement ----------

  function BackupOf(dst: Path): Path { dst + ".bak" }

  function TempOf(dst: Path): Path { dst + ".download" }

  /** The disk once the old file is out of the way. */
  function Cleared(h: History, dst: Path, f: Faults): (r: History)
    ensures h <= r
  {
    var unbacked := h + [Remove(Last(h), BackupOf(dst), f.removeBackup).0];
    if dst !in Last(unbacked) then unbacked
    else
      var (moved, ok) := Rename(Last(unbacked), dst, BackupOf(dst), f.moveOut);
      if ok then unbacked + [moved] else unbacked + [moved] + [Remove(moved, dst, f.removeDst).0]
  }

  function Replace(h: History, dst: Path, temp: Path, f: Faults): (r: (History, bool))
    ensures h <= r.0
  {
    var cleared := Cleared(h, dst, f);
    var (moved, ok) := Rename(Last(cleared), temp, dst, f.moveIn);
    if ok then (cleared + [moved], true)
    else if BackupOf(dst) in moved then (cleared + [moved] + [Rename(moved, BackupOf(dst), dst, f.moveBack).0], false)
    else (cleared + [moved], false)
  }

  // ---------- One file, one round ----------

  /** Removes the temporary file when the round for this file ends. */
  function Discard(h: History, dst: Path, run: FileRun): History {
    h + [Remove(Last(h), TempOf(dst), run.removeTemp).0]
  }

  /** What happens to a complete download at the temporary path. */
  function Install(h: History, dst: Path, isHelper: bool, expected: string, hash: Bytes -> string, run: FileRun)
    : (r: (History, bool))
    requires TempOf(dst) in Last(h)
    ensures h <= r.0
  {
    if run.tempUnreadable || !Matches(hash, Last(h)[TempOf(dst)], expected) then (Discard(h, dst, run), false)
    else if isHelper && run.busy then (Discard(h, dst, run), true)
    else
      var (replaced, ok) := Replace(h, dst, TempOf(dst), run.f);
      (Discard(replaced, dst, run), ok)
  }

  function Downloaded(h: History, dst: Path, got: Bytes): (r: History)
    ensures h <= r && TempOf(dst) in Last(r) && Last(r)[TempOf(dst)] == got
  {
    h + [Last(h)[TempOf(dst) := got]]
  }

  function Ensure(h: History, dst: Path, isHelper: bool, expected: string, hash: Bytes -> string, run: FileRun)
    : (r: (History, bool))
    ensures h <= r.0
  {
    if expected == "" then (h, true)
    else if dst in Last(h) && !run.localUnreadable && Matches(hash, Last(h)[dst], expected) then (h, true)
    else if run.download.Refused? then (h, false)
    else if run.download.Cut? then (Downloaded(h, dst, run.download.got), false)
    else Install(Downloaded(h, dst, run.download.got), dst, isHelper, expected, hash, run)
  }

  function PathOf(dir: Path, name: string): Path { dir + "/" + name }

  function EnsureNamed(h: History, dir: Path, name: string, m: Manifest, hash: Bytes -> string, run: FileRun)
    : (r: (History, bool))
    ensures h <= r.0
  {
    if name in m then Ensure(h, PathOf(dir, name), name == HELPER, m[name], hash, run) else (h, true)
  }

  /** One round: nothing without a manifest; the helper is looked at only if the tray went well. */
  function Sync(h: History, dir: Path, m: Manifest, fetched: bool, hash: Bytes -> string, tray: FileRun,
                helper: FileRun): (r: (History, bool))
    ensures h <= r.0
  {
    if !fetched then (h, false)
    else
      var (afterTray, ok) := EnsureNamed(h, dir, TRAY, m, hash, tray);
      if !ok then (afterTray, false) else EnsureNamed(afterTray, dir, HELPER, m, hash, helper)
  }

  // ---------- What a replacement leaves in place ----------

  /** A backup of an earlier replacement that could not be removed. */
  predicate StaleBackup(d: Disk, dst: Path, f: Faults) { BackupOf(dst) in d && f.removeBackup }

  /** The old file has been moved to the backup path. */
  predicate MovedOut(d: Disk, dst: Path, f: Faults) { dst in d && !f.moveOut }

  /** How many of the operations that the replacement reaches fail. */
  function FaultCount(d: Disk, dst: Path, f: Faults): nat {
    One(StaleBackup(d, dst, f))
    + (if dst !in d || MovedOut(d, dst, f) then 0 else 1 + One(f.removeDst))
    + if !f.moveIn then 0
      else 1 + if MovedOut(d, dst, f) || StaleBackup(d, dst, f) then One(f.moveBack) else 0
  }

  lemma NamesDiffer(dst: Path)
    ensures dst != BackupOf(dst) && dst != TempOf(dst) && BackupOf(dst) != TempOf(dst)
  {
    assert BackupOf(dst)[|dst| + 1] == 'b' && TempOf(dst)[|dst| + 1] == 'd';
  }

  /** Where the file at dst ends up, for every combination of failures. */
  lemma ReplaceEnds(h: History, dst: Path, f: Faults)
    requires TempOf(dst) in Last(h)
    ensures var d, (h', ok) := Last(h), Replace(h, dst, TempOf(dst), f);
            var d' := Last(h');
            && ok == !f.moveIn
            && (ok ==> dst in d' && d'[dst] == d[TempOf(dst)])
            && (!ok && MovedOut(d, dst, f) ==> if f.moveBack then dst !in d' else dst in d' && d'[dst] == d[dst])
            && (!ok && !MovedOut(d, dst, f) && StaleBackup(d, dst, f) && !f.moveBack ==>
                  dst in d' && d'[dst] == d[BackupOf(dst)])
            && (!ok && !MovedOut(d, dst, f) && !(StaleBackup(d, dst, f) && !f.moveBack) ==>
                  if dst in d && f.removeDst then dst in d' && d'[dst] == d[dst] else dst !in d')
  {
    NamesDiffer(dst);
  }

  /** With at most one failure the old or the new bytes are in place; a file that was missing is
      missing still or new. */
  lemma OneFaultIsHarmless(h: History, dst: Path, f: Faults)
    requires TempOf(dst) in Last(h) && FaultCount(Last(h), dst, f) <= 1
    ensures var d, d' := Last(h), Last(Replace(h, dst, TempOf(dst), f).0);
            || (dst in d' && d'[dst] == d[TempOf(dst)])
            || ((dst in d' <==> dst in d) && (dst in d ==> d'[dst] == d[dst]))
  {
    ReplaceEnds(h, dst, f);
  }

  /** A file that was there is lost exactly after these failures, which are at least two. */
  lemma LosesFileIff(h: History, dst: Path, f: Faults)
    requires TempOf(dst) in Last(h) && dst in Last(h)
    ensures dst !in Last(Replace(h, dst, TempOf(dst), f).0)
            <==> f.moveIn
                 && if f.moveOut then !f.removeDst && (StaleBackup(Last(h), dst, f) ==> f.moveBack) else f.moveBack
  {
    ReplaceEnds(h, dst, f);
  }

  // ---------- What may ever stand at a managed path ----------

  /** One round's inputs. */
  datatype Round = Round(m: Manifest, fetched: bool, tray: FileRun, helper: FileRun)

  function Run(h: History, dir: Path, hash: Bytes -> string, rounds: seq<Round>): History {
    if rounds == [] then h
    else
      var r := rounds[|rounds| - 1];
      Sync(Run(h, dir, hash, rounds[..|rounds| - 1]), dir, r.m, r.fetched, hash, r.tray, r.helper).0
  }

  /** Where the contents of one managed file may come from: the bytes that stood there or at its
      backup at the start, and the entries under its own name in the manifests fetched. */
  datatype Sources = Sources(name: string, originals: set<Bytes>, hash: Bytes -> string, rounds: seq<Round>)

  ghost predicate Known(b: Bytes, s: Sources) {
    b in s.originals
    || exists i :: 0 <= i < |s.rounds| && s.rounds[i].fetched && s.name in s.rounds[i].m
                   && Matches(s.hash, b, s.rounds[i].m[s.name])
  }

  /** Neither the file nor its backup holds anything else. */
  ghost predicate Clean(d: Disk, dst: Path, s: Sources) {
    && (dst in d ==> Known(d[dst], s))
    && (BackupOf(dst) in d ==> Known(d[BackupOf(dst)], s))
  }

  ghost predicate CleanFrom(h: History, n: nat, dst: Path, s: Sources) {
    forall i | n <= i < |h| :: Clean(h[i], dst, s)
  }

  lemma ReplaceIsClean(h: History, dst: Path, f: Faults, s: Sources)
    requires Clean(Last(h), dst, s)
    requires TempOf(dst) in Last(h) && Known(Last(h)[TempOf(dst)], s)
    ensures CleanFrom(Replace(h, dst, TempOf(dst), f).0, |h|, dst, s)
  {
    NamesDiffer(dst);
    var cleared := Cleared(h, dst, f);
    assert CleanFrom(cleared, |h|, dst, s);
    assert TempOf(dst) in Last(cleared) && Last(cleared)[TempOf(dst)] == Last(h)[TempOf(dst)];
    var moved := Rename(Last(cleared), TempOf(dst), dst, f.moveIn).0;
    assert Clean(moved, dst, s);
  }

  lemma InstallIsClean(h: History, dst: Path, isHelper: bool, expected: string, run: FileRun, s: Sources)
    requires Clean(Last(h), dst, s) && TempOf(dst) in Last(h)
    requires Matches(s.hash, Last(h)[TempOf(dst)], expected) ==> Known(Last(h)[TempOf(dst)], s)
    ensures CleanFrom(Install(h, dst, isHelper, expected, s.hash, run).0, |h|, dst, s)
  {
    NamesDiffer(dst);
    if !run.tempUnreadable && Matches(s.hash, Last(h)[TempOf(dst)], expected) && !(isHelper && run.busy) {
      ReplaceIsClean(h, dst, run.f, s);
      var replaced := Replace(h, dst, TempOf(dst), run.f).0;
      assert Clean(Last(replaced), dst, s);
    }
  }

  /** The three paths of one managed file are none of another one's. */
  predicate Disjoint(a: Path, b: Path) {
    {a, BackupOf(a), TempOf(a)} !! {b, BackupOf(b), TempOf(b)}
  }

  lemma EnsureIsClean(h: History, dst: Path, isHelper: bool, expected: string, run: FileRun, s: Sources)
    requires Clean(Last(h), dst, s)
    requires forall b :: Matches(s.hash, b, expected) ==> Known(b, s)
    ensures CleanFrom(Ensure(h, dst, isHelper, expected, s.hash, run).0, |h|, dst, s)
  {
    NamesDiffer(dst);
    if !run.download.Refused? {
      var got := Downloaded(h, dst, run.download.got);
      assert Clean(Last(got), dst, s);
      InstallIsClean(got, dst, isHelper, expected, run, s);
    }
  }

  ghost predicate Same(d: Disk, d': Disk, other: Path) {
    && (other in d <==> other in d') && (other in d ==> d[other] == d'[other])
    && (BackupOf(other) in d <==> BackupOf(other) in d')
    && (BackupOf(other) in d ==> d[BackupOf(other)] == d'[BackupOf(other)])
  }

  ghost predicate SameFrom(h: History, n: nat, d: Disk, other: Path) {
    forall i | n <= i < |h| :: Same(d, h[i], other)
  }

  lemma ReplaceLeavesOther(h: History, dst: Path, f: Faults, other: Path)
    requires Disjoint(dst, other)
    ensures SameFrom(Replace(h, dst, TempOf(dst), f).0, |h|, Last(h), other)
  {
    var cleared := Cleared(h, dst, f);
    assert SameFrom(cleared, |h|, Last(h), other);
    var moved := Rename(Last(cleared), TempOf(dst), dst, f.moveIn).0;
    assert Same(Last(h), moved, other);
  }

  lemma DiscardLeavesOther(h: History, n: nat, dst: Path, run: FileRun, d: Disk, other: Path)
    requires Disjoint(dst, other) && SameFrom(h, n, d, other) && Same(d, Last(h), other)
    ensures SameFrom(Discard(h, dst, run), n, d, other)
  {
    assert Same(d, Remove(Last(h), TempOf(dst), run.removeTemp).0, other);
  }

  lemma InstallLeavesOther(h: History, dst: Path, isHelper: bool, expected: string, hash: Bytes -> string,
                           run: FileRun, other: Path)
    requires Disjoint(dst, other) && TempOf(dst) in Last(h)
    ensures SameFrom(Install(h, dst, isHelper, expected, hash, run).0, |h|, Last(h), other)
  {
    var replaced := Replace(h, dst, TempOf(dst), run.f).0;
    ReplaceLeavesOther(h, dst, run.f, other);
    assert |replaced| > |h| && Same(Last(h), Last(replaced), other);
    DiscardLeavesOther(replaced, |h|, dst, run, Last(h), other);
    DiscardLeavesOther(h, |h|, dst, run, Last(h), other);
  }

  /** Work on one managed file does not touch the other. */
  lemma EnsureLeavesOther(h: History, dst: Path, isHelper: bool, expected: string, hash: Bytes -> string,
                          run: FileRun, other: Path)
    requires Disjoint(dst, other)
    ensures SameFrom(Ensure(h, dst, isHelper, expected, hash, run).0, |h|, Last(h), other)
  {
    if !run.download.Refused? {
      var got := Downloaded(h, dst, run.download.got);
      assert Same(Last(h), Last(got), other);
      if run.download.Complete? { InstallLeavesOther(got, dst, isHelper, expected, hash, run, other); }
    }
  }

  /** Both managed files are clean, each by its own sources. */
  ghost predicate BothClean(h: History, n: nat, dir: Path, tray: Sources, helper: Sources) {
    CleanFrom(h, n, PathOf(dir, TRAY), tray) && CleanFrom(h, n, PathOf(dir, HELPER), helper)
  }

  lemma ManagedAreDisjoint(dir: Path)
    ensures Disjoint(PathOf(dir, TRAY), PathOf(dir, HELPER)) && Disjoint(PathOf(dir, HELPER), PathOf(dir, TRAY))
  {
    var n := |dir| + 1;
    var t, s := PathOf(dir, TRAY), PathOf(dir, HELPER);
    var ofTray, ofHelper := {t, BackupOf(t), TempOf(t)}, {s, BackupOf(s), TempOf(s)};
    forall p, q | p in ofTray && q in ofHelper ensures p != q {
      assert p[n] == 'a' && q[n] == 'r';
    }
  }

  lemma SameIsClean(h: History, n: nat, d: Disk, other: Path, s: Sources)
    requires SameFrom(h, n, d, other) && Clean(d, other, s)
    ensures CleanFrom(h, n, other, s)
  {
    forall i | n <= i < |h| ensures Clean(h[i], other, s) {
      assert Same(d, h[i], other);
    }
  }

  /** The round of one file keeps it clean, and the other file too. */
  lemma NamedIsClean(h: History, dir: Path, i: nat, run: FileRun, own: Sources, other: Sources)
    requires {own.name, other.name} == {TRAY, HELPER} && own.hash == other.hash
    requires i < |own.rounds| && own.rounds[i].fetched
    requires Clean(Last(h), PathOf(dir, own.name), own) && Clean(Last(h), PathOf(dir, other.name), other)
    ensures var after := EnsureNamed(h, dir, own.name, own.rounds[i].m, own.hash, run).0;
            CleanFrom(after, |h|, PathOf(dir, own.name), own) && CleanFrom(after, |h|, PathOf(dir, other.name), other)
  {
    var m, isHelper := own.rounds[i].m, own.name == HELPER;
    if own.name in m {
      var dst, rest := PathOf(dir, own.name), PathOf(dir, other.name);
      ManagedAreDisjoint(dir);
      assert Disjoint(dst, rest);
      EnsureIsClean(h, dst, isHelper, m[own.name], run, own);
      EnsureLeavesOther(h, dst, isHelper, m[own.name], own.hash, run, rest);
      SameIsClean(Ensure(h, dst, isHelper, m[own.name], own.hash, run).0, |h|, Last(h), rest, other);
    }
  }

  /** The sources of the two files in one run. */
  ghost predicate OfOneRun(tray: Sources, helper: Sources) {
    tray.name == TRAY && helper.name == HELPER && tray.hash == helper.hash && tray.rounds == helper.rounds
  }

  lemma ExtendIsClean(h: History, h': History, dir: Path, tray: Sources, helper: Sources)
    requires h <= h' && BothClean(h, 0, dir, tray, helper) && BothClean(h', |h|, dir, tray, helper)
    ensures BothClean(h', 0, dir, tray, helper)
  {
    forall i | 0 <= i < |h'|
      ensures Clean(h'[i], PathOf(dir, TRAY), tray) && Clean(h'[i], PathOf(dir, HELPER), helper)
    {
      if i < |h| { assert h'[i] == h[i]; }
    }
  }

  lemma SyncIsClean(h: History, dir: Path, i: nat, tray: Sources, helper: Sources)
    requires OfOneRun(tray, helper) && i < |tray.rounds| && BothClean(h, 0, dir, tray, helper)
    ensures var r := tray.rounds[i];
            BothClean(Sync(h, dir, r.m, r.fetched, tray.hash, r.tray, r.helper).0, 0, dir, tray, helper)
  {
    var r := tray.rounds[i];
    if r.fetched {
      assert Clean(Last(h), PathOf(dir, TRAY), tray) && Clean(Last(h), PathOf(dir, HELPER), helper);
      NamedIsClean(h, dir, i, r.tray, tray, helper);
      var (afterTray, ok) := EnsureNamed(h, dir, TRAY, r.m, tray.hash, r.tray);
      ExtendIsClean(h, afterTray, dir, tray, helper);
      if ok {
        assert Clean(Last(afterTray), PathOf(dir, TRAY), tray) && Clean(Last(afterTray), PathOf(dir, HELPER), helper);
        NamedIsClean(afterTray, dir, i, r.helper, helper, tray);
        ExtendIsClean(afterTray, EnsureNamed(afterTray, dir, HELPER, r.m, tray.hash, r.helper).0, dir, tray, helper);
      }
    }
  }

  /** Over any sequence of rounds with any failures, what stands at a managed path or its backup
      is at every instant one of that file's originals or bytes hashing to its own entry of a
      fetched manifest, so never a partial download and never the other file. */
  lemma {:induction false} ManagedFilesStayKnown(h: History, dir: Path, tray: Sources, helper: Sources, n: nat)
    requires OfOneRun(tray, helper) && n <= |tray.rounds| && BothClean(h, 0, dir, tray, helper)
    ensures BothClean(Run(h, dir, tray.hash, tray.rounds[..n]), 0, dir, tray, helper)
  {
    if n > 0 {
      var rounds := tray.rounds;
      assert rounds[..n][..n - 1] == rounds[..n - 1];
      ManagedFilesStayKnown(h, dir, tray, helper, n - 1);
      SyncIsClean(Run(h, dir, tray.hash, rounds[..n - 1]), dir, n - 1, tray, helper);
    }
  }

  // ---------- What a successful round achieves ----------

  /** The file matches its manifest entry, unless the manifest has none or the helper is running. */
  ghost predicate UpToDate(d: Disk, dir: Path, name: string, m: Manifest, hash: Bytes -> string, run: FileRun) {
    name in m && m[name] != "" && !(name == HELPER && run.busy)
    ==> PathOf(dir, name) in d && Matches(hash, d[PathOf(dir, name)], m[name])
  }

  lemma InstallSucceeds(h: History, dst: Path, isHelper: bool, expected: string, hash: Bytes -> string, run: FileRun)
    requires TempOf(dst) in Last(h) && Install(h, dst, isHelper, expected, hash, run).1 && !(isHelper && run.busy)
    ensures var d := Last(Install(h, dst, isHelper, expected, hash, run).0);
            dst in d && Matches(hash, d[dst], expected)
  {
    NamesDiffer(dst);
    ReplaceEnds(h, dst, run.f);
  }

  lemma EnsureSucceeds(h: History, dir: Path, name: string, m: Manifest, hash: Bytes -> string, run: FileRun)
    requires EnsureNamed(h, dir, name, m, hash, run).1
    ensures UpToDate(Last(EnsureNamed(h, dir, name, m, hash, run).0), dir, name, m, hash, run)
  {
    if name in m && run.download.Complete? && !(name == HELPER && run.busy) {
      var dst := PathOf(dir, name);
      var got := Downloaded(h, dst, run.download.got);
      if Install(got, dst, name == HELPER, m[name], hash, run).1 {
        InstallSucceeds(got, dst, name == HELPER, m[name], hash, run);
      }
    }
  }

  /** A round that succeeds leaves both managed files as the manifest wants them. */
  lemma SyncSucceeds(h: History, dir: Path, r: Round, hash: Bytes -> string)
    requires Sync(h, dir, r.m, r.fetched, hash, r.tray, r.helper).1
    ensures var d := Last(Sync(h, dir, r.m, r.fetched, hash, r.tray, r.helper).0);
            UpToDate(d, dir, TRAY, r.m, hash, r.tray) && UpToDate(d, dir, HELPER, r.m, hash, r.helper)
  {
    var afterTray := EnsureNamed(h, dir, TRAY, r.m, hash, r.tray).0;
    EnsureSucceeds(h, dir, TRAY, r.m, hash, r.tray);
    EnsureSucceeds(afterTray, dir, HELPER, r.m, hash, r.helper);
    if HELPER in r.m {
      ManagedAreDisjoint(dir);
      EnsureLeavesOther(afterTray, PathOf(dir, HELPER), true, r.m[HELPER], hash, r.helper, PathOf(dir, TRAY));
      var done := EnsureNamed(afterTray, dir, HELPER, r.m, hash, r.helper).0;
      if |done| > |afterTray| { assert Same(Last(afterTray), Last(done), PathOf(dir, TRAY)); }
    }
  }

  // ---------- Exactly when a check and a round succeed ----------

  /** The file's entry asks for nothing, or for what is there. */
  predicate NothingToDo(d: Disk, dst: Path, name: string, m: Manifest, hash: Bytes -> string, run: FileRun) {
    name !in m || m[name] == "" || (dst in d && !run.localUnreadable && hash(d[dst]) == Normal(m[name]))
  }

  /** The download brings all the bytes the entry announces. */
  predicate Arrives(expected: string, hash: Bytes -> string, run: FileRun) {
    run.download.Complete? && !run.tempUnreadable && hash(run.download.got) == Normal(expected)
  }

  /** The verified download has to wait, which only a running helper makes it do. */
  predicate Waits(name: string, run: FileRun) { name == HELPER && run.busy }

  predicate CheckGoesWell(d: Disk, dir: Path, name: string, m: Manifest, hash: Bytes -> string, run: FileRun) {
    NothingToDo(d, PathOf(dir, name), name, m, hash, run)
    || (Arrives(m[name], hash, run) && (Waits(name, run) || !run.f.moveIn))
  }

  lemma EnsureSucceedsIff(h: History, dir: Path, name: string, m: Manifest, hash: Bytes -> string, run: FileRun)
    ensures EnsureNamed(h, dir, name, m, hash, run).1 <==> CheckGoesWell(Last(h), dir, name, m, hash, run)
  {
    if name in m && run.download.Complete? {
      ReplaceEnds(Downloaded(h, PathOf(dir, name), run.download.got), PathOf(dir, name), run.f);
    }
  }

  /** After a replacement that works the old file is the backup. */
  lemma ReplacedKeepsBackup(h: History, dst: Path, f: Faults)
    requires TempOf(dst) in Last(h) && !f.moveIn
    ensures var d, d' := Last(h), Last(Replace(h, dst, TempOf(dst), f).0);
            && TempOf(dst) !in d' && dst in d' && d'[dst] == d[TempOf(dst)]
            && (MovedOut(d, dst, f) ==> BackupOf(dst) in d' && d'[BackupOf(dst)] == d[dst])
  {
    NamesDiffer(dst);
  }

  lemma DiscardEnds(h: History, dst: Path, run: FileRun)
    ensures var d, d' := Last(h), Last(Discard(h, dst, run));
            && Same(d, d', dst) && (!run.removeTemp || TempOf(dst) !in d ==> TempOf(dst) !in d')
  {
    NamesDiffer(dst);
  }

  lemma InstallEnds(h: History, dst: Path, isHelper: bool, expected: string, hash: Bytes -> string, run: FileRun)
    requires TempOf(dst) in Last(h)
    ensures
      var d, d' := Last(h), Last(Install(h, dst, isHelper, expected, hash, run).0);
      var good := !run.tempUnreadable && hash(d[TempOf(dst)]) == Normal(expected);
      && (!good || (isHelper && run.busy) ==> Same(d, d', dst))
      && (good && !(isHelper && run.busy) && !run.f.moveIn ==>
            TempOf(dst) !in d' && dst in d' && d'[dst] == d[TempOf(dst)]
            && (MovedOut(d, dst, run.f) ==> BackupOf(dst) in d' && d'[BackupOf(dst)] == d[dst]))
      && (!run.removeTemp ==> TempOf(dst) !in d')
  {
    DiscardEnds(h, dst, run);
    DiscardEnds(Replace(h, dst, TempOf(dst), run.f).0, dst, run);
    if !run.f.moveIn { ReplacedKeepsBackup(h, dst, run.f); }
  }

  /** What a check leaves at the file, its backup and its temporary path. */
  lemma EnsureEnds(h: History, dir: Path, name: string, m: Manifest, hash: Bytes -> string, run: FileRun)
    ensures
      var d, d', dst := Last(h), Last(EnsureNamed(h, dir, name, m, hash, run).0), PathOf(dir, name);
      if NothingToDo(d, dst, name, m, hash, run) || run.download.Refused? then d' == d
      else
        && (run.download.Cut? ==> d' == d[TempOf(dst) := run.download.got])
        && (!Arrives(m[name], hash, run) || Waits(name, run) ==> Same(d, d', dst))
        && (Arrives(m[name], hash, run) && !Waits(name, run) && !run.f.moveIn ==>
              TempOf(dst) !in d' && dst in d' && d'[dst] == run.download.got
              && (MovedOut(d, dst, run.f) ==> BackupOf(dst) in d' && d'[BackupOf(dst)] == d[dst]))
        && (run.download.Complete? && !run.removeTemp ==> TempOf(dst) !in d')
  {
    var dst := PathOf(dir, name);
    NamesDiffer(dst);
    if name in m && !run.download.Refused? {
      InstallEnds(Downloaded(h, dst, run.download.got), dst, name == HELPER, m[name], hash, run);
    }
  }

  lemma TrayLeavesHelper(h: History, dir: Path, r: Round, hash: Bytes -> string)
    ensures var afterTray := EnsureNamed(h, dir, TRAY, r.m, hash, r.tray).0;
            && SameFrom(afterTray, |h|, Last(h), PathOf(dir, HELPER))
            && Same(Last(h), Last(afterTray), PathOf(dir, HELPER))
  {
    if TRAY in r.m {
      ManagedAreDisjoint(dir);
      EnsureLeavesOther(h, PathOf(dir, TRAY), false, r.m[TRAY], hash, r.tray, PathOf(dir, HELPER));
    }
  }

  /** A round succeeds exactly when the manifest arrives and both checks go well, each judged by the
      disk before the round. */
  lemma SyncSucceedsIff(h: History, dir: Path, r: Round, hash: Bytes -> string)
    ensures Sync(h, dir, r.m, r.fetched, hash, r.tray, r.helper).1
            <==> r.fetched && CheckGoesWell(Last(h), dir, TRAY, r.m, hash, r.tray)
                 && CheckGoesWell(Last(h), dir, HELPER, r.m, hash, r.helper)
  {
    var afterTray := EnsureNamed(h, dir, TRAY, r.m, hash, r.tray).0;
    EnsureSucceedsIff(h, dir, TRAY, r.m, hash, r.tray);
    EnsureSucceedsIff(afterTray, dir, HELPER, r.m, hash, r.helper);
    TrayLeavesHelper(h, dir, r, hash);
  }

  /** Without a manifest a round does nothing; when the tray's check fails the helper is not touched at
      any instant. */
  lemma FailingTrayStopsRound(h: History, dir: Path, r: Round, hash: Bytes -> string)
    ensures var after := Sync(h, dir, r.m, r.fetched, hash, r.tray, r.helper).0;
            && (!r.fetched ==> after == h)
            && (!CheckGoesWell(Last(h), dir, TRAY, r.m, hash, r.tray) ==>
                  SameFrom(after, |h|, Last(h), PathOf(dir, HELPER)))
  {
    EnsureSucceedsIff(h, dir, TRAY, r.m, hash, r.tray);
    TrayLeavesHelper(h, dir, r, hash);
  }

  /** What a successful round leaves of the helper when it is running: exactly what was there. */
  lemma RunningHelperIsLeft(h: History, dir: Path, r: Round, hash: Bytes -> string)
    requires r.helper.busy
    ensures Same(Last(h), Last(Sync(h, dir, r.m, r.fetched, hash, r.tray, r.helper).0), PathOf(dir, HELPER))
  {
    TrayLeavesHelper(h, dir, r, hash);
    EnsureEnds(EnsureNamed(h, dir, TRAY, r.m, hash, r.tray).0, dir, HELPER, r.m, hash, r.helper);
  }

  // ---------- The manager's files ----------

  class FileKeeper {
    const dir: Path
    const hash: Bytes -> string
    const drive: Drive

    constructor (dir: Path, hash: Bytes -> string, drive: Drive)
      ensures this.dir == dir && this.hash == hash && this.drive == drive
    {
      this.dir, this.hash, this.drive := dir, hash, drive;
    }

    method ReplaceFile(dst: Path, temp: Path, f: Faults) returns (ok: bool)
      requires drive.Valid()
      modifies drive
      ensures drive.Valid() && (drive.disks, ok) == Replace(old(drive.disks), dst, temp, f)
    {
      var gone := drive.RemoveFile(BackupOf(dst), f.removeBackup);
      if dst in drive.disk {
        var out := drive.RenameFile(dst, BackupOf(dst), f.moveOut);
        if !out { var removed := drive.RemoveFile(dst, f.removeDst); }
      }
      assert drive.disks == Cleared(old(drive.disks), dst, f);
      ok := drive.RenameFile(temp, dst, f.moveIn);
      if !ok && BackupOf(dst) in drive.disk {
        var back := drive.RenameFile(BackupOf(dst), dst, f.moveBack);
      }
    }

    method EnsureFile(m: Manifest, name: string, run: FileRun) returns (ok: bool)
      requires drive.Valid()
      modifies drive
      ensures drive.Valid() && (drive.disks, ok) == EnsureNamed(old(drive.disks), dir, name, m, hash, run)
      ensures ok <==> CheckGoesWell(old(drive.disk), dir, name, m, hash, run)
    {
      EnsureSucceedsIff(drive.disks, dir, name, m, hash, run);
      if name !in m { return true; }
      var expected, dst := m[name], PathOf(dir, name);
      if expected == "" { return true; }
      if dst in drive.disk && !run.localUnreadable && hash(drive.disk[dst]) == Normal(expected) { return true; }
      if run.download.Refused? { return false; }
      drive.WriteFile(TempOf(dst), run.download.got);
      if run.download.Cut? { return false; }
      ok := InstallFile(dst, name == HELPER, expected, run);
    }

    method InstallFile(dst: Path, isHelper: bool, expected: string, run: FileRun) returns (ok: bool)
      requires drive.Valid() && TempOf(dst) in drive.disk
      modifies drive
      ensures drive.Valid() && (drive.disks, ok) == Install(old(drive.disks), dst, isHelper, expected, hash, run)
      ensures ok <==> !run.tempUnreadable && hash(old(drive.disk)[TempOf(dst)]) == Normal(expected)
                      && ((isHelper && run.busy) || !run.f.moveIn)
    {
      if run.tempUnreadable || hash(drive.disk[TempOf(dst)]) != Normal(expected) {
        ok := false;
      } else if isHelper && run.busy {
        ok := true;
      } else {
        ReplaceEnds(drive.disks, dst, run.f);
        ok := ReplaceFile(dst, TempOf(dst), run.f);
      }
      var discarded := drive.RemoveFile(TempOf(dst), run.removeTemp);
    }

    method SyncOnce(m: Manifest, fetched: bool, tray: FileRun, helper: FileRun) returns (ok: bool)
      requires drive.Valid()
      modifies drive
      ensures drive.Valid() && (drive.disks, ok) == Sync(old(drive.disks), dir, m, fetched, hash, tray, helper)
      ensures ok <==> fetched && CheckGoesWell(old(drive.disk), dir, TRAY, m, hash, tray)
                      && CheckGoesWell(old(drive.disk), dir, HELPER, m, hash, helper)
    {
      SyncSucceedsIff(drive.disks, dir, Round(m, fetched, tray, helper), hash);
      if !fetched { return false; }
      ok := EnsureFile(m, TRAY, tray);
      if !ok { return false; }
      ok := EnsureFile(m, HELPER, helper);
    }
  }
}
