/** The size-triggered rotating log of pkg/utils/logger.go.

    A log file is kept as the sequence of records it holds, one record per Write; its bytes
    are the records joined.  File 0 is the file being written, file i (i >= 1) is the backup
    with suffix ".i", so a higher number is an older file. */
module RotatingLog {
  import opened Files

  type Records = seq<Bytes>

  /** What the writer's file field is: nil, an open file, or a file that was closed by a
      rotation that then failed. */
  datatype Handle = NoFile | Live | Stale

  datatype Log = Log(files: map<nat, Records>, handle: Handle)

  /** Which file operations of one call fail.  `removes` and `renames` name the file an
      operation would move or overwrite; `keep` bounds the bytes a write gets to disk. */
  datatype Faults = Faults(open: bool, stat: bool, close: bool, removes: set<nat>, renames: set<nat>,
                           reopen: bool, keep: nat)

  ghost predicate Faultless(f: Faults, p: Bytes) {
    !f.open && !f.stat && !f.close && f.removes == {} && f.renames == {} && !f.reopen && f.keep >= |p|
  }

  function Join(records: Records): Bytes {
    if records == [] then [] else Join(records[..|records| - 1]) + records[|records| - 1]
  }

  function Size(records: Records): nat { |Join(records)| }

  /** The backups from `top` down to the current file, oldest first. */
  function Retained(files: map<nat, Records>, top: nat): Records {
    (if top in files then files[top] else []) + (if top == 0 then [] else Retained(files, top - 1))
  }

  // ---------- What one call does ----------

  /** Rename of file i to i + 1 after an attempt to remove i + 1. */
  function MoveUp<T>(files: map<nat, T>, i: nat, f: Faults): (r: (map<nat, T>, bool))
    requires i in files
  {
    var cleared := if i + 1 in f.removes then files else files - {i + 1};
    if i in f.renames then (cleared, false) else (cleared[i + 1 := files[i]] - {i}, true)
  }

  /** The descending loop over the backups, from number i. */
  function Shift<T>(files: map<nat, T>, i: nat, f: Faults): (map<nat, T>, bool)
    decreases i
  {
    if i == 0 then (files, true)
    else if i !in files then Shift(files, i - 1, f)
    else
      var (moved, ok) := MoveUp(files, i, f);
      if ok then Shift(moved, i - 1, f) else (moved, false)
  }

  function Reopen<T>(files: map<nat, T>, empty: T): map<nat, T> {
    if 0 in files then files else files[0 := empty]
  }

  function Rotated<T>(files: map<nat, T>, backups: nat, empty: T, f: Faults): (map<nat, T>, Handle) {
    if f.close then (files, Stale)
    else
      var (shifted, ok) := Shift(files, backups, f);
      if !ok then (shifted, Stale)
      else
        var (moved, ok') := if 0 in shifted then MoveUp(shifted, 0, f)
                            else (if 1 in f.removes then shifted else shifted - {1}, true);
        if !ok' || f.reopen then (moved, Stale) else (Reopen(moved, empty), Live)
  }

  /** The log with its file open, unless opening fails. */
  function Opened(log: Log, fails: bool): Log {
    if log.handle == NoFile && !fails then Log(Reopen(log.files, []), Live) else log
  }

  /** The log once it is ready to take `incoming` bytes, and whether it is. */
  function Prepared(log: Log, maxBytes: nat, backups: nat, incoming: nat, f: Faults): (Log, bool) {
    if log.handle != Live || f.stat || 0 !in log.files then (log, false)
    else if Size(log.files[0]) + incoming <= maxBytes then (log, true)
    else
      var (files, handle) := Rotated(log.files, backups, [], f);
      (Log(files, handle), handle == Live)
  }

  /** The record a Write of p leaves behind: what reached the disk. */
  function Landed(p: Bytes, f: Faults): Bytes { if f.keep < |p| then p[..f.keep] else p }

  function Written(log: Log, maxBytes: nat, backups: nat, p: Bytes, f: Faults): (Log, Records) {
    var (ready, ok) := Prepared(Opened(log, f.open), maxBytes, backups, |p|, f);
    if !ok || 0 !in ready.files then (ready, [])
    else (ready.(files := ready.files[0 := ready.files[0] + [Landed(p, f)]]), [Landed(p, f)])
  }

  lemma JoinAppend(records: Records, r: Bytes)
    ensures Join(records + [r]) == Join(records) + r
    ensures Join([r]) == r
  {
    assert (records + [r])[..|records|] == records;
    assert [r][..0] == [];
  }

  // ---------- The writer itself ----------

  class RotatingWriter {
    const maxBytes: nat
    const maxBackups: nat
    var files: map<nat, Bytes>
    var handle: Handle
    ghost var records: map<nat, Records>

    ghost predicate Valid()
      reads this
    {
      && files.Keys == records.Keys
      && (forall i | i in files :: files[i] == Join(records[i]))
      && (handle == Live ==> 0 in files)
      && maxBytes > 0 && maxBackups > 0
    }

    ghost function Value(): Log
      reads this
    {
      Log(records, handle)
    }

    /** Sizes that are not positive fall back to 10 MiB and 5 backups; nothing is open yet. */
    constructor (existing: map<nat, Bytes>, maxSizeMB: int, backups: int)
      ensures Valid() && handle == NoFile && files == existing
      ensures records == map i | i in existing :: [existing[i]]
      ensures maxBytes == (if maxSizeMB <= 0 then 10 else maxSizeMB) * 1048576
      ensures maxBackups == if backups <= 0 then 5 else backups
    {
      maxBytes := (if maxSizeMB <= 0 then 10 else maxSizeMB) * 1048576;
      maxBackups := if backups <= 0 then 5 else backups;
      files, handle := existing, NoFile;
      records := map i | i in existing :: [existing[i]];
      new;
      forall i | i in files ensures files[i] == Join(records[i]) {
        JoinAppend([], files[i]);
      }
    }

    /** Null when the log file cannot be opened; the files found are kept, each as one record. */
    static method NewLogger(existing: map<nat, Bytes>, maxSizeMB: int, backups: int, openFails: bool)
      returns (w: RotatingWriter?)
      ensures w == null <==> openFails
      ensures w != null ==>
        && fresh(w) && w.Valid()
        && w.maxBytes == (if maxSizeMB <= 0 then 10 else maxSizeMB) * 1048576
        && w.maxBackups == (if backups <= 0 then 5 else backups)
        && w.Value() == Log(Reopen(map i | i in existing :: [existing[i]], []), Live)
    {
      var writer := new RotatingWriter(existing, maxSizeMB, backups);
      var ok := writer.Open(openFails);
      w := if ok then writer else null;
    }

    method Open(fails: bool) returns (ok: bool)
      requires Valid()
      modifies this`files, this`handle, this`records
      ensures Valid() && ok == !fails
      ensures fails ==> unchanged(this)
      ensures !fails ==> Value() == Log(Reopen(old(records), []), Live)
    {
      if fails { return false; }
      if 0 !in files {
        files, records := files[0 := []], records[0 := []];
      }
      handle := Live;
      return true;
    }

    /** Removes the destination, then renames file i to i + 1. */
    method RenameUp(i: nat, f: Faults) returns (ok: bool)
      requires Valid() && handle == Stale && i in files
      modifies this`files, this`records
      ensures Valid() && (records, ok) == MoveUp(old(records), i, f)
    {
      if i + 1 !in f.removes { files, records := files - {i + 1}, records - {i + 1}; }
      if i in f.renames { return false; }
      files, records := files[i + 1 := files[i]] - {i}, records[i + 1 := records[i]] - {i};
      return true;
    }

    method Rotate(f: Faults) returns (ok: bool)
      requires Valid()
      modifies this`files, this`handle, this`records
      ensures Valid() && ok == (handle == Live)
      ensures (records, handle) == Rotated(old(records), maxBackups, [], f)
    {
      handle := Stale;
      if f.close { return false; }
      var i := maxBackups;
      while i >= 1
        invariant Valid() && handle == Stale
        invariant Shift(records, i, f) == Shift(old(records), maxBackups, f)
      {
        if i in files {
          var moved := RenameUp(i, f);
          if !moved { return false; }
        }
        i := i - 1;
      }
      if 0 in files {
        var moved := RenameUp(0, f);
        if !moved { return false; }
      } else if 1 !in f.removes {
        files, records := files - {1}, records - {1};
      }
      ok := Open(f.reopen);
    }

    method RotateIfNeeded(incoming: nat, f: Faults) returns (ok: bool)
      requires Valid() && handle != NoFile
      modifies this`files, this`handle, this`records
      ensures Valid() && (ok ==> handle == Live)
      ensures (Value(), ok) == Prepared(old(Value()), maxBytes, maxBackups, incoming, f)
    {
      if handle == Stale || f.stat { return false; }
      if |files[0]| + incoming <= maxBytes { return true; }
      ok := Rotate(f);
    }

    /** The file's own write, which may stop part-way. */
    method Append(p: Bytes, f: Faults) returns (n: nat)
      requires Valid() && 0 in files
      modifies this`files, this`records
      ensures Valid() && n == |Landed(p, f)|
      ensures records == old(records)[0 := old(records)[0] + [Landed(p, f)]]
      ensures n == (if f.keep < |p| then f.keep else |p|) && files == old(files)[0 := old(files)[0] + p[..n]]
    {
      n := if f.keep < |p| then f.keep else |p|;
      ghost var landed := Landed(p, f);
      assert p[..n] == landed;
      JoinAppend(records[0], landed);
      files, records := files[0 := files[0] + p[..n]], records[0 := records[0] + [landed]];
    }

    method Write(p: Bytes, f: Faults) returns (n: nat, ok: bool)
      requires Valid()
      modifies this`files, this`handle, this`records
      ensures Valid()
      ensures Value() == Written(old(Value()), maxBytes, maxBackups, p, f).0
      ensures var landed := Written(old(Value()), maxBytes, maxBackups, p, f).1;
              n == Size(landed) && ok == (landed == [p])
      ensures n <= |p| && (n > 0 || ok ==> 0 in files && n <= |files[0]| && files[0][|files[0]| - n..] == p[..n])
      ensures ok ==> n == |p|
    {
      JoinAppend([], Landed(p, f));
      if handle == NoFile {
        var isOpen := Open(f.open);
        if !isOpen { return 0, false; }
      }
      assert Value() == Opened(old(Value()), f.open);
      var ready := RotateIfNeeded(|p|, f);
      if !ready { return 0, false; }
      n := Append(p, f);
      ok := n == |p|;
    }

    /** Closing again a file that a rotation has closed is an error; the writer forgets it anyway. */
    method Close(fails: bool) returns (ok: bool)
      requires Valid()
      modifies this`handle
      ensures Valid() && Value() == old(Value()).(handle := NoFile)
      ensures ok <==> old(handle) == NoFile || (old(handle) == Live && !fails)
    {
      if handle == NoFile { return true; }
      ok := handle == Live && !fails;
      handle := NoFile;
    }
  }
}

/** What the rotating log keeps, over every run of writes and closes. */
module RotatingLogRuns {
  import opened Basics
  import opened Files
  import opened RotatingLog

  datatype Limits = Limits(maxBytes: nat, backups: nat)

  datatype Op = WriteOp(p: Bytes, f: Faults) | CloseOp

  function Step(log: Log, lim: Limits, op: Op): (Log, Records) {
    match op
    case WriteOp(p, f) => Written(log, lim.maxBytes, lim.backups, p, f)
    case CloseOp => (log.(handle := NoFile), [])
  }

  function Run(log: Log, lim: Limits, ops: seq<Op>): Log {
    if ops == [] then log else Step(Run(log, lim, ops[..|ops| - 1]), lim, ops[|ops| - 1]).0
  }

  /** Every record the run put on disk, in order. */
  function Landings(log: Log, lim: Limits, ops: seq<Op>): Records {
    if ops == [] then []
    else Landings(log, lim, ops[..|ops| - 1]) + Step(Run(log, lim, ops[..|ops| - 1]), lim, ops[|ops| - 1]).1
  }

  const FRESH := Log(map[0 := []], Live)

  // ---------- The retained records are a suffix of everything written ----------

  lemma RetainedAgree(a: map<nat, Records>, b: map<nat, Records>, top: nat)
    requires forall j: nat | j <= top :: (j in a <==> j in b) && (j in a ==> a[j] == b[j])
    ensures Retained(a, top) == Retained(b, top)
  {}

  lemma RetainedSkip(m: map<nat, Records>, top: nat)
    requires top !in m
    ensures Retained(m, top) == if top == 0 then [] else Retained(m, top - 1)
  {}

  lemma {:induction false} RetainedMove(m: map<nat, Records>, i: nat, top: nat)
    requires i in m && i + 1 !in m && i < top
    ensures Retained(m[i + 1 := m[i]] - {i}, top) == Retained(m, top)
  {
    var m' := m[i + 1 := m[i]] - {i};
    if top > i + 1 {
      RetainedMove(m, i, top - 1);
    } else {
      RetainedSkip(m, i + 1);
      RetainedSkip(m', i);
      if i > 0 { RetainedAgree(m, m', i - 1); }
    }
  }

  lemma RetainedDrop(m: map<nat, Records>, top: nat)
    requires top > 0 && top in m
    ensures Retained(m, top) == m[top] + Retained(m - {top}, top)
  {
    RetainedAgree(m, m - {top}, top - 1);
  }

  /** Nothing is lost between `before` and `after` except, possibly, the whole oldest backup. */
  ghost predicate LosesAtMostOldest(before: map<nat, Records>, after: map<nat, Records>, added: Records, backups: nat) {
    || Retained(before, backups + 1) + added == Retained(after, backups + 1)
    || (backups + 1 in before
        && Retained(before, backups + 1) + added == before[backups + 1] + Retained(after, backups + 1))
  }

  lemma MoveUpRetains(m: map<nat, Records>, i: nat, f: Faults, backups: nat)
    requires i in m && i <= backups && (i < backups ==> i + 1 !in m)
    ensures LosesAtMostOldest(m, MoveUp(m, i, f).0, [], backups)
    ensures i < backups ==> Retained(MoveUp(m, i, f).0, backups + 1) == Retained(m, backups + 1)
    ensures i < backups && !MoveUp(m, i, f).1 ==> MoveUp(m, i, f).0 == m
  {
    var cleared := if i + 1 in f.removes then m else m - {i + 1};
    if i + 1 in m {
      RetainedDrop(m, i + 1);
      assert cleared[i + 1 := m[i]] - {i} == (m - {i + 1})[i + 1 := m[i]] - {i};
      RetainedMove(m - {i + 1}, i, backups + 1);
    } else {
      assert cleared == m;
      RetainedMove(m, i, backups + 1);
    }
  }

  lemma {:induction false} ShiftRetains(m: map<nat, Records>, i: nat, f: Faults, backups: nat)
    requires i <= backups && (i < backups ==> i + 1 !in m)
    ensures LosesAtMostOldest(m, Shift(m, i, f).0, [], backups)
    ensures i < backups ==> Retained(Shift(m, i, f).0, backups + 1) == Retained(m, backups + 1)
    ensures backups >= 1 && Shift(m, i, f).1 ==> 1 !in Shift(m, i, f).0
    decreases i
  {
    if i == 0 {
    } else if i !in m {
      ShiftRetains(m, i - 1, f, backups);
    } else {
      MoveUpRetains(m, i, f, backups);
      var (moved, ok) := MoveUp(m, i, f);
      if ok { ShiftRetains(moved, i - 1, f, backups); }
    }
  }

  lemma {:induction false} ReopenRetains(m: map<nat, Records>, top: nat)
    ensures Retained(Reopen(m, []), top) == Retained(m, top)
  {
    if top > 0 { ReopenRetains(m, top - 1); }
  }

  lemma RotatedRetains(m: map<nat, Records>, f: Faults, backups: nat)
    requires backups >= 1
    ensures LosesAtMostOldest(m, Rotated(m, backups, [], f).0, [], backups)
  {
    if !f.close {
      ShiftRetains(m, backups, f, backups);
      var (shifted, ok) := Shift(m, backups, f);
      if ok {
        if 0 in shifted { MoveUpRetains(shifted, 0, f, backups); }
        var moved := if 0 in shifted then MoveUp(shifted, 0, f).0 else shifted;
        assert 0 !in shifted && 1 !in f.removes ==> shifted - {1} == shifted;
        ReopenRetains(moved, backups + 1);
      }
    }
  }

  lemma {:induction false} RetainedAppend(m: map<nat, Records>, r: Bytes, top: nat)
    requires 0 in m
    ensures Retained(m[0 := m[0] + [r]], top) == Retained(m, top) + [r]
  {
    if top > 0 { RetainedAppend(m, r, top - 1); }
  }

  lemma LosesThenAdds(before: map<nat, Records>, mid: map<nat, Records>, after: map<nat, Records>, added: Records,
                      backups: nat)
    requires before == mid || LosesAtMostOldest(before, mid, [], backups)
    requires Retained(after, backups + 1) == Retained(mid, backups + 1) + added
    ensures LosesAtMostOldest(before, after, added, backups)
  {
    var was, now := Retained(before, backups + 1), Retained(mid, backups + 1);
    assert was + [] == was;
    if was != now {
      var gone := before[backups + 1];
      assert was == gone + now;
      assert gone + now + added == gone + (now + added);
    }
  }

  /** One call, with any operations failing, loses at most the whole oldest backup. */
  lemma StepRetains(log: Log, lim: Limits, op: Op)
    requires lim.backups >= 1
    ensures LosesAtMostOldest(log.files, Step(log, lim, op).0.files, Step(log, lim, op).1, lim.backups)
  {
    if op.WriteOp? {
      var top := lim.backups + 1;
      var isOpen := Opened(log, op.f.open);
      ReopenRetains(log.files, top);
      var (ready, ok) := Prepared(isOpen, lim.maxBytes, lim.backups, |op.p|, op.f);
      RotatedRetains(isOpen.files, op.f, lim.backups);
      if ok && 0 in ready.files {
        RetainedAppend(ready.files, Landed(op.p, op.f), top);
        LosesThenAdds(isOpen.files, ready.files, Step(log, lim, op).0.files, Step(log, lim, op).1, lim.backups);
      }
    }
  }

  lemma SuffixExtends(before: map<nat, Records>, after: map<nat, Records>, added: Records, backups: nat,
                      start: Records, landed: Records, lost: Records)
    returns (lost': Records)
    requires start + landed == lost + Retained(before, backups + 1)
    requires LosesAtMostOldest(before, after, added, backups)
    ensures start + (landed + added) == lost' + Retained(after, backups + 1)
  {
    var kept := Retained(before, backups + 1);
    assert start + (landed + added) == start + landed + added == lost + (kept + added);
    if kept + added == Retained(after, backups + 1) { return lost; }
    lost' := lost + before[backups + 1];
    assert lost + (before[backups + 1] + Retained(after, backups + 1)) == lost' + Retained(after, backups + 1);
  }

  /** Over any run, with any file operations failing, what the files hold from oldest to newest
      is a suffix of what they held at the start followed by every record written. */
  lemma {:induction false} RetainedIsSuffix(log: Log, lim: Limits, ops: seq<Op>) returns (lost: Records)
    requires lim.backups >= 1
    ensures Retained(log.files, lim.backups + 1) + Landings(log, lim, ops)
            == lost + Retained(Run(log, lim, ops).files, lim.backups + 1)
  {
    if ops == [] { return []; }
    var init, op := ops[..|ops| - 1], ops[|ops| - 1];
    var before := Run(log, lim, init);
    lost := RetainedIsSuffix(log, lim, init);
    StepRetains(before, lim, op);
    lost := SuffixExtends(before.files, Step(before, lim, op).0.files, Step(before, lim, op).1, lim.backups,
                          Retained(log.files, lim.backups + 1), Landings(log, lim, init), lost);
  }

  lemma {:induction false} JoinConcat(a: Records, b: Records)
    ensures Join(a + b) == Join(a) + Join(b)
  {
    if b == [] {
      assert a + b == a;
    } else {
      var init := b[..|b| - 1];
      assert (a + b)[..|a + b| - 1] == a + init;
      JoinConcat(a, init);
    }
  }

  /** The same for bytes: the files' contents, oldest first, end the stream of bytes written. */
  lemma BytesAreSuffix(log: Log, lim: Limits, ops: seq<Op>) returns (lost: Bytes)
    requires lim.backups >= 1
    ensures Join(Retained(log.files, lim.backups + 1)) + Join(Landings(log, lim, ops))
            == lost + Join(Retained(Run(log, lim, ops).files, lim.backups + 1))
  {
    var gone := RetainedIsSuffix(log, lim, ops);
    JoinConcat(Retained(log.files, lim.backups + 1), Landings(log, lim, ops));
    JoinConcat(gone, Retained(Run(log, lim, ops).files, lim.backups + 1));
    lost := Join(gone);
  }

  // ---------- A failed rotation silences the log until it is closed ----------

  /** The rename of an existing file among `files` 0, ..., i fails. */
  ghost predicate RenameFails(m: map<nat, Records>, i: nat, f: Faults) {
    exists k: nat :: k <= i && k in m && k in f.renames
  }

  lemma {:induction false} ShiftFailsIff(m: map<nat, Records>, i: nat, f: Faults)
    ensures !Shift(m, i, f).1 <==> exists k: nat :: 1 <= k <= i && k in m && k in f.renames
    ensures 0 in Shift(m, i, f).0 <==> 0 in m
    decreases i
  {
    if i > 0 {
      var moved := if i in m then MoveUp(m, i, f).0 else m;
      ShiftFailsIff(moved, i - 1, f);
      assert forall k: nat | k < i :: k in moved <==> k in m;
    }
  }

  /** A rotation leaves a closed file behind exactly when closing, reopening or the rename of an
      existing file fails; failing removals do not matter. */
  ghost predicate RotationFails(m: map<nat, Records>, backups: nat, f: Faults) {
    f.close || f.reopen || RenameFails(m, backups, f)
  }

  lemma RotatedStaleIff(m: map<nat, Records>, backups: nat, f: Faults)
    ensures Rotated(m, backups, [], f).1 == Stale <==> RotationFails(m, backups, f)
    ensures Rotated(m, backups, [], f).1 == Live ==> 0 in Rotated(m, backups, [], f).0
  {
    ShiftFailsIff(m, backups, f);
  }

  /** The file is open and the write of p makes it rotate. */
  predicate Rotates(log: Log, lim: Limits, p: Bytes, f: Faults) {
    log.handle == Live && !f.stat && 0 in log.files && Size(log.files[0]) + |p| > lim.maxBytes
  }

  /** A write leaves a closed file behind exactly when there was one, or it rotates and the rotation
      fails; it is dropped exactly then, or when the file cannot be opened or its size not be read. */
  lemma WriteDroppedIff(log: Log, lim: Limits, p: Bytes, f: Faults)
    ensures var ready := Opened(log, f.open);
            var failed := Rotates(ready, lim, p, f) && RotationFails(ready.files, lim.backups, f);
            && (Step(log, lim, WriteOp(p, f)).0.handle == Stale <==> log.handle == Stale || failed)
            && (Step(log, lim, WriteOp(p, f)).1 == [] <==>
                  ready.handle != Live || f.stat || 0 !in ready.files || failed)
  {
    RotatedStaleIff(Opened(log, f.open).files, lim.backups, f);
  }

  /** From then on every write is dropped until the writer is closed. */
  lemma {:induction false} StaleIsSilent(log: Log, lim: Limits, ops: seq<Op>)
    requires log.handle == Stale && forall i | 0 <= i < |ops| :: ops[i].WriteOp?
    ensures Run(log, lim, ops) == log && Landings(log, lim, ops) == []
  {
    if ops != [] { StaleIsSilent(log, lim, ops[..|ops| - 1]); }
  }

  /** Operation i of the run is a write whose rotation fails. */
  ghost predicate RotationFailsAt(log: Log, lim: Limits, ops: seq<Op>, i: nat) {
    i < |ops| && ops[i].WriteOp? &&
    var ready := Opened(Run(log, lim, ops[..i]), ops[i].f.open);
    Rotates(ready, lim, ops[i].p, ops[i].f) && RotationFails(ready.files, lim.backups, ops[i].f)
  }

  /** That happened, and nobody has closed the writer since. */
  ghost predicate SilencedAt(log: Log, lim: Limits, ops: seq<Op>, i: nat) {
    RotationFailsAt(log, lim, ops, i) && forall k | i < k < |ops| :: ops[k].WriteOp?
  }

  lemma SilencedEarlier(log: Log, lim: Limits, ops: seq<Op>, i: nat)
    requires i + 1 < |ops|
    ensures SilencedAt(log, lim, ops, i)
       <==> SilencedAt(log, lim, ops[..|ops| - 1], i) && ops[|ops| - 1].WriteOp?
  {
    assert ops[..|ops| - 1][..i] == ops[..i];
  }

  lemma SilencedNow(log: Log, lim: Limits, init: seq<Op>, op: Op)
    ensures Run(log, lim, init + [op]).handle == Stale
       <==> op.WriteOp? && (Run(log, lim, init).handle == Stale || SilencedAt(log, lim, init + [op], |init|))
  {
    var ops := init + [op];
    assert ops[..|init|] == init;
    if op.WriteOp? { WriteDroppedIff(Run(log, lim, init), lim, op.p, op.f); }
  }

  /** The writer is silent exactly when some write's rotation failed and nobody closed it since. */
  lemma {:induction false} SilentIff(log: Log, lim: Limits, ops: seq<Op>)
    requires log.handle != Stale
    ensures Run(log, lim, ops).handle == Stale <==> exists i: nat :: SilencedAt(log, lim, ops, i)
  {
    if ops != [] {
      var init, op := ops[..|ops| - 1], ops[|ops| - 1];
      assert ops == init + [op];
      SilentIff(log, lim, init);
      SilencedNow(log, lim, init, op);
      forall i: nat | i < |init|
        ensures SilencedAt(log, lim, ops, i) <==> SilencedAt(log, lim, init, i) && op.WriteOp?
      {
        SilencedEarlier(log, lim, ops, i);
      }
    }
  }

  function Fine(p: Bytes): Faults { Faults(false, false, false, {}, {}, false, |p|) }

  /** It does happen, with any limits: when the second write overflows and one rename fails, that
      write and the next one, in which nothing fails, leave no byte. */
  lemma FailedRenameSilences(lim: Limits, a: Bytes, b: Bytes, c: Bytes)
    requires lim.backups >= 1 && |a| <= lim.maxBytes < |a| + |b|
    ensures var ops := [WriteOp(a, Fine(a)), WriteOp(b, Fine(b).(renames := {0})), WriteOp(c, Fine(c))];
            Run(FRESH, lim, ops).handle == Stale && Landings(FRESH, lim, ops) == [a]
  {
    var first, second, third := WriteOp(a, Fine(a)), WriteOp(b, Fine(b).(renames := {0})), WriteOp(c, Fine(c));
    var after := Run(FRESH, lim, [first]);
    assert [first][..0] == [] && [first, second][..1] == [first] && [first, second, third][..2] == [first, second];
    JoinAppend([], a);
    assert Join([]) == [] && [] + [a] == [a];
    assert after == Log(map[0 := [a]], Live) && Landings(FRESH, lim, [first]) == [a];
    WriteDroppedIff(after, lim, b, second.f);
    assert RenameFails(after.files, lim.backups, second.f);
    WriteDroppedIff(Run(FRESH, lim, [first, second]), lim, c, third.f);
  }

  // ---------- Bounds, from a fresh start with no failing operation ----------

  ghost predicate Clean(ops: seq<Op>) {
    forall i | 0 <= i < |ops| && ops[i].WriteOp? :: Faultless(ops[i].f, ops[i].p)
  }

  predicate Overflows(log: Log, lim: Limits, op: Op) {
    op.WriteOp? && (if 0 in log.files then Size(log.files[0]) else 0) + |op.p| > lim.maxBytes
  }

  function Rotations(log: Log, lim: Limits, ops: seq<Op>): nat {
    if ops == [] then 0
    else
      var init := ops[..|ops| - 1];
      Rotations(log, lim, init) + if Overflows(Run(log, lim, init), lim, ops[|ops| - 1]) then 1 else 0
  }

  /** The files are exactly 0..top, and any two neighbours together exceed the size limit. */
  ghost predicate Packed(files: map<nat, Records>, top: nat, maxBytes: nat) {
    && (forall j: nat :: j in files <==> j <= top)
    && (forall j: nat | 1 <= j <= top :: Size(files[j - 1]) + Size(files[j]) > maxBytes)
  }

  /** Where slot j of the shifted files `r` comes from, when backups i, ..., 1 were moved up. */
  ghost predicate MovedUpAt(m: map<nat, Records>, r: map<nat, Records>, i: nat, j: nat) {
    if i == 0 || j == 0 || j > i + 1 || (j == i + 1 && i !in m) then (j in r <==> j in m) && (j in m ==> r[j] == m[j])
    else if j > 1 && j - 1 in m then j in r && r[j] == m[j - 1]
    else j !in r
  }

  lemma {:induction false} CleanShift(m: map<nat, Records>, i: nat, f: Faults)
    requires f.removes == {} && f.renames == {}
    ensures Shift(m, i, f).1
    ensures forall j: nat :: MovedUpAt(m, Shift(m, i, f).0, i, j)
    decreases i
  {
    if i > 0 {
      var moved := if i in m then MoveUp(m, i, f).0 else m;
      CleanShift(moved, i - 1, f);
      forall j: nat ensures MovedUpAt(m, Shift(m, i, f).0, i, j) {
        assert MovedUpAt(moved, Shift(moved, i - 1, f).0, i - 1, j);
      }
    }
  }

  /** A rotation without failures makes every file one older and drops file backups + 1. */
  lemma CleanRotation(m: map<nat, Records>, backups: nat, top: nat, f: Faults)
    requires !f.close && f.removes == {} && f.renames == {} && !f.reopen
    requires backups >= 1 && top <= backups + 1
    requires forall j: nat :: j in m <==> j <= top
    ensures Rotated(m, backups, [], f).1 == Live
    ensures var r := Rotated(m, backups, [], f).0;
            && (forall j: nat :: j in r <==> j <= Min(top + 1, backups + 1))
            && r[0] == []
            && (forall j: nat | 1 <= j <= Min(top + 1, backups + 1) :: r[j] == m[j - 1])
  {
    CleanShift(m, backups, f);
    var shifted := Shift(m, backups, f).0;
    var r := Rotated(m, backups, [], f).0;
    assert MovedUpAt(m, shifted, backups, 0) && MovedUpAt(m, shifted, backups, 1);
    forall j: nat
      ensures j in r <==> j <= Min(top + 1, backups + 1)
      ensures 1 <= j <= Min(top + 1, backups + 1) ==> r[j] == m[j - 1]
    {
      assert MovedUpAt(m, shifted, backups, j);
    }
  }

  ghost predicate AllFit(files: map<nat, Records>, maxBytes: nat) {
    forall j | j in files :: Size(files[j]) <= maxBytes
  }

  ghost predicate WritesFit(ops: seq<Op>, maxBytes: nat) {
    forall i | 0 <= i < |ops| && ops[i].WriteOp? :: |ops[i].p| <= maxBytes
  }

  /** A write without failures appends to the current file, after a rotation if it overflows. */
  lemma CleanWrite(log: Log, lim: Limits, p: Bytes, f: Faults)
    requires 0 in log.files && log.handle != Stale && Faultless(f, p)
    requires Rotated(log.files, lim.backups, [], f).1 == Live && 0 in Rotated(log.files, lim.backups, [], f).0
    ensures var rotated := Rotated(log.files, lim.backups, [], f).0;
            var base := if Overflows(log, lim, WriteOp(p, f)) then rotated else log.files;
            Step(log, lim, WriteOp(p, f)) == (Log(base[0 := base[0] + [p]], Live), [p])
  {
    assert Opened(log, f.open).files == log.files;
    assert Landed(p, f) == p;
  }

  lemma AppendKeepsPacked(m: map<nat, Records>, top: nat, maxBytes: nat, p: Bytes)
    requires (forall j: nat :: j in m <==> j <= top)
    requires forall j: nat | 2 <= j <= top :: Size(m[j - 1]) + Size(m[j]) > maxBytes
    requires top >= 1 ==> Size(m[0]) + |p| + Size(m[1]) > maxBytes
    ensures Packed(m[0 := m[0] + [p]], top, maxBytes)
  {
    JoinAppend(m[0], p);
  }

  ghost predicate Ready(log: Log, lim: Limits, top: nat) {
    lim.backups >= 1 && top <= lim.backups + 1 && log.handle != Stale && Packed(log.files, top, lim.maxBytes)
  }

  /** The files just before the record of a write without failures is appended. */
  ghost function Base(log: Log, lim: Limits, op: Op): map<nat, Records>
    requires op.WriteOp?
  {
    if Overflows(log, lim, op) then Rotated(log.files, lim.backups, [], op.f).0 else log.files
  }

  lemma CleanBase(log: Log, lim: Limits, op: Op, top: nat)
    requires Ready(log, lim, top) && op.WriteOp? && Faultless(op.f, op.p)
    ensures 0 in Base(log, lim, op)
    ensures Step(log, lim, op) == (Log(Base(log, lim, op)[0 := Base(log, lim, op)[0] + [op.p]], Live), [op.p])
  {
    CleanRotation(log.files, lim.backups, top, op.f);
    CleanWrite(log, lim, op.p, op.f);
  }

  lemma CleanStep(log: Log, lim: Limits, op: Op, top: nat)
    requires Ready(log, lim, top) && op.WriteOp? && Faultless(op.f, op.p)
    ensures Ready(Step(log, lim, op).0, lim, if Overflows(log, lim, op) then Min(top + 1, lim.backups + 1) else top)
  {
    CleanBase(log, lim, op, top);
    if Overflows(log, lim, op) {
      CleanRotation(log.files, lim.backups, top, op.f);
      AppendKeepsPacked(Base(log, lim, op), Min(top + 1, lim.backups + 1), lim.maxBytes, op.p);
    } else {
      AppendKeepsPacked(log.files, top, lim.maxBytes, op.p);
    }
  }

  /** Only the files 0, ..., top exist, and each of them fits. */
  ghost predicate Bounded(files: map<nat, Records>, maxBytes: nat, top: nat) {
    AllFit(files, maxBytes) && forall j | j in files :: j <= top
  }

  lemma {:induction false} ShiftKeepsBounded(m: map<nat, Records>, i: nat, f: Faults, maxBytes: nat, top: nat)
    requires Bounded(m, maxBytes, top) && i < top
    ensures Bounded(Shift(m, i, f).0, maxBytes, top)
    decreases i
  {
    if i > 0 {
      var (moved, ok) := if i in m then MoveUp(m, i, f) else (m, true);
      if ok { ShiftKeepsBounded(moved, i - 1, f, maxBytes, top); }
    }
  }

  lemma RotatedKeepsBounded(m: map<nat, Records>, backups: nat, f: Faults, maxBytes: nat)
    requires Bounded(m, maxBytes, backups + 1)
    ensures Bounded(Rotated(m, backups, [], f).0, maxBytes, backups + 1)
    ensures Rotated(m, backups, [], f).1 == Live ==>
              0 in Rotated(m, backups, [], f).0 && Rotated(m, backups, [], f).0[0] == []
  {
    ShiftKeepsBounded(m, backups, f, maxBytes, backups + 1);
  }

  lemma StepKeepsBounded(log: Log, lim: Limits, op: Op)
    requires Bounded(log.files, lim.maxBytes, lim.backups + 1) && (op.WriteOp? ==> |op.p| <= lim.maxBytes)
    ensures Bounded(Step(log, lim, op).0.files, lim.maxBytes, lim.backups + 1)
  {
    if op.WriteOp? {
      var isOpen := Opened(log, op.f.open);
      assert Size([]) == 0;
      RotatedKeepsBounded(isOpen.files, lim.backups, op.f, lim.maxBytes);
      var (ready, ok) := Prepared(isOpen, lim.maxBytes, lim.backups, |op.p|, op.f);
      if ok && 0 in ready.files { JoinAppend(ready.files[0], Landed(op.p, op.f)); }
    }
  }

  /** Whatever fails, when each write fits, each file fits and none is older than number backups + 1. */
  lemma {:induction false} RunIsBounded(lim: Limits, ops: seq<Op>)
    requires WritesFit(ops, lim.maxBytes)
    ensures Bounded(Run(FRESH, lim, ops).files, lim.maxBytes, lim.backups + 1)
  {
    if ops != [] {
      RunIsBounded(lim, ops[..|ops| - 1]);
      StepKeepsBounded(Run(FRESH, lim, ops[..|ops| - 1]), lim, ops[|ops| - 1]);
    } else {
      assert Size([]) == 0;
    }
  }

  /** After r rotations exactly the files 0..min(r, backups + 1) exist, so one more backup
      than the configured number survives, and neighbours exceed the size limit together. */
  lemma {:induction false} CleanRunIsPacked(lim: Limits, ops: seq<Op>)
    requires lim.backups >= 1 && Clean(ops)
    ensures Ready(Run(FRESH, lim, ops), lim, Min(Rotations(FRESH, lim, ops), lim.backups + 1))
    ensures WritesFit(ops, lim.maxBytes) ==> AllFit(Run(FRESH, lim, ops).files, lim.maxBytes)
  {
    if ops != [] {
      var init, op := ops[..|ops| - 1], ops[|ops| - 1];
      var before, top := Run(FRESH, lim, init), Min(Rotations(FRESH, lim, init), lim.backups + 1);
      CleanRunIsPacked(lim, init);
      if op.WriteOp? {
        CleanStep(before, lim, op, top);
      }
    }
    if WritesFit(ops, lim.maxBytes) { RunIsBounded(lim, ops); }
  }

  lemma SizeSplits(files: map<nat, Records>, top: nat)
    ensures Size(Retained(files, top)) == (if top in files then Size(files[top]) else 0)
                                          + (if top == 0 then 0 else Size(Retained(files, top - 1)))
  {
    JoinConcat(if top in files then files[top] else [], if top == 0 then [] else Retained(files, top - 1));
  }

  /** maxBytes + 1 for each pair of neighbours among the files upTo, ..., 0. */
  function PairSum(upTo: nat, maxBytes: nat): nat {
    if upTo == 0 then 0 else maxBytes + 1 + if upTo == 1 then 0 else PairSum(upTo - 2, maxBytes)
  }

  lemma {:induction false} PairSumExceeds(upTo: nat, maxBytes: nat)
    ensures PairSum(upTo, maxBytes) == (upTo + 1) / 2 * maxBytes + (upTo + 1) / 2
  {
    if upTo >= 2 {
      PairSumExceeds(upTo - 2, maxBytes);
      assert (upTo + 1) / 2 == (upTo - 1) / 2 + 1;
      assert ((upTo - 1) / 2 + 1) * maxBytes == (upTo - 1) / 2 * maxBytes + maxBytes;
    }
  }

  /** The two oldest of the files upTo, ..., 0, and the rest. */
  lemma SizeSplitsTwice(files: map<nat, Records>, upTo: nat)
    requires upTo >= 1 && upTo in files && upTo - 1 in files
    ensures Size(Retained(files, upTo))
         == Size(files[upTo]) + Size(files[upTo - 1]) + if upTo >= 2 then Size(Retained(files, upTo - 2)) else 0
  {
    SizeSplits(files, upTo);
    SizeSplits(files, upTo - 1);
  }

  lemma {:induction false} PackedSize(files: map<nat, Records>, top: nat, maxBytes: nat, upTo: nat)
    requires Packed(files, top, maxBytes) && upTo <= top
    ensures Size(Retained(files, upTo)) >= PairSum(upTo, maxBytes)
  {
    if upTo >= 1 {
      SizeSplitsTwice(files, upTo);
      if upTo >= 2 { PackedSize(files, top, maxBytes, upTo - 2); }
    }
  }

  lemma {:induction false} BoundedSize(files: map<nat, Records>, maxBytes: nat, top: nat)
    requires AllFit(files, maxBytes)
    ensures Size(Retained(files, top)) <= (top + 1) * maxBytes
  {
    SizeSplits(files, top);
    if top > 0 { BoundedSize(files, maxBytes, top - 1); }
  }

  /** The retained log is never longer than backups + 2 full files, whatever fails. */
  lemma LogAtMost(lim: Limits, ops: seq<Op>)
    requires WritesFit(ops, lim.maxBytes)
    ensures Size(Retained(Run(FRESH, lim, ops).files, lim.backups + 1)) <= (lim.backups + 2) * lim.maxBytes
  {
    RunIsBounded(lim, ops);
    var top := lim.backups + 1;
    BoundedSize(Run(FRESH, lim, ops).files, lim.maxBytes, top);
    assert (top + 1) * lim.maxBytes == (lim.backups + 2) * lim.maxBytes by { assert top + 1 == lim.backups + 2; }
  }

  lemma {:induction false} EmptyRetained(top: nat)
    ensures Retained(FRESH.files, top) == []
  {
    if top > 0 { EmptyRetained(top - 1); }
  }

  /** Until the backups + 2 files all exist, every byte written is still there. */
  lemma {:induction false} NothingLostBeforeFull(lim: Limits, ops: seq<Op>)
    requires lim.backups >= 1 && Clean(ops) && lim.backups + 1 !in Run(FRESH, lim, ops).files
    ensures Retained(Run(FRESH, lim, ops).files, lim.backups + 1) == Landings(FRESH, lim, ops)
  {
    if ops == [] {
      EmptyRetained(lim.backups + 1);
    } else {
      var init := ops[..|ops| - 1];
      CleanRunIsPacked(lim, init);
      CleanRunIsPacked(lim, ops);
      NothingLostBeforeFull(lim, init);
      StepRetains(Run(FRESH, lim, init), lim, ops[|ops| - 1]);
    }
  }

  /** Once any byte was discarded the log is longer than floor((backups + 2) / 2) * maxBytes. */
  lemma LogAtLeast(lim: Limits, ops: seq<Op>)
    requires lim.backups >= 1 && Clean(ops)
    requires Size(Retained(Run(FRESH, lim, ops).files, lim.backups + 1)) < Size(Landings(FRESH, lim, ops))
    ensures Size(Retained(Run(FRESH, lim, ops).files, lim.backups + 1)) > (lim.backups + 2) / 2 * lim.maxBytes
  {
    var files, n := Run(FRESH, lim, ops).files, lim.backups + 1;
    if n !in files {
      NothingLostBeforeFull(lim, ops);
      assert false;
    }
    CleanRunIsPacked(lim, ops);
    PackedSize(files, n, lim.maxBytes, n);
    PairSumExceeds(n, lim.maxBytes);
  }
}
