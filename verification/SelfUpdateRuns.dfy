/** Whole runs of the self-update: stagings, starts of helpers, and the helpers themselves, which run
    when they like and restart the service. */
module SelfUpdateRuns {
  import opened Basics
  import opened FileHash
  import opened Files
  import opened SelfUpdate
  import opened Versions
  import H = UpdateHelper

  datatype Action =
    | Staging(o: Offer, s: StageRun)
    | Starting(r: ApplyRun)
    | Helping(k: nat, stamp: string, f: H.Faults)

  /** One action and the agent after it. */
  datatype Did = Did(act: Action, after: Agent)

  /** A run, and the executable the service was installed with. */
  datatype Scene = Scene(cfg: Config, hash: Bytes -> string, original: Bytes, start: Agent, steps: seq<Did>)

  function Step(x: Scene, a: Agent, act: Action): Agent {
    match act
    case Staging(o, s) => Stage(a, x.cfg, x.hash, o, s).0
    case Starting(r) => StartHelper(a, x.cfg, x.hash, r).0
    case Helping(k, stamp, f) => FinishHelper(a, x.cfg, k, stamp, f)
  }

  /** The agent after the first n actions. */
  function StateAt(x: Scene, n: nat): Agent
    requires n <= |x.steps|
  {
    if n == 0 then x.start else x.steps[n - 1].after
  }

  predicate IsStep(x: Scene, i: int) { 0 <= i < |x.steps| }

  /** Every agent follows from the one before it. */
  ghost predicate IsRun(x: Scene) {
    forall i {:trigger IsStep(x, i)} | IsStep(x, i) :: x.steps[i].after == Step(x, StateAt(x, i), x.steps[i].act)
  }

  lemma NextState(x: Scene, i: nat)
    requires IsRun(x) && i < |x.steps|
    ensures StateAt(x, i + 1) == Step(x, StateAt(x, i), x.steps[i].act)
  {
    assert IsStep(x, i);
  }

  /** The run with one more action. */
  function GoOn(x: Scene, act: Action): Scene {
    x.(steps := x.steps + [Did(act, Step(x, StateAt(x, |x.steps|), act))])
  }

  /** Every run goes on with every action. */
  lemma RunGoesOn(x: Scene, act: Action)
    requires IsRun(x)
    ensures IsRun(GoOn(x, act)) && |GoOn(x, act).steps| == |x.steps| + 1
    ensures StateAt(GoOn(x, act), |x.steps| + 1) == Step(x, StateAt(x, |x.steps|), act)
  {
    var n, longer := |x.steps|, GoOn(x, act);
    forall i | IsStep(longer, i)
      ensures longer.steps[i].after == Step(longer, StateAt(longer, i), longer.steps[i].act)
    {
      if i < n { NextState(x, i); }
      assert StateAt(longer, i) == StateAt(x, i);
    }
  }

  /** What StageIfNeeded has accepted, ApplyIfPending accepts: only its own failures, a missing
      setting, or automatic application being off keep the helper from starting. */
  lemma StagedIsApplied(a: Agent, cfg: Config, hash: Bytes -> string, o: Offer, s: StageRun, r: ApplyRun)
    requires Stage(a, cfg, hash, o, s).1 == Done
    ensures var b := Stage(a, cfg, hash, o, s).0;
            && b.pending == Readable(Meta(o.version, StagedPath(cfg, o.version), o.hash, o.force))
            && Apply(b, cfg, hash, r)
               == if !cfg.autoApply then Nothing
                  else if r.unreadable || cfg.helperPath == "" || cfg.target == "" || r.startFails then Refuse
                  else Done
  {
    assert StagedPath(cfg, o.version) != "";
  }

  /** Each call of applySelfUpdateChanges is a run of at most one staging followed by at most one start
      of a helper, so what holds over all runs holds over all sequences of calls. */
  lemma ChangesAreRuns(x: Scene, a: Agent, c: Changes)
    ensures var staged := Step(x, a, Staging(c.o, c.s));
            AfterChanges(a, x.cfg, x.hash, c).0
            in {a, staged, Step(x, a, Starting(c.before)), Step(x, staged, Starting(c.after))}
  {}

  // ---------- Paths and records ----------

  /** The service's executable is outside the download directory. */
  predicate Apart(cfg: Config) {
    !(StagedPrefix(cfg) <= cfg.target) && !(cfg.target <= StagedPrefix(cfg)) && !(cfg.target <= MetaPath(cfg))
  }

  lemma OtherPrefix(prefix: string, target: string, suffix: string)
    requires !(prefix <= target) && !(target <= prefix)
    ensures !(prefix <= target + suffix)
  {
    var s := target + suffix;
    if |prefix| <= |target| {
      assert s[..|prefix|] == target[..|prefix|];
    } else if |prefix| <= |s| {
      assert s[..|prefix|][..|target|] == target;
    }
  }

  /** No staged file is one the helper writes. */
  lemma StagedIsNotWritten(cfg: Config, m: Meta, stamp: string, path: Path)
    requires Apart(cfg) && StagedPrefix(cfg) <= path
    ensures var p := HelperPaths(cfg, m, stamp); path !in {p.target, p.backup, p.Fresh()}
  {
    OtherPrefix(StagedPrefix(cfg), cfg.target, ".bak." + stamp);
    OtherPrefix(StagedPrefix(cfg), cfg.target, ".new");
    assert cfg.target + (".bak." + stamp) == HelperPaths(cfg, m, stamp).backup;
  }

  /** The five paths of an update are pairwise different. */
  lemma PathsAreDistinct(cfg: Config, m: Meta, stamp: string)
    requires Apart(cfg) && m.filePath == StagedPath(cfg, m.version)
    ensures HelperPaths(cfg, m, stamp).Distinct()
  {
    var p := HelperPaths(cfg, m, stamp);
    var n := |cfg.tempDir|;
    assert StagedPrefix(cfg) <= p.staged;
    StagedIsNotWritten(cfg, m, stamp, p.staged);
    assert cfg.target <= p.backup && cfg.target <= p.Fresh();
    assert p.backup[|cfg.target| + 1] == 'b' && p.Fresh()[|cfg.target| + 1] == 'n';
    assert p.staged[n + 1] == 'a' && p.meta[n + 1] == 'p';
  }

  /** Every record names the staged file of its version, and helpers are numbered from zero. */
  ghost predicate RecordsAreStaged(a: Agent, cfg: Config) {
    && (a.pending.Readable? ==> a.pending.meta.filePath == StagedPath(cfg, a.pending.meta.version))
    && (forall k | k in a.helpers ::
          k < a.starts && a.helpers[k].filePath == StagedPath(cfg, a.helpers[k].version))
  }

  lemma StageAtChanges(a: Agent, path: Path, hash: Bytes -> string, o: Offer, s: StageRun)
    requires !s.download.Refused?
    ensures var b := StageAt(a, path, hash, o, s).0;
            && b.loaded == a.loaded && b.machine.version == a.machine.version && b.installs == a.installs
            && b.helpers == a.helpers && b.starts == a.starts
            && (b.pending.Readable? ==>
                  b.pending == a.pending || b.pending.meta == Meta(o.version, path, o.hash, o.force))
  {}

  /** Staging touches neither versions, installs nor helpers; a new record is that of the offer. */
  lemma StageChanges(a: Agent, cfg: Config, hash: Bytes -> string, o: Offer, s: StageRun)
    ensures var b := Stage(a, cfg, hash, o, s).0;
            && b.loaded == a.loaded && b.machine.version == a.machine.version && b.installs == a.installs
            && b.helpers == a.helpers && b.starts == a.starts
            && (b.pending.Readable? ==>
                  || b.pending == a.pending
                  || b.pending.meta == Meta(o.version, StagedPath(cfg, o.version), o.hash, o.force))
  {
    if !s.download.Refused? { StageAtChanges(a, StagedPath(cfg, o.version), hash, o, s); }
  }

  lemma StepKeepsRecords(x: Scene, n: nat)
    requires IsRun(x) && n < |x.steps| && RecordsAreStaged(StateAt(x, n), x.cfg)
    ensures RecordsAreStaged(StateAt(x, n + 1), x.cfg)
  {
    NextState(x, n);
    var act := x.steps[n].act;
    if act.Staging? { StageChanges(StateAt(x, n), x.cfg, x.hash, act.o, act.s); }
  }

  lemma {:induction false} RunKeepsRecords(x: Scene, n: nat)
    requires IsRun(x) && n <= |x.steps| && RecordsAreStaged(x.start, x.cfg)
    ensures RecordsAreStaged(StateAt(x, n), x.cfg)
  {
    if n > 0 {
      RunKeepsRecords(x, n - 1);
      StepKeepsRecords(x, n - 1);
    }
  }

  /** A helper is either waiting already or started by this step on the pending record. */
  lemma NewHelper(x: Scene, i: nat, k: nat)
    requires IsRun(x) && i < |x.steps| && k in StateAt(x, i + 1).helpers
    ensures var a, b := StateAt(x, i), StateAt(x, i + 1);
            || (k in a.helpers && b.helpers[k] == a.helpers[k])
            || (x.steps[i].act.Starting? && Apply(a, x.cfg, x.hash, x.steps[i].act.r) == Done
                && k == a.starts && a.pending == Readable(b.helpers[k]))
  {
    NextState(x, i);
    var act := x.steps[i].act;
    if act.Staging? { StageChanges(StateAt(x, i), x.cfg, x.hash, act.o, act.s); }
  }

  /** A helper that has not run yet was started at some step, on the record pending there. */
  lemma {:induction false} FindStart(x: Scene, n: nat, k: nat) returns (i: nat)
    requires IsRun(x) && n <= |x.steps| && x.start.helpers == map[] && k in StateAt(x, n).helpers
    ensures i < n && x.steps[i].act.Starting? && Apply(StateAt(x, i), x.cfg, x.hash, x.steps[i].act.r) == Done
    ensures StateAt(x, i).starts == k && StateAt(x, i).pending == Readable(StateAt(x, n).helpers[k])
  {
    i := n - 1;
    NewHelper(x, i, k);
    if k in StateAt(x, i).helpers && StateAt(x, n).helpers[k] == StateAt(x, i).helpers[k] { i := FindStart(x, i, k); }
  }

  // ---------- What may ever stand at the target ----------

  /** The server announced this hash during the run. */
  ghost predicate HashAnnounced(x: Scene, h: string) {
    exists i :: 0 <= i < |x.steps| && x.steps[i].act.Staging? && x.steps[i].act.o.hash == h
  }

  /** The bytes hash to an announced value. */
  ghost predicate Announced(x: Scene, file: Bytes) {
    exists i :: 0 <= i < |x.steps| && x.steps[i].act.Staging? && Matches(x.hash, file, x.steps[i].act.o.hash)
  }

  /** The original bytes, or announced ones. */
  ghost predicate Known(x: Scene, file: Bytes) { file == x.original || Announced(x, file) }

  ghost predicate Genuine(x: Scene, d: Disk) { x.cfg.target in d ==> Known(x, d[x.cfg.target]) }

  /** At no instant so far anything else stood at the target. */
  ghost predicate AllGenuine(x: Scene, a: Agent) {
    forall i | 0 <= i < |a.machine.disks| :: Genuine(x, a.machine.disks[i])
  }

  /** The run starts with no update under way and nothing but the original executable in place. */
  ghost predicate Begins(x: Scene) {
    && Apart(x.cfg) && x.start.pending == NoMeta && x.start.helpers == map[]
    && (forall i | 0 <= i < |x.start.machine.disks| && x.cfg.target in x.start.machine.disks[i] ::
          x.start.machine.disks[i][x.cfg.target] == x.original)
  }

  /** If helper number k replaces the target now, the bytes it copies are known. */
  ghost predicate CopyIsKnown(x: Scene, a: Agent, k: nat, stamp: string, f: H.Faults) {
    k in a.helpers && H.Replaced(Disk0(a), HelperPaths(x.cfg, a.helpers[k], stamp), f) ==>
      a.helpers[k].filePath in Disk0(a) && Known(x, Disk0(a)[a.helpers[k].filePath])
  }

  ghost predicate CopyIsKnownAt(x: Scene, i: nat) {
    i < |x.steps| && x.steps[i].act.Helping? ==>
      var act := x.steps[i].act; CopyIsKnown(x, StateAt(x, i), act.k, act.stamp, act.f)
  }

  lemma HelpExtends(m: H.Machine, p: H.Paths, version: string, f: H.Faults)
    ensures m.disks <= H.Help(m, p, version, f).disks
  {}

  lemma StepExtends(x: Scene, a: Agent, act: Action)
    ensures a.machine.disks <= Step(x, a, act).machine.disks
  {
    if act.Helping? && act.k in a.helpers {
      var m := a.helpers[act.k];
      HelpExtends(a.machine, HelperPaths(x.cfg, m, act.stamp), m.version, act.f);
    }
  }

  lemma MissingTargetStays(m: H.Machine, p: H.Paths, version: string, f: H.Faults)
    requires p.target !in Last(m.disks)
    ensures forall i | |m.disks| <= i < |H.Help(m, p, version, f).disks| ::
              p.target !in H.Help(m, p, version, f).disks[i]
  {}

  /** What a helper shows at the target besides what was there is what it copied. */
  lemma HelperShows(m: H.Machine, p: H.Paths, version: string, f: H.Faults, i: nat)
    requires p.Distinct() && |m.disks| <= i < |H.Help(m, p, version, f).disks|
    ensures var d, d' := Last(m.disks), H.Help(m, p, version, f).disks[i];
            p.target in d' ==>
              || (p.target in d && d'[p.target] == d[p.target])
              || (H.Replaced(d, p, f) && p.staged in d && d'[p.target] == d[p.staged])
  {
    var d, disks := Last(m.disks), H.Help(m, p, version, f).disks;
    if p.target !in d {
      MissingTargetStays(m, p, version, f);
    } else if H.Replaced(d, p, f) {
      H.HelperKeepsOld(m, p, version, f, d[p.target], d[p.staged]);
      assert H.Good(disks[i], p, d[p.target], d[p.staged]);
    } else {
      H.NotReplacedKeepsOld(m, p, version, f, d[p.target]);
      assert H.TargetIsOld(disks[i], p, d[p.target]);
    }
  }

  /** A helper keeps the target genuine exactly when it replaces nothing or copies known bytes. */
  lemma HelperIsGenuineIff(x: Scene, a: Agent, k: nat, stamp: string, f: H.Faults)
    requires Apart(x.cfg) && RecordsAreStaged(a, x.cfg) && AllGenuine(x, a) && k in a.helpers
    ensures AllGenuine(x, FinishHelper(a, x.cfg, k, stamp, f)) <==> CopyIsKnown(x, a, k, stamp, f)
  {
    var m := a.helpers[k];
    var p := HelperPaths(x.cfg, m, stamp);
    var d, disks := Disk0(a), H.Help(a.machine, p, m.version, f).disks;
    PathsAreDistinct(x.cfg, m, stamp);
    HelpExtends(a.machine, p, m.version, f);
    assert Genuine(x, d);
    if CopyIsKnown(x, a, k, stamp, f) {
      forall i | 0 <= i < |disks| ensures Genuine(x, disks[i]) {
        if i < |a.machine.disks| {
          assert disks[i] == a.machine.disks[i];
        } else {
          HelperShows(a.machine, p, m.version, f, i);
        }
      }
    }
    if H.Replaced(d, p, f) {
      var i := H.ReplacedShowsStaged(a.machine, p, m.version, f);
      assert Genuine(x, disks[i]) ==> Known(x, d[p.staged]);
    }
  }

  /** Staging at a path leaves the new file there, or after a wrong hash nothing. */
  lemma StageAtDisks(a: Agent, path: Path, hash: Bytes -> string, o: Offer, s: StageRun)
    requires !s.download.Refused?
    ensures var d := Disk0(a)[path := s.download.got];
            StageAt(a, path, hash, o, s).0.machine.disks
            in {a.machine.disks + [d], a.machine.disks + [d] + [Remove(d, path, s.removeFails).0]}
  {}

  lemma StageIsGenuine(x: Scene, a: Agent, o: Offer, s: StageRun)
    requires Apart(x.cfg) && AllGenuine(x, a)
    ensures AllGenuine(x, Stage(a, x.cfg, x.hash, o, s).0)
  {
    var path := StagedPath(x.cfg, o.version);
    assert StagedPrefix(x.cfg) <= path;
    if !s.download.Refused? {
      var d := Disk0(a)[path := s.download.got];
      assert Genuine(x, Disk0(a));
      assert Genuine(x, d) && Genuine(x, Remove(d, path, s.removeFails).0);
      StageAtDisks(a, path, x.hash, o, s);
    }
  }

  lemma StaysBad(x: Scene, a: Agent, b: Agent)
    requires a.machine.disks <= b.machine.disks && !AllGenuine(x, a)
    ensures !AllGenuine(x, b)
  {
    var i :| 0 <= i < |a.machine.disks| && !Genuine(x, a.machine.disks[i]);
    assert b.machine.disks[i] == a.machine.disks[i];
  }

  lemma StepIsGenuineIff(x: Scene, a: Agent, act: Action)
    requires Apart(x.cfg) && RecordsAreStaged(a, x.cfg)
    ensures AllGenuine(x, Step(x, a, act))
       <==> AllGenuine(x, a) && (act.Helping? ==> CopyIsKnown(x, a, act.k, act.stamp, act.f))
  {
    if !AllGenuine(x, a) {
      StepExtends(x, a, act);
      StaysBad(x, a, Step(x, a, act));
    } else if act.Staging? {
      StageIsGenuine(x, a, act.o, act.s);
    } else if act.Helping? && act.k in a.helpers {
      HelperIsGenuineIff(x, a, act.k, act.stamp, act.f);
    }
  }

  lemma GenuineOnceMore(x: Scene, n: nat)
    requires IsRun(x) && n < |x.steps| && Begins(x)
    ensures AllGenuine(x, StateAt(x, n + 1)) <==> AllGenuine(x, StateAt(x, n)) && CopyIsKnownAt(x, n)
  {
    RunKeepsRecords(x, n);
    NextState(x, n);
    StepIsGenuineIff(x, StateAt(x, n), x.steps[n].act);
  }

  /** Over any run, with stagings anywhere between the start of a helper and its work: the target was
      genuine at every instant exactly when every helper that replaced it copied known bytes. */
  lemma {:induction false} TargetGenuineIff(x: Scene, n: nat)
    requires IsRun(x) && n <= |x.steps| && Begins(x)
    ensures AllGenuine(x, StateAt(x, n)) <==> forall i | 0 <= i < n :: CopyIsKnownAt(x, i)
  {
    if n > 0 {
      TargetGenuineIff(x, n - 1);
      GenuineOnceMore(x, n - 1);
    }
  }

  // ---------- When the copied bytes are known ----------

  ghost predicate RecordsAnnounced(x: Scene, a: Agent) {
    && (a.pending.Readable? ==> HashAnnounced(x, a.pending.meta.hash))
    && (forall k | k in a.helpers :: HashAnnounced(x, a.helpers[k].hash))
  }

  lemma StepKeepsAnnounced(x: Scene, n: nat)
    requires IsRun(x) && n < |x.steps| && RecordsAnnounced(x, StateAt(x, n))
    ensures RecordsAnnounced(x, StateAt(x, n + 1))
  {
    NextState(x, n);
    var act := x.steps[n].act;
    if act.Staging? {
      StageChanges(StateAt(x, n), x.cfg, x.hash, act.o, act.s);
      assert x.steps[n].act.o.hash == act.o.hash && HashAnnounced(x, act.o.hash);
    }
  }

  lemma {:induction false} RunKeepsAnnounced(x: Scene, n: nat)
    requires IsRun(x) && n <= |x.steps| && RecordsAnnounced(x, x.start)
    ensures RecordsAnnounced(x, StateAt(x, n))
  {
    if n > 0 {
      RunKeepsAnnounced(x, n - 1);
      StepKeepsAnnounced(x, n - 1);
    }
  }

  /** A helper is started only on a file that is there and hashes to an announced value. */
  lemma HelperStartsOnAnnouncedFile(x: Scene, i: nat)
    requires IsRun(x) && i < |x.steps| && Begins(x)
    requires x.steps[i].act.Starting? && Apply(StateAt(x, i), x.cfg, x.hash, x.steps[i].act.r) == Done
    ensures var a := StateAt(x, i);
            && a.pending.Readable? && a.pending.meta.filePath in Disk0(a)
            && Announced(x, Disk0(a)[a.pending.meta.filePath])
  {
    RunKeepsAnnounced(x, i);
  }

  /** This is a staging that gets as far as leaving something at the path. */
  predicate Reaches(x: Scene, a: Agent, act: Action, path: Path) {
    act.Staging? && StagedPath(x.cfg, act.o.version) == path
    && act.o.version != "" && act.o.url != "" && act.o.hash != ""
    && (act.o.force || IsNewer(act.o.version, a.loaded))
    && !act.s.mkdirFails && !act.s.download.Refused?
  }

  ghost predicate Untouched(x: Scene, path: Path, i: nat, j: nat) {
    forall k | i <= k < j && k < |x.steps| :: !Reaches(x, StateAt(x, k), x.steps[k].act, path)
  }

  lemma StepLeavesFile(x: Scene, a: Agent, act: Action, path: Path)
    requires Apart(x.cfg) && StagedPrefix(x.cfg) <= path && !Reaches(x, a, act, path)
    ensures H.StaysOrGoes(Disk0(a), Disk0(Step(x, a, act)), path)
  {
    match act
    case Staging(o, s) =>
      if !s.download.Refused? { StageAtDisks(a, StagedPath(x.cfg, o.version), x.hash, o, s); }
    case Starting(r) =>
    case Helping(k, stamp, f) =>
      if k in a.helpers {
        var m := a.helpers[k];
        StagedIsNotWritten(x.cfg, m, stamp, path);
        H.HelpWritesNothingElse(a.machine, HelperPaths(x.cfg, m, stamp), m.version, f, path);
      }
  }

  /** A staged file that no staging reaches stays as it is, or a helper takes it away. */
  lemma {:induction false} FileStays(x: Scene, path: Path, i: nat, j: nat)
    requires IsRun(x) && i <= j <= |x.steps| && Apart(x.cfg) && StagedPrefix(x.cfg) <= path && Untouched(x, path, i, j)
    ensures H.StaysOrGoes(Disk0(StateAt(x, i)), Disk0(StateAt(x, j)), path)
    decreases j
  {
    if i < j {
      FileStays(x, path, i, j - 1);
      StepLeavesFile(x, StateAt(x, j - 1), x.steps[j - 1].act, path);
      NextState(x, j - 1);
    }
  }

  /** No staging reaches the file of a helper between its start and its work. */
  ghost predicate Undisturbed(x: Scene) {
    forall i, j | 0 <= i < j < |x.steps| && x.steps[i].act.Starting? && x.steps[j].act.Helping?
                  && StateAt(x, i).starts == x.steps[j].act.k && StateAt(x, i).pending.Readable? ::
      Untouched(x, StateAt(x, i).pending.meta.filePath, i, j)
  }

  lemma UndisturbedCopiesKnown(x: Scene, j: nat)
    requires IsRun(x) && j < |x.steps| && Begins(x) && Undisturbed(x)
    ensures CopyIsKnownAt(x, j)
  {
    var a := StateAt(x, j);
    if x.steps[j].act.Helping? && x.steps[j].act.k in a.helpers {
      var m := a.helpers[x.steps[j].act.k];
      var i := FindStart(x, j, x.steps[j].act.k);
      RunKeepsRecords(x, i);
      HelperStartsOnAnnouncedFile(x, i);
      assert StagedPrefix(x.cfg) <= m.filePath;
      FileStays(x, m.filePath, i, j);
    }
  }

  /** Over any run in which no staging reaches a helper's file between its start and its work, with
      any failures and any forced updates, the executable at the target is at every instant missing,
      the original one, or bytes that hash to a value the server announced. */
  lemma TargetIsAlwaysGenuine(x: Scene, n: nat)
    requires IsRun(x) && n <= |x.steps| && Begins(x) && Undisturbed(x)
    ensures AllGenuine(x, StateAt(x, n))
  {
    forall i | 0 <= i < n ensures CopyIsKnownAt(x, i) { UndisturbedCopiesKnown(x, i); }
    TargetGenuineIff(x, n);
  }

  /** This puts a version in place. */
  predicate Installs(x: Scene, a: Agent, act: Action) {
    act.Helping? && act.k in a.helpers
    && H.Replaced(Disk0(a), HelperPaths(x.cfg, a.helpers[act.k], act.stamp), act.f)
  }

  /** A staging in which nothing fails leaves the file and its record. */
  lemma StagesWhole(a: Agent, cfg: Config, hash: Bytes -> string, o: Offer, got: Bytes)
    requires o.version != "" && o.url != "" && o.hash != "" && (o.force || IsNewer(o.version, a.loaded))
    requires Matches(hash, got, o.hash)
    ensures Stage(a, cfg, hash, o, StageRun(false, Complete(got), false, false, Written))
         == (Push(a, Disk0(a)[StagedPath(cfg, o.version) := got])
             .(pending := Readable(Meta(o.version, StagedPath(cfg, o.version), o.hash, o.force))), Done)
  {}

  lemma CutStagingOverwrites(a: Agent, cfg: Config, hash: Bytes -> string, o: Offer, got: Bytes)
    requires o.version != "" && o.url != "" && o.hash != "" && (o.force || IsNewer(o.version, a.loaded))
    ensures Stage(a, cfg, hash, o, StageRun(false, Cut(got), false, false, MetaWrite.Untouched)).0
         == Push(a, Disk0(a)[StagedPath(cfg, o.version) := got])
  {}

  /** It does fail otherwise: a second staging of the same version that is cut short after the helper
      has been started leaves its stump as the service's executable. */
  lemma StagingAfterStartTruncates(x: Scene, a: Agent, r: ApplyRun, o: Offer, got: Bytes, stamp: string, f: H.Faults)
    requires Apart(x.cfg) && RecordsAreStaged(a, x.cfg) && x.cfg.target in Disk0(a)
    requires a.pending.Readable? && Apply(a, x.cfg, x.hash, r) == Done
    requires a.pending.meta.version == o.version && o.version != "" && o.url != "" && o.hash != ""
    requires o.force || IsNewer(o.version, a.loaded)
    requires var cut := StageRun(false, Cut(got), false, false, MetaWrite.Untouched);
             var b := Stage(StartHelper(a, x.cfg, x.hash, r).0, x.cfg, x.hash, o, cut).0;
             Installs(x, b, Helping(a.starts, stamp, f)) && !f.start
    ensures var cut := StageRun(false, Cut(got), false, false, MetaWrite.Untouched);
            var b := Stage(StartHelper(a, x.cfg, x.hash, r).0, x.cfg, x.hash, o, cut).0;
            var d := Disk0(FinishHelper(b, x.cfg, a.starts, stamp, f));
            x.cfg.target in d && d[x.cfg.target] == got
  {
    var m := a.pending.meta;
    var p := HelperPaths(x.cfg, m, stamp);
    var b := StartHelper(a, x.cfg, x.hash, r).0;
    CutStagingOverwrites(b, x.cfg, x.hash, o, got);
    var c := Push(b, Disk0(b)[p.staged := got]);
    PathsAreDistinct(x.cfg, m, stamp);
    assert c.helpers[a.starts] == m && Disk0(c)[p.staged] == got && p.target in Disk0(c);
    H.HelperEnds(c.machine, p, m.version, f);
  }

  // ---------- Installed versions ----------

  predicate IsReadable(v: string) { Semver(v).Some? }

  /** No forced update, readable versions, and no failing write of the config. */
  predicate IsOrdinary(act: Action) {
    match act
    case Staging(o, _) => !o.force && IsReadable(o.version)
    case Starting(_) => true
    case Helping(_, _, f) => !f.config
  }

  /** Each triple is greater than the one before it. */
  predicate Increasing(versions: seq<Option<Triple>>) {
    versions == [] ||
    var init, last := versions[..|versions| - 1], versions[|versions| - 1];
    && Increasing(init) && last.Some?
    && (init == [] || (init[|init| - 1].Some? && Less(init[|init| - 1].value, last.value)))
  }

  /** So none occurs twice. */
  lemma {:induction false} IncreasingPairs(versions: seq<Option<Triple>>, i: nat, j: nat)
    requires Increasing(versions) && i < j < |versions|
    ensures versions[i].Some? && versions[j].Some? && Less(versions[i].value, versions[j].value)
  {
    var init := versions[..|versions| - 1];
    if j < |init| {
      IncreasingPairs(init, i, j);
    } else if i + 1 < j {
      IncreasingPairs(init, i, j - 1);
    }
  }

  /** The loaded version is that of the config and the last install; every record is readable. */
  ghost predicate Consistent(a: Agent) {
    && a.loaded == a.machine.version && IsReadable(a.loaded)
    && (a.pending.Readable? ==> !a.pending.meta.force && IsReadable(a.pending.meta.version))
    && (forall k | k in a.helpers :: IsReadable(a.helpers[k].version))
    && a.installs != [] && a.installs[|a.installs| - 1] == Semver(a.loaded)
  }

  /** Once the service could be stopped it comes back with the version of the config; the record goes
      with a replacement whose cleaning up works, and otherwise stays. */
  lemma HelperRestarts(a: Agent, cfg: Config, k: nat, stamp: string, f: H.Faults)
    requires k in a.helpers
    ensures var b := FinishHelper(a, cfg, k, stamp, f);
            && k !in b.helpers && b.helpers == a.helpers - {k} && b.starts == a.starts
            && (f.stop ==> b == a.(helpers := b.helpers))
            && (!f.stop ==> b.loaded == b.machine.version)
            && (b.pending == NoMeta || b.pending == a.pending)
            && (a.pending != NoMeta ==>
                  (b.pending == NoMeta <==>
                     Installs(Scene(cfg, (x: Bytes) => "", [], a, []), a, Helping(k, stamp, f)) && !f.removeMeta))
  {}

  /** After the helper the config names the installed version, if it installed and could write the
      config, and otherwise the one before. */
  lemma HelperVersion(a: Agent, cfg: Config, m: Meta, stamp: string, f: H.Faults)
    requires Apart(cfg) && m.filePath == StagedPath(cfg, m.version)
    ensures RunHelper(a, cfg, m, stamp, f).machine.version
         == if H.Replaced(Disk0(a), HelperPaths(cfg, m, stamp), f) && !f.config then m.version else a.machine.version
  {
    PathsAreDistinct(cfg, m, stamp);
    if !f.stop && cfg.target in Disk0(a) {
      H.ServiceAndVersionAtEnd(a.machine, HelperPaths(cfg, m, stamp), m.version, f);
    }
  }

  lemma SameVersionsConsistent(a: Agent, b: Agent)
    requires Consistent(a) && b.loaded == a.loaded == b.machine.version && b.installs == a.installs
    requires b.pending in {a.pending, NoMeta}
    requires forall k | k in b.helpers :: k in a.helpers && b.helpers[k] == a.helpers[k]
    ensures Consistent(b)
  {}

  lemma InstallIsConsistent(a: Agent, b: Agent, version: string)
    requires Consistent(a) && IsReadable(version)
    requires b.loaded == b.machine.version == version && b.installs == a.installs + [Semver(version)]
    requires b.pending in {a.pending, NoMeta}
    requires forall k | k in b.helpers :: k in a.helpers && b.helpers[k] == a.helpers[k]
    ensures Consistent(b)
  {}

  lemma HelperIsConsistent(a: Agent, cfg: Config, k: nat, stamp: string, f: H.Faults)
    requires Apart(cfg) && Consistent(a) && RecordsAreStaged(a, cfg) && k in a.helpers && !f.config
    ensures Consistent(FinishHelper(a, cfg, k, stamp, f))
  {
    var m, b := a.helpers[k], FinishHelper(a, cfg, k, stamp, f);
    HelperVersion(a.(helpers := a.helpers - {k}), cfg, m, stamp, f);
    if H.Replaced(Disk0(a), HelperPaths(cfg, m, stamp), f) {
      InstallIsConsistent(a, b, m.version);
    } else {
      SameVersionsConsistent(a, b);
    }
  }

  lemma StagingIsConsistent(a: Agent, cfg: Config, hash: Bytes -> string, o: Offer, s: StageRun)
    requires Consistent(a) && !o.force && IsReadable(o.version)
    ensures Consistent(Stage(a, cfg, hash, o, s).0)
  {
    StageChanges(a, cfg, hash, o, s);
  }

  lemma StepIsConsistent(x: Scene, a: Agent, act: Action)
    requires Apart(x.cfg) && Consistent(a) && RecordsAreStaged(a, x.cfg) && IsOrdinary(act)
    ensures Consistent(Step(x, a, act))
  {
    match act
    case Staging(o, s) => StagingIsConsistent(a, x.cfg, x.hash, o, s);
    case Starting(r) =>
    case Helping(k, stamp, f) => if k in a.helpers { HelperIsConsistent(a, x.cfg, k, stamp, f); }
  }

  lemma ConsistentOnceMore(x: Scene, n: nat)
    requires IsRun(x) && n < |x.steps| && Apart(x.cfg) && RecordsAreStaged(x.start, x.cfg)
    requires Consistent(StateAt(x, n)) && IsOrdinary(x.steps[n].act)
    ensures Consistent(StateAt(x, n + 1))
  {
    RunKeepsRecords(x, n);
    NextState(x, n);
    StepIsConsistent(x, StateAt(x, n), x.steps[n].act);
  }

  lemma {:induction false} RunIsConsistent(x: Scene, n: nat)
    requires IsRun(x) && n <= |x.steps| && Apart(x.cfg) && Consistent(x.start) && RecordsAreStaged(x.start, x.cfg)
    requires forall i | 0 <= i < n :: IsOrdinary(x.steps[i].act)
    ensures Consistent(StateAt(x, n))
  {
    if n > 0 {
      RunIsConsistent(x, n - 1);
      ConsistentOnceMore(x, n - 1);
    }
  }

  /** If step i does, the version is newer than the one the service has loaded by then. */
  predicate InstallIsNewer(x: Scene, i: nat) {
    i < |x.steps| && Installs(x, StateAt(x, i), x.steps[i].act) ==>
      IsNewer(StateAt(x, i).helpers[x.steps[i].act.k].version, StateAt(x, i).loaded)
  }

  lemma StepInstalls(x: Scene, a: Agent, act: Action)
    ensures Step(x, a, act).installs
         == if Installs(x, a, act) then a.installs + [Semver(a.helpers[act.k].version)] else a.installs
  {
    if act.Staging? { StageChanges(a, x.cfg, x.hash, act.o, act.s); }
  }

  lemma IncreasesIff(versions: seq<Option<Triple>>, last: Triple, v: Triple)
    requires versions != [] && versions[|versions| - 1] == Some(last)
    ensures Increasing(versions + [Some(v)]) <==> Increasing(versions) && Less(last, v)
  {
    assert (versions + [Some(v)])[..|versions|] == versions;
  }

  lemma NewerIncreasesIff(a: Agent, k: nat)
    requires Consistent(a) && k in a.helpers
    ensures var v := a.helpers[k].version;
            Increasing(a.installs + [Semver(v)]) <==> Increasing(a.installs) && IsNewer(v, a.loaded)
  {
    IncreasesIff(a.installs, Semver(a.loaded).value, Semver(a.helpers[k].version).value);
  }

  lemma StepIncreasesIff(x: Scene, a: Agent, act: Action)
    requires Consistent(a)
    ensures Increasing(Step(x, a, act).installs)
       <==> Increasing(a.installs)
            && (Installs(x, a, act) ==> IsNewer(a.helpers[act.k].version, a.loaded))
  {
    StepInstalls(x, a, act);
    if Installs(x, a, act) { NewerIncreasesIff(a, act.k); }
  }

  lemma {:induction false} HoldsWhileAllDo(p: seq<bool>, q: seq<bool>)
    requires |p| == |q| + 1 && p[0] && forall i | 0 <= i < |q| :: p[i + 1] == (p[i] && q[i])
    ensures p[|q|] <==> forall i | 0 <= i < |q| :: q[i]
  {
    if q != [] {
      var k := |q| - 1;
      HoldsWhileAllDo(p[..|q|], q[..k]);
      assert (forall i | 0 <= i < |q| :: q[i]) <==> q[k] && forall i | 0 <= i < k :: q[..k][i];
    }
  }

  /** Step i keeps the installs increasing exactly when what it installs is newer. */
  ghost predicate IncreasesExactly(x: Scene, i: nat) {
    i < |x.steps| ==>
      (Increasing(StateAt(x, i + 1).installs) <==> Increasing(StateAt(x, i).installs) && InstallIsNewer(x, i))
  }

  lemma IncreasesOnceMore(x: Scene, n: nat)
    requires IsRun(x) && n < |x.steps| && Consistent(StateAt(x, n))
    ensures IncreasesExactly(x, n)
  {
    NextState(x, n);
    StepIncreasesIff(x, StateAt(x, n), x.steps[n].act);
  }

  lemma IncreasesWhileNewer(x: Scene, n: nat)
    requires n <= |x.steps| && Increasing(x.start.installs)
    requires forall i {:trigger IsStep(x, i)} | IsStep(x, i) && i < n :: IncreasesExactly(x, i)
    ensures Increasing(StateAt(x, n).installs) <==> forall i | 0 <= i < n :: InstallIsNewer(x, i)
  {
    var p := seq(n + 1, i requires 0 <= i <= n => Increasing(StateAt(x, i).installs));
    var q := seq(n, i requires 0 <= i < n => InstallIsNewer(x, i));
    forall i | 0 <= i < n ensures p[i + 1] == (p[i] && q[i]) { assert IsStep(x, i); }
    HoldsWhileAllDo(p, q);
    forall i | 0 <= i < n ensures q[i] == InstallIsNewer(x, i) {}
  }

  /** In a run without forced or unreadable versions and failing writes of the config, the triples put
      in place strictly increase exactly when each helper that installs has a version newer than the
      one loaded when it runs. */
  lemma InstallsIncreaseIff(x: Scene, n: nat)
    requires IsRun(x) && n <= |x.steps| && Apart(x.cfg) && Consistent(x.start) && RecordsAreStaged(x.start, x.cfg)
    requires (forall i | 0 <= i < n :: IsOrdinary(x.steps[i].act)) && Increasing(x.start.installs)
    ensures Increasing(StateAt(x, n).installs) <==> forall i | 0 <= i < n :: InstallIsNewer(x, i)
  {
    forall i | IsStep(x, i) && i < n ensures IncreasesExactly(x, i) {
      RunIsConsistent(x, i);
      IncreasesOnceMore(x, i);
    }
    IncreasesWhileNewer(x, n);
  }

  /** No helper is started while another one has yet to run. */
  ghost predicate OneAtATime(x: Scene) {
    forall i | 0 <= i < |x.steps| && x.steps[i].act.Starting?
               && Apply(StateAt(x, i), x.cfg, x.hash, x.steps[i].act.r) == Done :: StateAt(x, i).helpers == map[]
  }

  ghost predicate OneNewerHelper(a: Agent) {
    forall k | k in a.helpers :: a.helpers.Keys == {k} && IsNewer(a.helpers[k].version, a.loaded)
  }

  lemma StepKeepsOneNewer(x: Scene, a: Agent, act: Action)
    requires Consistent(a) && OneNewerHelper(a)
    requires act.Starting? && Apply(a, x.cfg, x.hash, act.r) == Done ==> a.helpers == map[]
    ensures OneNewerHelper(Step(x, a, act))
  {
    match act
    case Staging(o, s) => StageChanges(a, x.cfg, x.hash, o, s);
    case Starting(r) =>
    case Helping(k, stamp, f) => assert k in a.helpers ==> a.helpers.Keys == {k};
  }

  lemma OneNewerOnceMore(x: Scene, n: nat)
    requires IsRun(x) && n < |x.steps| && Apart(x.cfg) && Consistent(x.start) && RecordsAreStaged(x.start, x.cfg)
    requires (forall i | 0 <= i < n :: IsOrdinary(x.steps[i].act)) && OneAtATime(x) && OneNewerHelper(StateAt(x, n))
    ensures OneNewerHelper(StateAt(x, n + 1))
  {
    RunIsConsistent(x, n);
    StepKeepsOneNewer(x, StateAt(x, n), x.steps[n].act);
    NextState(x, n);
  }

  lemma {:induction false} OneAtATimeIsNewer(x: Scene, n: nat)
    requires IsRun(x) && n <= |x.steps| && Apart(x.cfg) && Consistent(x.start) && RecordsAreStaged(x.start, x.cfg)
    requires (forall i | 0 <= i < n :: IsOrdinary(x.steps[i].act)) && x.start.helpers == map[] && OneAtATime(x)
    ensures OneNewerHelper(StateAt(x, n))
  {
    if n > 0 {
      OneAtATimeIsNewer(x, n - 1);
      OneNewerOnceMore(x, n - 1);
    }
  }

  /** With helpers one at a time the triples strictly increase over the whole run, wherever stagings
      fall, so none is installed twice. */
  lemma InstallsIncrease(x: Scene, n: nat)
    requires IsRun(x) && n <= |x.steps| && Apart(x.cfg) && Consistent(x.start) && RecordsAreStaged(x.start, x.cfg)
    requires (forall i | 0 <= i < |x.steps| :: IsOrdinary(x.steps[i].act)) && Increasing(x.start.installs)
    requires x.start.helpers == map[] && OneAtATime(x)
    ensures Increasing(StateAt(x, n).installs) && Consistent(StateAt(x, n))
  {
    forall i | 0 <= i < n ensures InstallIsNewer(x, i) { OneAtATimeIsNewer(x, i); }
    InstallsIncreaseIff(x, n);
    RunIsConsistent(x, n);
  }

  /** Two at a time can go back: with helper i waiting for an older version than helper j, and j running
      first, the older version is put in place last. */
  lemma TwoHelpersGoBack(x: Scene, a: Agent, i: nat, j: nat, stamp: string, f: H.Faults)
    requires i in a.helpers && j in a.helpers
    requires IsReadable(a.helpers[i].version) && IsReadable(a.helpers[j].version)
    requires Less(Semver(a.helpers[i].version).value, Semver(a.helpers[j].version).value)
    requires Installs(x, a, Helping(j, stamp, f))
    requires Installs(x, Step(x, a, Helping(j, stamp, f)), Helping(i, stamp, f))
    ensures var b := Step(x, Step(x, a, Helping(j, stamp, f)), Helping(i, stamp, f));
            && b.installs == a.installs + [Semver(a.helpers[j].version)] + [Semver(a.helpers[i].version)]
            && !Increasing(b.installs)
  {
    var first, second := Helping(j, stamp, f), Helping(i, stamp, f);
    var b := Step(x, a, first);
    StepInstalls(x, a, first);
    StepInstalls(x, b, second);
    var older, newer := Semver(a.helpers[i].version).value, Semver(a.helpers[j].version).value;
    IncreasesIff(a.installs + [Some(newer)], newer, older);
  }

  lemma StageIgnoresHelpers(a: Agent, b: Agent, cfg: Config, hash: Bytes -> string, o: Offer, s: StageRun)
    requires a.machine == b.machine && a.loaded == b.loaded
    ensures Stage(a, cfg, hash, o, s).1 == Stage(b, cfg, hash, o, s).1
  {}

  /** Starting a helper records what is pending, and nothing else. */
  lemma StartAdds(a: Agent, cfg: Config, hash: Bytes -> string, r: ApplyRun)
    requires Apply(a, cfg, hash, r) == Done
    ensures a.pending.Readable? && cfg.autoApply && cfg.helperPath != "" && cfg.target != ""
    ensures StartHelper(a, cfg, hash, r).0
         == a.(helpers := a.helpers[a.starts := a.pending.meta], starts := a.starts + 1)
  {}

  lemma SecondStarts(b: Agent, cfg: Config, hash: Bytes -> string, o: Offer, s: StageRun, r: ApplyRun)
    requires Stage(b, cfg, hash, o, s).1 == Done && !r.unreadable && !r.startFails
    requires cfg.autoApply && cfg.helperPath != "" && cfg.target != ""
    ensures var m := Meta(o.version, StagedPath(cfg, o.version), o.hash, o.force);
            StartHelper(Stage(b, cfg, hash, o, s).0, cfg, hash, r).0.helpers == b.helpers[b.starts := m]
  {
    StagedIsApplied(b, cfg, hash, o, s, r);
    StageChanges(b, cfg, hash, o, s);
    StartAdds(Stage(b, cfg, hash, o, s).0, cfg, hash, r);
  }

  /** And two do wait like that: after the first is started, a newer version is staged and started. */
  lemma TwoHelpersWait(a: Agent, cfg: Config, hash: Bytes -> string, first: ApplyRun, o: Offer, s: StageRun,
                       second: ApplyRun)
    requires Apply(a, cfg, hash, first) == Done
    requires Stage(a, cfg, hash, o, s).1 == Done && !second.unreadable && !second.startFails
    ensures var b := StartHelper(a, cfg, hash, first).0;
            var c := StartHelper(Stage(b, cfg, hash, o, s).0, cfg, hash, second).0;
            && a.pending.Readable?
            && c.helpers == a.helpers[a.starts := a.pending.meta]
                                     [a.starts + 1 := Meta(o.version, StagedPath(cfg, o.version), o.hash, o.force)]
  {
    StartAdds(a, cfg, hash, first);
    var b := StartHelper(a, cfg, hash, first).0;
    StageIgnoresHelpers(a, b, cfg, hash, o, s);
    SecondStarts(b, cfg, hash, o, s, second);
  }

  /** Writing the config is what stops a second install: after an install of a version newer than the
      loaded one, that version still counts as newer exactly when the write failed. */
  lemma ReinstallNeedsFailedWrite(a: Agent, cfg: Config, m: Meta, stamp: string, f: H.Faults)
    requires Apart(cfg) && m.filePath == StagedPath(cfg, m.version) && a.loaded == a.machine.version
    requires IsNewer(m.version, a.loaded) && H.Replaced(Disk0(a), HelperPaths(cfg, m, stamp), f)
    ensures IsNewer(m.version, RunHelper(a, cfg, m, stamp, f).loaded) <==> f.config
  {
    HelperVersion(a, cfg, m, stamp, f);
  }

  /** A forced offer of the version that is already installed is staged and installed again. */
  lemma ForcedOfferReinstalls(x: Scene, a: Agent, o: Offer, s: StageRun, r: ApplyRun, stamp: string, f: H.Faults)
    requires Apart(x.cfg) && a.loaded == a.machine.version == o.version && o.force && !f.config
    requires Stage(a, x.cfg, x.hash, o, s).1 == Done && !r.unreadable && !r.startFails
    requires x.cfg.autoApply && x.cfg.helperPath != "" && x.cfg.target != ""
    requires Installs(x, Step(x, Step(x, a, Staging(o, s)), Starting(r)), Helping(a.starts, stamp, f))
    ensures var b := Step(x, Step(x, Step(x, a, Staging(o, s)), Starting(r)), Helping(a.starts, stamp, f));
            b.installs == a.installs + [Semver(o.version)] && b.loaded == b.machine.version == o.version
  {
    var b := Step(x, Step(x, a, Staging(o, s)), Starting(r));
    StageChanges(a, x.cfg, x.hash, o, s);
    StagedIsApplied(a, x.cfg, x.hash, o, s, r);
    var m := b.helpers[a.starts];
    assert m.version == o.version && m.filePath == StagedPath(x.cfg, m.version);
    StepInstalls(x, b, Helping(a.starts, stamp, f));
    HelperVersion(b.(helpers := b.helpers - {a.starts}), x.cfg, m, stamp, f);
  }
}
