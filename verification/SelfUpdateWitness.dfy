/** Two ways for a self-update to go wrong, as runs from an agent with nothing under way. */
module SelfUpdateWitness {
  import opened Basics
  import opened FileHash
  import opened Files
  import opened SelfUpdate
  import opened SelfUpdateRuns
  import opened Versions
  import H = UpdateHelper

  function Whole(got: Bytes): StageRun { StageRun(false, Complete(got), false, false, Written) }

  function Stump(got: Bytes): StageRun { StageRun(false, Cut(got), false, false, MetaWrite.Untouched) }

  const EASY := ApplyRun(false, false)

  /** Nothing fails but the removal of the staged file. */
  const FAULTS := H.Faults(false, H.FINE, H.ReplaceFaults(H.FINE, false, false, true), false, false, false,
                           H.ReplaceFaults(H.FINE, false, false, false), false)

  /** The helper is allowed to run and everything it needs is configured. */
  predicate IsSetUp(cfg: Config) { cfg.autoApply && cfg.helperPath != "" && cfg.target != "" && Apart(cfg) }

  predicate IsComplete(o: Offer) { o.version != "" && o.url != "" && o.hash != "" }

  function MetaOf(cfg: Config, o: Offer): Meta { Meta(o.version, StagedPath(cfg, o.version), o.hash, o.force) }

  // ---------- One more action ----------

  ghost predicate IsNext(x: Scene, y: Scene, act: Action) {
    IsRun(x) && x == y.(steps := x.steps) && |x.steps| == |y.steps| + 1 && x.steps[..|y.steps|] == y.steps
    && x.steps[|y.steps|].act == act
  }

  function End(x: Scene): Agent { StateAt(x, |x.steps|) }

  lemma Next(y: Scene, act: Action) returns (x: Scene)
    requires IsRun(y)
    ensures IsNext(x, y, act) && End(x) == Step(y, End(y), act)
  {
    RunGoesOn(y, act);
    x := GoOn(y, act);
  }

  lemma StageOn(y: Scene, o: Offer, got: Bytes) returns (x: Scene)
    requires IsRun(y) && IsSetUp(y.cfg) && IsComplete(o) && (o.force || IsNewer(o.version, End(y).loaded))
    requires Matches(y.hash, got, o.hash)
    ensures IsNext(x, y, Staging(o, Whole(got)))
    ensures var a, b := End(y), End(x);
            && b.helpers == a.helpers && b.starts == a.starts && b.installs == a.installs && b.loaded == a.loaded
            && b.pending == Readable(MetaOf(y.cfg, o)) && Disk0(b) == Disk0(a)[StagedPath(y.cfg, o.version) := got]
            && Apply(b, y.cfg, y.hash, EASY) == Done
  {
    var a := End(y);
    StagesWhole(a, y.cfg, y.hash, o, got);
    StagedIsApplied(a, y.cfg, y.hash, o, Whole(got), EASY);
    x := Next(y, Staging(o, Whole(got)));
  }

  lemma CutOn(y: Scene, o: Offer, got: Bytes) returns (x: Scene)
    requires IsRun(y) && IsComplete(o) && (o.force || IsNewer(o.version, End(y).loaded))
    ensures IsNext(x, y, Staging(o, Stump(got)))
    ensures var a, b := End(y), End(x);
            b.helpers == a.helpers && Disk0(b) == Disk0(a)[StagedPath(y.cfg, o.version) := got]
  {
    CutStagingOverwrites(End(y), y.cfg, y.hash, o, got);
    x := Next(y, Staging(o, Stump(got)));
  }

  lemma StartOn(y: Scene) returns (x: Scene)
    requires IsRun(y) && Apply(End(y), y.cfg, y.hash, EASY) == Done
    ensures IsNext(x, y, Starting(EASY)) && End(y).pending.Readable?
    ensures var a, b := End(y), End(x);
            && b.helpers == a.helpers[a.starts := a.pending.meta] && b.starts == a.starts + 1
            && b.installs == a.installs && b.loaded == a.loaded && Disk0(b) == Disk0(a)
  {
    StartAdds(End(y), y.cfg, y.hash, EASY);
    x := Next(y, Starting(EASY));
  }

  // ---------- A helper whose file is there ----------

  predicate IsSmall(d: Disk, path: Path) { path in d && |d[path]| <= H.FINE.bytes }

  lemma Replaces(d: Disk, p: H.Paths)
    requires IsSmall(d, p.target) && IsSmall(d, p.staged)
    ensures H.Replaced(d, p, FAULTS)
  {}

  lemma StagedIsNotMeta(cfg: Config, path: Path)
    requires StagedPrefix(cfg) <= path
    ensures path != MetaPath(cfg)
  {
    var n := |cfg.tempDir|;
    assert path[n + 1] == 'a' && MetaPath(cfg)[n + 1] == 'p';
  }

  /** It puts it at the target and leaves the other staged files alone. */
  lemma HelperCopies(x: Scene, a: Agent, k: nat, stamp: string, other: Path)
    requires Apart(x.cfg) && k in a.helpers && a.helpers[k].filePath == StagedPath(x.cfg, a.helpers[k].version)
    requires IsSmall(Disk0(a), x.cfg.target) && IsSmall(Disk0(a), a.helpers[k].filePath)
    requires StagedPrefix(x.cfg) <= other
    ensures Installs(x, a, Helping(k, stamp, FAULTS))
    ensures var d, d' := Disk0(a), Disk0(FinishHelper(a, x.cfg, k, stamp, FAULTS));
            && x.cfg.target in d' && d'[x.cfg.target] == d[a.helpers[k].filePath]
            && (other in d ==> other in d' && d'[other] == d[other])
  {
    var m := a.helpers[k];
    var p := HelperPaths(x.cfg, m, stamp);
    Replaces(Disk0(a), p);
    PathsAreDistinct(x.cfg, m, stamp);
    StagedIsNotWritten(x.cfg, m, stamp, other);
    StagedIsNotMeta(x.cfg, other);
    H.ReplacedKeepsOthers(a.machine, p, m.version, FAULTS, other);
  }

  lemma StagedIsNotTarget(cfg: Config, version: string)
    requires Apart(cfg)
    ensures StagedPath(cfg, version) != cfg.target && StagedPrefix(cfg) <= StagedPath(cfg, version)
  {}

  // ---------- A stump at the target ----------

  /** After the staging of an offer and the start of its helper. */
  lemma FirstWaits(y: Scene, o: Offer, got: Bytes) returns (x: Scene)
    requires IsRun(y) && y.steps == [] && IsSetUp(y.cfg) && IsComplete(o) && Matches(y.hash, got, o.hash)
    requires o.force || IsNewer(o.version, y.start.loaded)
    ensures IsRun(x) && x == y.(steps := x.steps) && |x.steps| == 2
    ensures x.steps[0].act == Staging(o, Whole(got)) && x.steps[1].act == Starting(EASY)
    ensures var a, b := y.start, End(x);
            && b.helpers == a.helpers[a.starts := MetaOf(y.cfg, o)] && b.starts == a.starts + 1
            && b.installs == a.installs && b.loaded == a.loaded
            && Disk0(b) == Disk0(a)[StagedPath(y.cfg, o.version) := got]
  {
    x := StageOn(y, o, got);
    x := StartOn(x);
  }

  /** Only announcements of o so far. */
  ghost predicate OnlyAnnounces(x: Scene, o: Offer) {
    forall i | 0 <= i < |x.steps| && x.steps[i].act.Staging? :: x.steps[i].act.o == o
  }

  lemma OnlyKnown(x: Scene, o: Offer, file: Bytes)
    requires OnlyAnnounces(x, o) && file != x.original && !Matches(x.hash, file, o.hash)
    ensures !Known(x, file)
  {}

  /** After a second staging of it that is cut short. */
  lemma StumpWaits(y: Scene, o: Offer, got: Bytes, stump: Bytes) returns (x: Scene)
    requires IsRun(y) && y.steps == [] && IsSetUp(y.cfg) && IsSmall(Disk0(y.start), y.cfg.target)
    requires IsComplete(o) && (o.force || IsNewer(o.version, y.start.loaded)) && Matches(y.hash, got, o.hash)
    ensures IsRun(x) && x == y.(steps := x.steps) && |x.steps| == 3 && OnlyAnnounces(x, o)
    ensures var k, path, a := y.start.starts, StagedPath(y.cfg, o.version), End(x);
            && k in a.helpers && a.helpers[k] == MetaOf(y.cfg, o) && path in Disk0(a) && Disk0(a)[path] == stump
            && IsSmall(Disk0(a), y.cfg.target)
  {
    StagedIsNotTarget(y.cfg, o.version);
    var first := FirstWaits(y, o, got);
    x := CutOn(first, o, stump);
    assert x.steps[..2] == first.steps;
  }

  lemma HelpOn(y: Scene, k: nat) returns (x: Scene)
    requires IsRun(y) && Apart(y.cfg) && k in End(y).helpers
    requires End(y).helpers[k].filePath == StagedPath(y.cfg, End(y).helpers[k].version)
    requires IsSmall(Disk0(End(y)), y.cfg.target) && IsSmall(Disk0(End(y)), End(y).helpers[k].filePath)
    ensures IsNext(x, y, Helping(k, "x", FAULTS))
    ensures var d := Disk0(End(x)); y.cfg.target in d && d[y.cfg.target] == Disk0(End(y))[End(y).helpers[k].filePath]
    ensures forall o | OnlyAnnounces(y, o) :: OnlyAnnounces(x, o)
  {
    var path := End(y).helpers[k].filePath;
    StagedIsNotTarget(y.cfg, End(y).helpers[k].version);
    HelperCopies(y, End(y), k, "x", path);
    x := Next(y, Helping(k, "x", FAULTS));
    assert x.steps[..|y.steps|] == y.steps;
  }

  /** From any agent with nothing under way: a version is staged, its helper is started, a second staging
      of it is cut short, and the helper runs.  The executable is then neither the original nor one the
      server announced. */
  lemma StumpIsInstalled(y: Scene, o: Offer, got: Bytes, stump: Bytes) returns (x: Scene)
    requires IsRun(y) && y.steps == [] && Begins(y) && IsSetUp(y.cfg) && IsSmall(Disk0(y.start), y.cfg.target)
    requires IsComplete(o) && (o.force || IsNewer(o.version, y.start.loaded)) && Matches(y.hash, got, o.hash)
    requires stump != y.original && !Matches(y.hash, stump, o.hash) && |stump| <= H.FINE.bytes
    ensures IsRun(x) && x == y.(steps := x.steps) && |x.steps| == 4 && !Known(x, stump)
    ensures var d := Disk0(End(x)); x.cfg.target in d && d[x.cfg.target] == stump
  {
    var cut := StumpWaits(y, o, got, stump);
    x := HelpOn(cut, y.start.starts);
    OnlyKnown(x, o, stump);
  }

  // ---------- An older version last ----------

  lemma BothWait(y: Scene, o: Offer, n: Offer, first: Bytes, second: Bytes) returns (x: Scene)
    requires IsRun(y) && y.steps == [] && IsSetUp(y.cfg) && IsComplete(o) && IsComplete(n)
    requires IsNewer(o.version, y.start.loaded) && IsNewer(n.version, y.start.loaded)
    requires Matches(y.hash, first, o.hash) && Matches(y.hash, second, n.hash)
    ensures IsRun(x) && x == y.(steps := x.steps) && |x.steps| == 4
    ensures x.steps[0].act == Staging(o, Whole(first)) && x.steps[1].act == Starting(EASY)
    ensures x.steps[2].act == Staging(n, Whole(second)) && x.steps[3].act == Starting(EASY)
    ensures var k, a, b := y.start.starts, y.start, End(x);
            && b.helpers == a.helpers[k := MetaOf(y.cfg, o)][k + 1 := MetaOf(y.cfg, n)] && b.installs == a.installs
            && Disk0(b) == Disk0(a)[StagedPath(y.cfg, o.version) := first][StagedPath(y.cfg, n.version) := second]
  {
    var one := FirstWaits(y, o, first);
    var two := StageOn(one, n, second);
    x := StartOn(two);
    assert two.steps[..2] == one.steps && x.steps[..3] == two.steps;
  }

  /** With both helpers waiting, the second one runs and then the first one. */
  lemma BothCopy(x: Scene, a: Agent, i: nat, j: nat)
    requires Apart(x.cfg) && i in a.helpers && j in a.helpers && i != j
    requires forall k | k in {i, j} :: a.helpers[k].filePath == StagedPath(x.cfg, a.helpers[k].version)
    requires IsSmall(Disk0(a), x.cfg.target)
    requires IsSmall(Disk0(a), a.helpers[i].filePath) && IsSmall(Disk0(a), a.helpers[j].filePath)
    ensures Installs(x, a, Helping(j, "x", FAULTS))
    ensures Installs(x, FinishHelper(a, x.cfg, j, "x", FAULTS), Helping(i, "x", FAULTS))
  {
    var path := a.helpers[i].filePath;
    StagedIsNotTarget(x.cfg, a.helpers[i].version);
    HelperCopies(x, a, j, "x", path);
    HelperCopies(x, FinishHelper(a, x.cfg, j, "x", FAULTS), i, "x", path);
  }

  lemma BothHelp(y: Scene, i: nat, j: nat) returns (x: Scene)
    requires IsRun(y) && Apart(y.cfg) && i in End(y).helpers && j in End(y).helpers && i != j
    requires forall k | k in {i, j} :: End(y).helpers[k].filePath == StagedPath(y.cfg, End(y).helpers[k].version)
    requires IsReadable(End(y).helpers[i].version) && IsReadable(End(y).helpers[j].version)
    requires IsSmall(Disk0(End(y)), y.cfg.target)
    requires IsSmall(Disk0(End(y)), End(y).helpers[i].filePath) && IsSmall(Disk0(End(y)), End(y).helpers[j].filePath)
    requires Less(Semver(End(y).helpers[i].version).value, Semver(End(y).helpers[j].version).value)
    ensures IsRun(x) && x == y.(steps := x.steps) && |x.steps| == |y.steps| + 2
    ensures End(x).installs
         == End(y).installs + [Semver(End(y).helpers[j].version)] + [Semver(End(y).helpers[i].version)]
    ensures !Increasing(End(x).installs)
  {
    BothCopy(y, End(y), i, j);
    TwoHelpersGoBack(y, End(y), i, j, "x", FAULTS);
    x := Next(y, Helping(j, "x", FAULTS));
    x := Next(x, Helping(i, "x", FAULTS));
  }

  lemma WaitingFilesAreSmall(y: Scene, b: Agent, o: Offer, n: Offer, first: Bytes, second: Bytes)
    requires Apart(y.cfg) && IsSmall(Disk0(y.start), y.cfg.target)
    requires |first| <= H.FINE.bytes && |second| <= H.FINE.bytes
    requires Disk0(b)
          == Disk0(y.start)[StagedPath(y.cfg, o.version) := first][StagedPath(y.cfg, n.version) := second]
    ensures IsSmall(Disk0(b), y.cfg.target)
    ensures IsSmall(Disk0(b), StagedPath(y.cfg, o.version)) && IsSmall(Disk0(b), StagedPath(y.cfg, n.version))
  {
    StagedIsNotTarget(y.cfg, o.version);
    StagedIsNotTarget(y.cfg, n.version);
  }

  /** From any agent with nothing under way: a version is staged and its helper started, a newer one is
      staged and its helper started, and the second helper runs first.  Then the older version is put in
      place after the newer one. */
  lemma OlderIsInstalledLast(y: Scene, o: Offer, n: Offer, first: Bytes, second: Bytes) returns (x: Scene)
    requires IsRun(y) && y.steps == [] && IsSetUp(y.cfg) && IsComplete(o) && IsComplete(n)
    requires IsSmall(Disk0(y.start), y.cfg.target)
    requires IsNewer(o.version, y.start.loaded) && IsNewer(n.version, y.start.loaded)
    requires IsReadable(o.version) && IsReadable(n.version)
    requires Less(Semver(o.version).value, Semver(n.version).value)
    requires Matches(y.hash, first, o.hash) && Matches(y.hash, second, n.hash)
    requires |first| <= H.FINE.bytes && |second| <= H.FINE.bytes
    ensures IsRun(x) && x == y.(steps := x.steps) && |x.steps| == 6
    ensures End(x).installs == y.start.installs + [Semver(n.version)] + [Semver(o.version)]
    ensures !Increasing(End(x).installs)
  {
    var both := BothWait(y, o, n, first, second);
    WaitingFilesAreSmall(y, End(both), o, n, first, second);
    x := BothHelp(both, y.start.starts, y.start.starts + 1);
  }

  // ---------- Such agents exist ----------

  const CFG := Config("T", "S", true, "H")

  const OLD := Triple(1, 0, 0)
  const MID := Triple(1, 0, 1)
  const NEW := Triple(1, 0, 2)

  function HashOf(file: Bytes): string { if file == [9] then "" else "h" }

  function OfferOf(t: Triple): Offer { Offer(Dotted(t), "u", "h", false) }

  const START := Agent(H.Machine([map["S" := [1]]], Dotted(OLD), true), NoMeta, Dotted(OLD), map[], 0, [Some(OLD)])

  lemma NormalIsH()
    ensures Normal("h") == "h"
  {
    assert Lower("") == "" && "h"[1..] == "" && Lower("h") == "h";
  }

  lemma Reads(t: Triple)
    requires t in {OLD, MID, NEW}
    ensures Semver(Dotted(t)) == Some(t) && Dotted(t) != ""
  {
    PrintedIsRead("", t, "");
    assert "" + Dotted(t) + "" == Dotted(t);
  }

  lemma IsApart()
    ensures IsSetUp(CFG)
  {
    assert StagedPrefix(CFG)[0] == 'T' && MetaPath(CFG)[0] == 'T';
  }

  lemma NewerOffer(t: Triple)
    requires t in {MID, NEW}
    ensures IsComplete(OfferOf(t)) && IsNewer(Dotted(t), Dotted(OLD))
  {
    Reads(t);
    Reads(OLD);
  }

  lemma StartIsFine()
    ensures Consistent(START) && RecordsAreStaged(START, CFG) && IsSmall(Disk0(START), "S")
  {
    Reads(OLD);
  }

  const IDLE := Scene(CFG, HashOf, [1], START, [])

  /** From a service at version 1.0.0 that is offered 1.0.1. */
  lemma StumpHappens() returns (x: Scene)
    ensures IsRun(x) && Begins(x) && x.start == START && !Known(x, [9])
    ensures var d := Disk0(End(x)); "S" in d && d["S"] == [9]
  {
    IsApart();
    StartIsFine();
    NormalIsH();
    NewerOffer(MID);
    x := StumpIsInstalled(IDLE, OfferOf(MID), [2], [9]);
  }

  /** From the same service, offered 1.0.1 and then 1.0.2. */
  lemma ReversalHappens() returns (x: Scene)
    ensures IsRun(x) && x.start == START && Consistent(START) && End(x).installs == [Some(OLD), Some(NEW), Some(MID)]
  {
    IsApart();
    StartIsFine();
    NormalIsH();
    NewerOffer(MID);
    NewerOffer(NEW);
    Reads(MID);
    Reads(NEW);
    x := OlderIsInstalledLast(IDLE, OfferOf(MID), OfferOf(NEW), [2], [3]);
  }
}
