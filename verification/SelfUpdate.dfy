/** Staging an agent update (internal/updater/updater.go), verifying it and starting the helper on it
    (internal/updater/apply.go), and the calls that do both (cmd/service/core.go). */
module SelfUpdate {
  import opened Basics
  import opened FileHash
  import opened Files
  import opened Versions
  import H = UpdateHelper

  /** What the metadata file records of a staged update. */
  datatype Meta = Meta(version: string, filePath: Path, hash: string, force: bool)

  /** The metadata file: absent, not decodable, or holding a record. */
  datatype Pending = NoMeta | Garbled | Readable(meta: Meta)

  datatype Config = Config(tempDir: Path, target: Path, autoApply: bool, helperPath: Path)

  /** The update the server announces; `force` is its mode, trimmed and lower-cased, being "force". */
  datatype Offer = Offer(version: string, url: string, hash: string, force: bool)

  datatype MetaWrite = Written | Untouched | Broken

  datatype StageRun = StageRun(mkdirFails: bool, download: Download, unreadable: bool, removeFails: bool,
                               metaWrite: MetaWrite)

  datatype ApplyRun = ApplyRun(unreadable: bool, startFails: bool)

  datatype Verdict = Nothing | Refuse | Done

  /** The machine, the metadata file, the version the service has loaded, the helpers that were
      started and have not run yet, each with the record it was given, how many were started, and the
      triples (None when unreadable) of the versions put in place so far. */
  datatype Agent = Agent(machine: H.Machine, pending: Pending, loaded: string, helpers: map<nat, Meta>, starts: nat,
                         installs: seq<Option<Triple>>)

  // ---------- Paths ----------

  function Sanitize(v: string): string {
    if v == "" then "" else [if v[0] in {'/', '\\', ':', ' '} then '_' else v[0]] + Sanitize(v[1..])
  }

  /** Every separator, colon and space becomes an underscore, and nothing else changes. */
  lemma {:induction false} SanitizedChars(v: string)
    ensures |Sanitize(v)| == |v|
    ensures forall i | 0 <= i < |v| :: Sanitize(v)[i] == if v[i] in {'/', '\\', ':', ' '} then '_' else v[i]
  {
    if v != "" { SanitizedChars(v[1..]); }
  }

  function StagedPrefix(cfg: Config): Path { cfg.tempDir + "/agent-update-" }

  function StagedPath(cfg: Config, version: string): Path { StagedPrefix(cfg) + Sanitize(version) + ".exe" }

  function MetaPath(cfg: Config): Path { cfg.tempDir + "/pending_update.json" }

  // ---------- Staging and applying ----------

  function Push(a: Agent, d: Disk): Agent { a.(machine := a.machine.(disks := a.machine.disks + [d])) }

  function Disk0(a: Agent): Disk { Last(a.machine.disks) }

  /** Staging once the download has left something at `path`. */
  function StageAt(a: Agent, path: Path, hash: Bytes -> string, o: Offer, run: StageRun): (Agent, Verdict)
    requires !run.download.Refused?
  {
    var b := Push(a, Disk0(a)[path := run.download.got]);
    if run.download.Cut? || run.unreadable then (b, Refuse)
    else if !Matches(hash, run.download.got, o.hash) then (Push(b, Remove(Disk0(b), path, run.removeFails).0), Refuse)
    else match run.metaWrite
      case Written => (b.(pending := Readable(Meta(o.version, path, o.hash, o.force))), Done)
      case Untouched => (b, Refuse)
      case Broken => (b.(pending := Garbled), Refuse)
  }

  function Stage(a: Agent, cfg: Config, hash: Bytes -> string, o: Offer, run: StageRun): (Agent, Verdict) {
    if o.version == "" || o.url == "" || o.hash == "" then (a, Nothing)
    else if !o.force && !IsNewer(o.version, a.loaded) then (a, Nothing)
    else if run.mkdirFails || run.download.Refused? then (a, Refuse)
    else StageAt(a, StagedPath(cfg, o.version), hash, o, run)
  }

  /** Whether the helper can be started on the pending record. */
  function Apply(a: Agent, cfg: Config, hash: Bytes -> string, run: ApplyRun): Verdict {
    if !cfg.autoApply || a.pending == NoMeta then Nothing
    else if a.pending == Garbled then Refuse
    else
      var m := a.pending.meta;
      if m.version == "" || m.filePath == "" || m.hash == "" then Refuse
      else if !m.force && !IsNewer(m.version, a.loaded) then Nothing
      else if m.filePath !in Disk0(a) || run.unreadable || !Matches(hash, Disk0(a)[m.filePath], m.hash) then Refuse
      else if cfg.helperPath == "" || cfg.target == "" || run.startFails then Refuse
      else Done
  }

  /** Verifying the pending update and starting a helper on it, which runs when it likes. */
  function StartHelper(a: Agent, cfg: Config, hash: Bytes -> string, run: ApplyRun): (Agent, Verdict) {
    if Apply(a, cfg, hash, run) != Done || !a.pending.Readable? then (a, Apply(a, cfg, hash, run))
    else (a.(helpers := a.helpers[a.starts := a.pending.meta], starts := a.starts + 1), Done)
  }

  /** One call of applySelfUpdateChanges: `busyBefore` and `busyAfter` are whether tasks are pending
      at its two looks at the queue. */
  datatype Changes = Changes(empty: bool, busyBefore: bool, before: ApplyRun, o: Offer, s: StageRun,
                             busyAfter: bool, after: ApplyRun)

  /** The agent after the call, and whether the helper was started and a restart requested. */
  function AfterChanges(a: Agent, cfg: Config, hash: Bytes -> string, c: Changes): (Agent, bool) {
    if c.empty then (a, false)
    else if !c.busyBefore && Apply(a, cfg, hash, c.before) == Done then (StartHelper(a, cfg, hash, c.before).0, true)
    else
      var (b, staged) := Stage(a, cfg, hash, c.o, c.s);
      if staged == Refuse || c.busyAfter then (b, false)
      else
        var (started, verdict) := StartHelper(b, cfg, hash, c.after);
        (started, verdict == Done)
  }

  // ---------- When an update is staged and applied ----------

  /** The offer is complete, and forced or newer than what the service has loaded. */
  predicate IsWanted(a: Agent, o: Offer) {
    o.version != "" && o.url != "" && o.hash != "" && (o.force || IsNewer(o.version, a.loaded))
  }

  /** Every step of a staging works and the download has the announced hash. */
  predicate Works(hash: Bytes -> string, o: Offer, s: StageRun) {
    && !s.mkdirFails && s.download.Complete? && !s.unreadable && s.metaWrite == Written
    && Matches(hash, s.download.got, o.hash)
  }

  function RecordOf(cfg: Config, o: Offer): Meta { Meta(o.version, StagedPath(cfg, o.version), o.hash, o.force) }

  /** Everything needed to start a helper is there: settings, a complete record of a version that is
      forced or newer, and its file with the recorded hash. */
  predicate CanApply(a: Agent, cfg: Config, hash: Bytes -> string, r: ApplyRun) {
    && cfg.autoApply && cfg.helperPath != "" && cfg.target != "" && !r.unreadable && !r.startFails
    && a.pending.Readable?
    && var m := a.pending.meta;
    && m.version != "" && m.filePath != "" && m.hash != "" && (m.force || IsNewer(m.version, a.loaded))
    && m.filePath in Disk0(a) && Matches(hash, Disk0(a)[m.filePath], m.hash)
  }

  predicate SameElsewhere(d: Disk, d': Disk, path: Path) { d - {path} == d' - {path} }

  /** A staging: nothing happens for an offer that is not wanted or a download that cannot start; it
      succeeds exactly when every step works; what it leaves at the path of the version, and the record,
      and nothing else. */
  lemma StageDecides(a: Agent, cfg: Config, hash: Bytes -> string, o: Offer, s: StageRun)
    ensures var (b, verdict) := Stage(a, cfg, hash, o, s);
            var path := StagedPath(cfg, o.version);
            && (verdict == Nothing <==> !IsWanted(a, o))
            && (verdict == Done <==> IsWanted(a, o) && Works(hash, o, s))
            && (!IsWanted(a, o) || s.mkdirFails || s.download.Refused? ==> b == a)
            && SameElsewhere(Disk0(a), Disk0(b), path)
            && (IsWanted(a, o) && !s.mkdirFails && !s.download.Refused? ==>
                  if s.download.Complete? && !s.unreadable && !s.removeFails && !Matches(hash, s.download.got, o.hash)
                  then path !in Disk0(b)
                  else path in Disk0(b) && Disk0(b)[path] == s.download.got)
            && (verdict == Done ==> b.pending == Readable(RecordOf(cfg, o)))
            && (verdict != Done ==> b.pending == a.pending || (b.pending == Garbled && s.metaWrite == Broken))
            && b == a.(machine := b.machine, pending := b.pending)
            && b.machine.version == a.machine.version && b.machine.running == a.machine.running
  {}

  /** An application: a helper is started exactly when it can be, on the record as it is; nothing else
      changes. */
  lemma ApplyDecides(a: Agent, cfg: Config, hash: Bytes -> string, r: ApplyRun)
    ensures var (b, verdict) := StartHelper(a, cfg, hash, r);
            && (verdict == Done <==> CanApply(a, cfg, hash, r))
            && (verdict == Done ==>
                  b == a.(helpers := a.helpers[a.starts := a.pending.meta], starts := a.starts + 1))
            && (verdict != Done ==> b == a)
            && (!cfg.autoApply || a.pending == NoMeta ==> verdict == Nothing)
            && (cfg.autoApply && a.pending == Garbled ==> verdict == Refuse)
  {}

  lemma StagedCanApply(a: Agent, cfg: Config, hash: Bytes -> string, o: Offer, s: StageRun, r: ApplyRun)
    ensures IsWanted(a, o) && Works(hash, o, s) ==>
      (CanApply(Stage(a, cfg, hash, o, s).0, cfg, hash, r)
       <==> cfg.autoApply && cfg.helperPath != "" && cfg.target != "" && !r.unreadable && !r.startFails)
  {
    StageDecides(a, cfg, hash, o, s);
    assert StagedPath(cfg, o.version) != "";
  }

  /** The second look at the queue: an idle queue lets the record be applied unless the staging failed. */
  ghost predicate SecondLook(a: Agent, b: Agent, cfg: Config, hash: Bytes -> string, c: Changes, after: Agent,
                             restart: bool)
  {
    var failed := IsWanted(a, c.o) && !Works(hash, c.o, c.s);
    && (restart <==> !failed && !c.busyAfter && CanApply(b, cfg, hash, c.after))
    && (restart ==> after == b.(helpers := b.helpers[b.starts := b.pending.meta], starts := b.starts + 1))
    && (!restart ==> after == b)
  }

  /** A call that applies changes: with an idle queue at the first look, a record that can be applied is
      applied and nothing is staged; otherwise the offer is staged and the second look decides. */
  lemma ChangesDecide(a: Agent, cfg: Config, hash: Bytes -> string, c: Changes)
    ensures var (after, restart) := AfterChanges(a, cfg, hash, c);
            && (c.empty ==> after == a && !restart)
            && (!c.empty && !c.busyBefore && CanApply(a, cfg, hash, c.before) ==>
                  restart && after == a.(helpers := a.helpers[a.starts := a.pending.meta], starts := a.starts + 1))
            && (!c.empty && (c.busyBefore || !CanApply(a, cfg, hash, c.before)) ==>
                  SecondLook(a, Stage(a, cfg, hash, c.o, c.s).0, cfg, hash, c, after, restart))
  {
    var b := Stage(a, cfg, hash, c.o, c.s).0;
    ApplyDecides(a, cfg, hash, c.before);
    StageDecides(a, cfg, hash, c.o, c.s);
    ApplyDecides(b, cfg, hash, c.after);
  }

  class Updater {
    const cfg: Config
    const hash: Bytes -> string
    const loaded: string
    var disk: Disk
    var pending: Pending
    ghost var agent: Agent

    ghost predicate Valid()
      reads this
    {
      Disk0(agent) == disk && agent.pending == pending && agent.loaded == loaded
    }

    method StageIfNeeded(o: Offer, run: StageRun) returns (verdict: Verdict)
      requires Valid()
      modifies this
      ensures Valid() && (agent, verdict) == Stage(old(agent), cfg, hash, o, run)
      ensures verdict == Nothing <==> !IsWanted(old(agent), o)
      ensures verdict == Done <==> IsWanted(old(agent), o) && Works(hash, o, run)
      ensures verdict == Nothing ==> disk == old(disk) && pending == old(pending)
      ensures verdict == Done ==>
        pending == Readable(RecordOf(cfg, o)) && disk == old(disk)[StagedPath(cfg, o.version) := run.download.got]
    {
      StageDecides(agent, cfg, hash, o, run);
      if o.version == "" || o.url == "" || o.hash == "" { return Nothing; }
      if !o.force {
        if !IsNewer(o.version, loaded) { return Nothing; }
      }
      if run.mkdirFails { return Refuse; }
      var stagedPath := StagedPath(cfg, o.version);
      if run.download.Refused? { return Refuse; }
      disk := disk[stagedPath := run.download.got];
      agent := Push(agent, disk);
      if run.download.Cut? || run.unreadable { return Refuse; }
      if hash(disk[stagedPath]) != Normal(o.hash) {
        if !run.removeFails { disk := disk - {stagedPath}; }
        agent := Push(agent, disk);
        return Refuse;
      }
      match run.metaWrite
      case Written =>
        pending := Readable(Meta(o.version, stagedPath, o.hash, o.force));
        agent, verdict := agent.(pending := pending), Done;
      case Untouched =>
        verdict := Refuse;
      case Broken =>
        pending := Garbled;
        agent, verdict := agent.(pending := Garbled), Refuse;
    }

    method ApplyIfPending(run: ApplyRun) returns (verdict: Verdict)
      requires Valid()
      modifies this`agent
      ensures Valid() && (agent, verdict) == StartHelper(old(agent), cfg, hash, run)
      ensures verdict == Done <==> CanApply(old(agent), cfg, hash, run)
      ensures verdict == Done ==>
        agent == old(agent).(helpers := old(agent).helpers[old(agent).starts := pending.meta],
                             starts := old(agent).starts + 1)
      ensures verdict != Done ==> agent == old(agent)
    {
      ApplyDecides(agent, cfg, hash, run);
      if !cfg.autoApply { return Nothing; }
      if pending == NoMeta { return Nothing; }
      if pending == Garbled { return Refuse; }
      var m := pending.meta;
      if m.version == "" || m.filePath == "" || m.hash == "" { return Refuse; }
      if !m.force && !IsNewer(m.version, loaded) { return Nothing; }
      if m.filePath !in disk || run.unreadable { return Refuse; }
      if hash(disk[m.filePath]) != Normal(m.hash) { return Refuse; }
      if cfg.helperPath == "" || cfg.target == "" || run.startFails { return Refuse; }
      agent := agent.(helpers := agent.helpers[agent.starts := m], starts := agent.starts + 1);
      return Done;
    }

    /** What core.go does with the changes a server message announces: with tasks pending at both looks
        at the queue no helper is started; an update that can be applied at an idle first look is applied
        at once and nothing is staged; one staged by this call is applied at an idle second look. */
    method ApplySelfUpdateChanges(c: Changes) returns (restart: bool)
      requires Valid()
      modifies this
      ensures Valid() && (agent, restart) == AfterChanges(old(agent), cfg, hash, c)
      ensures c.empty || (c.busyBefore && c.busyAfter) ==>
        !restart && agent.helpers == old(agent).helpers && agent.starts == old(agent).starts
      ensures !c.empty && !c.busyBefore && CanApply(old(agent), cfg, hash, c.before) ==>
        && restart && disk == old(disk) && pending == old(pending)
        && agent.helpers == old(agent).helpers[old(agent).starts := pending.meta]
      ensures !c.empty && (c.busyBefore || !CanApply(old(agent), cfg, hash, c.before)) ==>
        IsWanted(old(agent), c.o) && Works(hash, c.o, c.s) ==>
        && pending == Readable(RecordOf(cfg, c.o))
        && (restart <==> !c.busyAfter && cfg.autoApply && cfg.helperPath != "" && cfg.target != ""
                         && !c.after.unreadable && !c.after.startFails)
        && (restart ==> agent.helpers == old(agent).helpers[old(agent).starts := RecordOf(cfg, c.o)])
      ensures c.busyBefore || !CanApply(old(agent), cfg, hash, c.before) ==>
        (IsWanted(old(agent), c.o) && !Works(hash, c.o, c.s) ==> !restart)
      ensures agent.starts == old(agent).starts + if restart then 1 else 0
      ensures !restart ==> agent.helpers == old(agent).helpers
    {
      ChangesDecide(agent, cfg, hash, c);
      StageDecides(agent, cfg, hash, c.o, c.s);
      StagedCanApply(agent, cfg, hash, c.o, c.s, c.after);
      if c.empty { return false; }
      if !c.busyBefore {
        var verdict := ApplyIfPending(c.before);
        if verdict == Done { return true; }
      }
      var staged := StageIfNeeded(c.o, c.s);
      if staged == Refuse { return false; }
      if !c.busyAfter {
        var verdict := ApplyIfPending(c.after);
        if verdict == Done { return true; }
      }
      return false;
    }
  }

  // ---------- The helper's part ----------

  function HelperPaths(cfg: Config, m: Meta, stamp: string): H.Paths {
    H.Paths(cfg.target, m.filePath, cfg.target + ".bak." + stamp, MetaPath(cfg))
  }

  /** The helper runs on the record it was given; unless the service could not be stopped, it then
      starts with the version in the config. */
  function RunHelper(a: Agent, cfg: Config, m: Meta, stamp: string, f: H.Faults): Agent {
    var p := HelperPaths(cfg, m, stamp);
    var done := H.Replaced(Disk0(a), p, f);
    var machine := H.Help(a.machine, p, m.version, f);
    a.(machine := machine, pending := if done && !f.removeMeta then NoMeta else a.pending,
       loaded := if f.stop then a.loaded else machine.version,
       installs := if done then a.installs + [Semver(m.version)] else a.installs)
  }

  /** Helper number k runs, if it was started and has not run yet. */
  function FinishHelper(a: Agent, cfg: Config, k: nat, stamp: string, f: H.Faults): Agent {
    if k !in a.helpers then a
    else RunHelper(a.(helpers := a.helpers - {k}), cfg, a.helpers[k], stamp, f)
  }
}
