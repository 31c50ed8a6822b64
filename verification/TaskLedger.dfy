/** Whole runs of the task queue: any interleaving of the one serialised driver with
    consumers of the installed-apps ledger, any clock and any outcome of execute. */
module TaskLedger {
  import opened Basics
  import opened Tasks

  datatype Event =
    | Accepted(c: Command)
    | Picked(pick: Option<Command>, from: Time, to: Time)
    | Cancelled
    | Executed(c: Command, started: Time, ok: bool)
    | Failed(id: int, at: Time)
    | Reported(id: int, ok: bool)
    | Completed(c: Command)
    | Consumed(report: Option<seq<InstalledApp>>)

  /** Where the driver is inside ProcessOne. */
  datatype Phase = Idle | Chosen(c: Command) | Ran(c: Command, ok: bool) | Recorded(c: Command) | Told(c: Command)

  datatype System = System(queue: Queue, phase: Phase, now: Time)

  ghost predicate Enabled(s: System, e: Event) {
    match e
    case Accepted(c) => s.phase == Idle && Acceptable(s.queue, c)
    case Picked(pick, from, to) => s.phase == Idle && s.now <= from <= to && MayPick(s.queue, from, to, pick)
    case Cancelled => s.phase.Chosen? && !s.phase.c.forceUpdate
    case Executed(c, started, ok) => s.phase == Chosen(c) && s.now <= started
    case Failed(id, at) => s.phase.Ran? && !s.phase.ok && id == s.phase.c.taskId && s.now <= at
    case Reported(id, ok) => if ok then s.phase.Ran? && s.phase.ok && id == s.phase.c.taskId
                             else s.phase.Recorded? && id == s.phase.c.taskId
    case Completed(c) => s.phase == Told(c)
    case Consumed(report) =>
      if s.queue.appsChanged then report.Some? && IsReportOf(report.value, s.queue.installed) else report == None
  }

  function Apply(s: System, maxRetries: nat, e: Event): System {
    match e
    case Accepted(c) => s.(queue := Accept(s.queue, c))
    case Picked(pick, _, to) => s.(phase := if pick.Some? then Chosen(pick.value) else Idle, now := to)
    case Cancelled => s.(phase := Idle)
    case Executed(c, started, ok) => s.(phase := Ran(c, ok), now := started)
    case Failed(id, at) =>
      System(AfterFailure(s.queue, maxRetries, id, at), if s.phase.Ran? then Recorded(s.phase.c) else s.phase, at)
    case Reported(id, ok) => s.(phase := if ok && s.phase.Ran? then Told(s.phase.c) else Idle)
    case Completed(c) => s.(queue := AfterSuccess(s.queue, c), phase := Idle)
    case Consumed(_) => s.(queue := s.queue.(appsChanged := false))
  }

  function Replay(maxRetries: nat, trace: seq<Event>): System {
    if trace == [] then System(EMPTY, Idle, 0)
    else Apply(Replay(maxRetries, trace[..|trace| - 1]), maxRetries, trace[|trace| - 1])
  }

  ghost predicate Lawful(maxRetries: nat, trace: seq<Event>) {
    trace == [] ||
    (Lawful(maxRetries, trace[..|trace| - 1])
     && Enabled(Replay(maxRetries, trace[..|trace| - 1]), trace[|trace| - 1]))
  }

  lemma Extend(maxRetries: nat, trace: seq<Event>, e: Event)
    requires Lawful(maxRetries, trace) && Enabled(Replay(maxRetries, trace), e)
    ensures Lawful(maxRetries, trace + [e])
    ensures Replay(maxRetries, trace + [e]) == Apply(Replay(maxRetries, trace), maxRetries, e)
  {
    assert (trace + [e])[..|trace|] == trace;
  }

  // ---------- What the trace alone says about one task since it was last accepted ----------

  function WasAccepted(trace: seq<Event>, id: int): bool {
    exists i :: 0 <= i < |trace| && trace[i].Accepted? && trace[i].c.taskId == id
  }

  /** When the task failed, since its last acceptance. */
  function Failures(trace: seq<Event>, id: int): seq<Time> {
    if trace == [] then []
    else
      var e, before := trace[|trace| - 1], Failures(trace[..|trace| - 1], id);
      if e.Accepted? && e.c.taskId == id then []
      else if e.Failed? && e.id == id then before + [e.at] else before
  }

  /** When the task was started, since its last acceptance. */
  function Starts(trace: seq<Event>, id: int): seq<Time> {
    if trace == [] then []
    else
      var e, before := trace[|trace| - 1], Starts(trace[..|trace| - 1], id);
      if e.Accepted? && e.c.taskId == id then []
      else if e.Executed? && e.c.taskId == id then before + [e.started] else before
  }

  /** How often the task succeeded, since its last acceptance. */
  function Successes(trace: seq<Event>, id: int): nat {
    if trace == [] then 0
    else
      var e, before := trace[|trace| - 1], Successes(trace[..|trace| - 1], id);
      if e.Accepted? && e.c.taskId == id then 0
      else if e.Completed? && e.c.taskId == id then before + 1 else before
  }

  // ---------- The ledger ----------

  /** The command the driver holds, if any, is still the pending command of its id. */
  ghost predicate Coherent(s: System, maxRetries: nat) {
    && Sound(s.queue, maxRetries)
    && 0 !in s.queue.tasks
    && (s.phase.Chosen? || s.phase.Ran? || s.phase.Told? ==>
          s.phase.c.taskId in s.queue.tasks && s.queue.tasks[s.phase.c.taskId] == s.phase.c)
    && (s.phase.Chosen? || s.phase.Ran? || s.phase.Told? ==> Due(s.queue, s.phase.c.taskId, s.now))
  }

  /** In every reachable state each task is filed under its own id and each stored retry count
      is between 1 and maxRetries - 1 and belongs to a pending task. */
  lemma {:induction false} RunIsCoherent(maxRetries: nat, trace: seq<Event>)
    requires maxRetries > 0 && Lawful(maxRetries, trace)
    ensures Coherent(Replay(maxRetries, trace), maxRetries)
  {
    if trace != [] {
      var init, e := trace[..|trace| - 1], trace[|trace| - 1];
      RunIsCoherent(maxRetries, init);
      var s := Replay(maxRetries, init);
      if e.Failed? { FailureSpends(s.queue, maxRetries, e.id, e.at); }
      if e.Completed? { SuccessSpends(s.queue, maxRetries, e.c); }
    }
  }

  /** A task is pending, or has left at its first success, or at exactly its maxRetries-th failure. */
  ghost predicate LedgerHolds(maxRetries: nat, trace: seq<Event>, id: int) {
    var q, failures, successes := Replay(maxRetries, trace).queue, |Failures(trace, id)|, Successes(trace, id);
    && (id in q.tasks <==> WasAccepted(trace, id) && successes == 0 && failures < maxRetries)
    && ((successes == 0 && failures <= maxRetries) || (successes == 1 && failures < maxRetries))
    && (!WasAccepted(trace, id) ==> successes == 0 && failures == 0)
    && (id in q.retries <==> id in q.tasks && failures > 0)
    && (id in q.retries ==>
          q.retries[id] == RetryInfo(failures, Failures(trace, id)[failures - 1] + failures * 5 * MINUTE))
  }

  lemma {:induction false} Ledger(maxRetries: nat, trace: seq<Event>, id: int)
    requires maxRetries > 0 && Lawful(maxRetries, trace)
    ensures LedgerHolds(maxRetries, trace, id)
  {
    if trace != [] {
      var init, e := trace[..|trace| - 1], trace[|trace| - 1];
      assert trace == init + [e];
      Ledger(maxRetries, init, id);
      RunIsCoherent(maxRetries, init);
      assert WasAccepted(trace, id) <==> WasAccepted(init, id) || (e.Accepted? && e.c.taskId == id);
    }
  }

  // ---------- Retry spacing ----------

  /** The executions of the task that are under way: started, outcome not yet recorded. */
  function InFlight(s: System, id: int): nat {
    if (s.phase.Ran? || s.phase.Told?) && s.phase.c.taskId == id then 1 else 0
  }

  /** Every start answers to exactly one failure, one success or an execution under way. */
  lemma {:induction false} StartsAreAccounted(maxRetries: nat, trace: seq<Event>, id: int)
    requires maxRetries > 0 && Lawful(maxRetries, trace)
    ensures |Starts(trace, id)|
         == |Failures(trace, id)| + Successes(trace, id) + InFlight(Replay(maxRetries, trace), id)
  {
    if trace != [] {
      var init := trace[..|trace| - 1];
      StartsAreAccounted(maxRetries, init, id);
      RunIsCoherent(maxRetries, init);
      Ledger(maxRetries, init, id);
    }
  }

  /** Failure k ends start k, and the next start comes at least 5(k + 1) minutes after it. */
  ghost predicate Spaced(starts: seq<Time>, failures: seq<Time>, now: Time) {
    && |failures| <= |starts|
    && (forall k {:trigger failures[k]} | 0 <= k < |failures| :: starts[k] <= failures[k])
    && (forall k {:trigger failures[k]} | 0 <= k < |failures| && k + 1 < |starts| ::
          failures[k] + (k + 1) * 5 * MINUTE <= starts[k + 1])
    && (forall k | 0 <= k < |starts| :: starts[k] <= now)
  }

  lemma SpacedStart(starts: seq<Time>, failures: seq<Time>, now: Time, t: Time)
    requires Spaced(starts, failures, now) && |starts| == |failures| && now <= t
    requires failures != [] ==> failures[|failures| - 1] + |failures| * 5 * MINUTE <= t
    ensures Spaced(starts + [t], failures, t)
  {}

  lemma SpacedFailure(starts: seq<Time>, failures: seq<Time>, now: Time, t: Time)
    requires Spaced(starts, failures, now) && |starts| == |failures| + 1 && now <= t
    ensures Spaced(starts, failures + [t], t)
  {}

  /** The k-th retry of a task starts at least 5k minutes after its k-th failure, whatever
      other tasks do. */
  lemma {:induction false} RetrySpacing(maxRetries: nat, trace: seq<Event>, id: int)
    requires maxRetries > 0 && Lawful(maxRetries, trace)
    ensures Spaced(Starts(trace, id), Failures(trace, id), Replay(maxRetries, trace).now)
  {
    if trace != [] {
      var init, e := trace[..|trace| - 1], trace[|trace| - 1];
      var s := Replay(maxRetries, init);
      var starts, failures := Starts(init, id), Failures(init, id);
      RetrySpacing(maxRetries, init, id);
      RunIsCoherent(maxRetries, init);
      Ledger(maxRetries, init, id);
      StartsAreAccounted(maxRetries, init, id);
      if e.Executed? && e.c.taskId == id {
        assert Due(s.queue, id, e.started);
        SpacedStart(starts, failures, s.now, e.started);
      } else if e.Failed? && e.id == id {
        SpacedFailure(starts, failures, s.now, e.at);
      } else if e.Accepted? && e.c.taskId == id {
      } else {
        assert Starts(trace, id) == starts && Failures(trace, id) == failures;
        assert s.now <= Replay(maxRetries, trace).now;
      }
    }
  }

  /** 1 + 2 + ... + k. */
  function Triangle(k: nat): nat { if k == 0 then 0 else Triangle(k - 1) + k }

  lemma {:induction false} TriangleIsHalfProduct(k: nat)
    ensures 2 * Triangle(k) == k * (k + 1)
  {
    if k > 0 { TriangleIsHalfProduct(k - 1); }
  }

  lemma {:induction false} StartsSpread(trace: seq<Event>, id: int, now: Time, k: nat)
    requires Spaced(Starts(trace, id), Failures(trace, id), now)
    requires 1 <= k < |Starts(trace, id)| && k <= |Failures(trace, id)|
    ensures Failures(trace, id)[0] + Triangle(k) * 5 * MINUTE <= Starts(trace, id)[k]
  {
    assert Starts(trace, id)[k] >= Failures(trace, id)[k - 1] + k * 5 * MINUTE;
    if k > 1 { StartsSpread(trace, id, now, k - 1); }
  }

  lemma GivenUpStarts(maxRetries: nat, trace: seq<Event>, id: int)
    requires maxRetries > 0 && Lawful(maxRetries, trace) && |Failures(trace, id)| == maxRetries
    ensures |Starts(trace, id)| == maxRetries
  {
    Ledger(maxRetries, trace, id);
    StartsAreAccounted(maxRetries, trace, id);
    RunIsCoherent(maxRetries, trace);
  }

  /** A task given up after m >= 2 failures was started m times, and its last start came at least
      5 m (m - 1) / 2 minutes after its first failure. */
  lemma GiveUpSpan(maxRetries: nat, trace: seq<Event>, id: int)
    requires maxRetries >= 2 && Lawful(maxRetries, trace) && |Failures(trace, id)| == maxRetries
    ensures |Starts(trace, id)| == maxRetries
    ensures 2 * (Starts(trace, id)[maxRetries - 1] - Failures(trace, id)[0])
            >= (maxRetries - 1) * maxRetries * (5 * MINUTE)
  {
    var k := maxRetries - 1;
    GivenUpStarts(maxRetries, trace, id);
    RetrySpacing(maxRetries, trace, id);
    StartsSpread(trace, id, Replay(maxRetries, trace).now, k);
    TriangleIsHalfProduct(k);
    assert 2 * (Triangle(k) * 5 * MINUTE) == k * maxRetries * (5 * MINUTE);
  }

  // ---------- One report per execution ----------

  function Executions(trace: seq<Event>): seq<(int, bool)> {
    if trace == [] then []
    else
      var e, before := trace[|trace| - 1], Executions(trace[..|trace| - 1]);
      if e.Executed? then before + [(e.c.taskId, e.ok)] else before
  }

  function Reports(trace: seq<Event>): seq<(int, bool)> {
    if trace == [] then []
    else
      var e, before := trace[|trace| - 1], Reports(trace[..|trace| - 1]);
      if e.Reported? then before + [(e.id, e.ok)] else before
  }

  /** The reports are the executions, in order and with matching status, up to at most one
      execution whose report is still to come. */
  lemma {:induction false} OneReportPerExecution(maxRetries: nat, trace: seq<Event>)
    requires Lawful(maxRetries, trace)
    ensures var phase := Replay(maxRetries, trace).phase;
            Executions(trace) == Reports(trace) + match phase {
              case Ran(c, ok) => [(c.taskId, ok)]
              case Recorded(c) => [(c.taskId, false)]
              case _ => []
            }
  {
    if trace != [] { OneReportPerExecution(maxRetries, trace[..|trace| - 1]); }
  }

  // ---------- The installed-apps ledger ----------

  predicate Installs(e: Event) { e.Completed? && e.c.appId > 0 }

  /** The version of the last success for the app. */
  function LastVersion(trace: seq<Event>, app: int): Option<string> {
    if trace == [] then None
    else
      var e := trace[|trace| - 1];
      if Installs(e) && e.c.appId == app then Some(if e.c.appVersion == "" then "unknown" else e.c.appVersion)
      else LastVersion(trace[..|trace| - 1], app)
  }

  /** Some app was installed since the ledger was last consumed. */
  predicate InstalledSinceConsume(trace: seq<Event>) {
    trace != [] && !trace[|trace| - 1].Consumed?
    && (Installs(trace[|trace| - 1]) || InstalledSinceConsume(trace[..|trace| - 1]))
  }

  function AsMap(apps: seq<InstalledApp>): map<int, string> {
    if apps == [] then map[]
    else AsMap(apps[..|apps| - 1])[apps[|apps| - 1].appId := apps[|apps| - 1].version]
  }

  /** What a receiver of every report that carries a list has stored. */
  function Receiver(trace: seq<Event>): map<int, string> {
    if trace == [] then map[]
    else
      var e := trace[|trace| - 1];
      if e.Consumed? && e.report.Some? then AsMap(e.report.value) else Receiver(trace[..|trace| - 1])
  }

  lemma {:induction false} AsMapLookup(apps: seq<InstalledApp>, id: int)
    requires forall i, j | 0 <= i < j < |apps| :: apps[i].appId < apps[j].appId
    ensures id in AsMap(apps) ==> InstalledApp(id, AsMap(apps)[id]) in apps
    ensures forall i | 0 <= i < |apps| && apps[i].appId == id :: id in AsMap(apps) && AsMap(apps)[id] == apps[i].version
  {
    if apps != [] { AsMapLookup(apps[..|apps| - 1], id); }
  }

  lemma ReportGivesMap(apps: seq<InstalledApp>, installed: map<int, string>)
    requires IsReportOf(apps, installed)
    ensures AsMap(apps) == installed
  {
    forall id
      ensures (id in AsMap(apps) <==> id in installed) && (id in installed ==> AsMap(apps)[id] == installed[id])
    {
      AsMapLookup(apps, id);
      if id in installed { assert InstalledApp(id, installed[id]) in apps; }
    }
  }

  /** The ledger is the last-version-wins fold of all successes, a change is reported exactly
      when an app was installed since the last consume, and until the next success a receiver
      of every list agrees with the queue. */
  lemma {:induction false} AppsLedger(maxRetries: nat, trace: seq<Event>)
    requires Lawful(maxRetries, trace)
    ensures var q := Replay(maxRetries, trace).queue;
            && (forall app :: LastVersion(trace, app) == if app in q.installed then Some(q.installed[app]) else None)
            && (q.appsChanged <==> InstalledSinceConsume(trace))
            && (!q.appsChanged ==> Receiver(trace) == q.installed)
  {
    if trace != [] {
      var init, e := trace[..|trace| - 1], trace[|trace| - 1];
      AppsLedger(maxRetries, init);
      var q := Replay(maxRetries, init).queue;
      if e.Consumed? && e.report.Some? { ReportGivesMap(e.report.value, q.installed); }
      assert Replay(maxRetries, trace).queue.installed
          == if Installs(e) then AfterSuccess(q, e.c).installed else q.installed;
    }
  }

  // ---------- Reports that get lost ----------

  /** Where the latest report with a list stands that was heard; 0 if there is none. `lost` are the
      places of reports whose request did not get through. */
  function LatestHeard(trace: seq<Event>, lost: set<int>): (j: nat)
    ensures j <= |trace|
  {
    if trace == [] then 0
    else
      var last := |trace| - 1;
      if trace[last].Consumed? && trace[last].report.Some? && last !in lost then last
      else LatestHeard(trace[..last], lost)
  }

  /** What a receiver of the reports that got through has stored. */
  function Heard(trace: seq<Event>, lost: set<int>): map<int, string> {
    if trace == [] then map[]
    else
      var last := |trace| - 1;
      if trace[last].Consumed? && trace[last].report.Some? && last !in lost then AsMap(trace[last].report.value)
      else Heard(trace[..last], lost)
  }

  /** It holds what the queue had installed when that report was made. */
  lemma {:induction false} HeardIsOfThen(maxRetries: nat, trace: seq<Event>, lost: set<int>)
    requires Lawful(maxRetries, trace)
    ensures var j := LatestHeard(trace, lost);
            Lawful(maxRetries, trace[..j]) && Heard(trace, lost) == Replay(maxRetries, trace[..j]).queue.installed
  {
    if trace != [] {
      var last := |trace| - 1;
      if trace[last].Consumed? && trace[last].report.Some? && last !in lost {
        ReportGivesMap(trace[last].report.value, Replay(maxRetries, trace[..last]).queue.installed);
      } else {
        HeardIsOfThen(maxRetries, trace[..last], lost);
        assert trace[..last][..LatestHeard(trace, lost)] == trace[..LatestHeard(trace, lost)];
      }
    } else {
      assert trace[..0] == [];
    }
  }

  /** No app got another version. */
  ghost predicate SameVersions(a: seq<Event>, b: seq<Event>) {
    forall app :: LastVersion(a, app) == LastVersion(b, app)
  }

  lemma SameInstalledIff(maxRetries: nat, a: seq<Event>, b: seq<Event>)
    requires Lawful(maxRetries, a) && Lawful(maxRetries, b)
    ensures Replay(maxRetries, a).queue.installed == Replay(maxRetries, b).queue.installed <==> SameVersions(a, b)
  {
    AppsLedger(maxRetries, a);
    AppsLedger(maxRetries, b);
    var now, before := Replay(maxRetries, a).queue.installed, Replay(maxRetries, b).queue.installed;
    if SameVersions(a, b) {
      forall app ensures (app in now <==> app in before) && (app in now ==> now[app] == before[app]) {
        assert LastVersion(a, app) == LastVersion(b, app);
      }
    }
  }

  /** With reports lost, the receiver agrees with the queue exactly when no app got another version
      after the latest report it heard. */
  lemma LostReportIff(maxRetries: nat, trace: seq<Event>, lost: set<int>)
    requires Lawful(maxRetries, trace)
    ensures Heard(trace, lost) == Replay(maxRetries, trace).queue.installed
       <==> SameVersions(trace, trace[..LatestHeard(trace, lost)])
  {
    HeardIsOfThen(maxRetries, trace, lost);
    SameInstalledIff(maxRetries, trace, trace[..LatestHeard(trace, lost)]);
  }

  const DRIVER := Command(1, 7, "2.0", true, 0)

  lemma Happens(maxRetries: nat, before: seq<Event>, e: Event) returns (trace: seq<Event>)
    requires Lawful(maxRetries, before) && Enabled(Replay(maxRetries, before), e)
    ensures trace == before + [e] && Lawful(maxRetries, trace)
    ensures Replay(maxRetries, trace) == Apply(Replay(maxRetries, before), maxRetries, e)
  {
    trace := before + [e];
    Extend(maxRetries, before, e);
  }

  lemma DriverChosen(maxRetries: nat) returns (trace: seq<Event>)
    requires maxRetries > 0
    ensures Lawful(maxRetries, trace) && forall i | 0 <= i < |trace| :: !trace[i].Consumed?
    ensures Replay(maxRetries, trace) == System(Queue(map[1 := DRIVER], map[], map[], false), Chosen(DRIVER), 0)
  {
    trace := Happens(maxRetries, [], Accepted(DRIVER));
    trace := Happens(maxRetries, trace, Picked(Some(DRIVER), 0, 0));
  }

  lemma DriverInstalled(maxRetries: nat) returns (trace: seq<Event>)
    requires maxRetries > 0
    ensures Lawful(maxRetries, trace) && forall i | 0 <= i < |trace| :: !trace[i].Consumed?
    ensures Replay(maxRetries, trace).queue == Queue(map[], map[], map[7 := "2.0"], true)
  {
    trace := DriverChosen(maxRetries);
    trace := Happens(maxRetries, trace, Executed(DRIVER, 0, true));
    trace := Happens(maxRetries, trace, Reported(1, true));
    trace := Happens(maxRetries, trace, Completed(DRIVER));
  }

  lemma {:induction false} NothingHeard(trace: seq<Event>, lost: set<int>)
    requires forall i | 0 <= i < |trace| && trace[i].Consumed? :: i in lost
    ensures Heard(trace, lost) == map[]
  {
    if trace != [] { NothingHeard(trace[..|trace| - 1], lost); }
  }

  /** An app is installed and the one report of it is lost: from then on nothing is to be reported and
      the receiver does not know the app. */
  lemma ReportIsLost(maxRetries: nat) returns (trace: seq<Event>)
    requires maxRetries > 0
    ensures Lawful(maxRetries, trace) && !Replay(maxRetries, trace).queue.appsChanged
    ensures Replay(maxRetries, trace).queue.installed == map[7 := "2.0"]
    ensures Heard(trace, {|trace| - 1}) == map[]
  {
    trace := DriverInstalled(maxRetries);
    trace := Happens(maxRetries, trace, Consumed(Some([InstalledApp(7, "2.0")])));
    NothingHeard(trace, {|trace| - 1});
  }
}
