/** The queue object and the driver loop, each method tied to the events it adds to the run. */
module TaskService {
  import opened Basics
  import opened Sorting
  import opened Tasks
  import opened TaskLedger

  /** A clock that never goes back and otherwise advances as it likes between two readings. */
  class Clock {
    var now: Time

    constructor () { now := *; }

    method Read() returns (t: Time)
      modifies this
      ensures old(now) <= now == t
    {
      var later: int := *;
      if later > now { now := later; }
      t := now;
    }
  }

  /** What the outside decides in one round: whether the wait before the execution is cancelled, and
      whether the execution succeeds. */
  datatype Luck = Luck(cancelled: bool, ok: bool)

  /** The events of one attempt: exactly one execution and exactly one report of it, recorded
      before the report when it failed and after it when it succeeded. */
  ghost predicate AttemptAdded(before: seq<Event>, after: seq<Event>, c: Command, ok: bool) {
    if ok then exists started ::
      after == before + [Executed(c, started, true)] + [Reported(c.taskId, true)] + [Completed(c)]
    else exists started, at ::
      after == before + [Executed(c, started, false)] + [Failed(c.taskId, at)] + [Reported(c.taskId, false)]
  }

  ghost predicate RoundAdded(before: seq<Event>, after: seq<Event>, ok: bool) {
    exists c, from, to :: AttemptAdded(before + [Picked(Some(c), from, to)], after, c, ok)
  }

  /** The task leaves; an app with an id is recorded with its version, and the change with it. */
  predicate SuccessRecorded(before: Queue, after: Queue, c: Command) {
    && after.tasks == before.tasks - {c.taskId} && after.retries == before.retries - {c.taskId}
    && if c.appId <= 0 then after.installed == before.installed && after.appsChanged == before.appsChanged
       else
         && after.appsChanged && c.appId in after.installed
         && after.installed[c.appId] == (if c.appVersion == "" then "unknown" else c.appVersion)
         && after.installed - {c.appId} == before.installed - {c.appId}
  }

  /** The task leaves with its last failure; otherwise its retry is due 5 minutes later for each failure
      so far, counted from an instant between the two given ones. */
  predicate FailureRecorded(before: Queue, after: Queue, id: int, maxRetries: nat, from: Time, to: Time) {
    var count := if id in before.retries then before.retries[id].count + 1 else 1;
    && after.installed == before.installed && after.appsChanged == before.appsChanged
    && after.retries - {id} == before.retries - {id}
    && if count >= maxRetries then after.tasks == before.tasks - {id} && id !in after.retries
       else
         && after.tasks == before.tasks && id in after.retries && after.retries[id].count == count
         && from + count * 5 * MINUTE <= after.retries[id].nextRetryAt <= to + count * 5 * MINUTE
  }

  /** Every pending task waits for a retry later than t. */
  ghost predicate NothingDue(tasks: map<int, Command>, retries: map<int, RetryInfo>, t: Time) {
    forall id | id in tasks :: id in retries && t < retries[id].nextRetryAt
  }

  /** The task goes first: least priority, then least id, of those that wait for no retry later than t. */
  ghost predicate GoesFirst(c: Command, tasks: map<int, Command>, retries: map<int, RetryInfo>, t: Time) {
    forall id | id in tasks && (id in retries ==> retries[id].nextRetryAt <= t) ::
      c.priority < tasks[id].priority || (c.priority == tasks[id].priority && c.taskId <= id)
  }

  ghost predicate NothingRan(before: seq<Event>, after: seq<Event>) {
    exists pick, from, to ::
      after == before + [Picked(pick, from, to)] || after == before + [Picked(pick, from, to)] + [Cancelled]
  }

  lemma {:induction false} CountOnce(a: seq<int>, x: int)
    requires forall i, j | 0 <= i < j < |a| :: a[i] != a[j]
    ensures multiset(a)[x] <= 1
  {
    if a != [] {
      assert a == [a[0]] + a[1..];
      CountOnce(a[1..], x);
      assert a[0] !in a[1..];
      assert a[0] !in multiset(a[1..]);
    }
  }

  lemma CountTwice(b: seq<int>, i: nat, j: nat)
    requires i < j < |b| && b[i] == b[j]
    ensures multiset(b)[b[i]] >= 2
  {
    assert b == b[..j] + [b[j]] + b[j + 1..];
    assert b[i] in b[..j];
    assert b[i] in multiset(b[..j]);
  }

  lemma DistinctStays(a: seq<int>, b: seq<int>, i: nat, j: nat)
    requires multiset(a) == multiset(b) && i < j < |b|
    requires forall i, j | 0 <= i < j < |a| :: a[i] != a[j]
    ensures b[i] != b[j]
  {
    CountOnce(a, b[i]);
    if b[i] == b[j] { CountTwice(b, i, j); }
  }

  method SortedIds(m: map<int, string>) returns (ids: seq<int>)
    ensures forall i, j | 0 <= i < j < |ids| :: ids[i] < ids[j]
    ensures forall id :: id in ids <==> id in m
  {
    var todo := m.Keys;
    ids := [];
    while todo != {}
      invariant todo <= m.Keys && (forall id :: id in ids <==> id in m && id !in todo)
      invariant forall i, j | 0 <= i < j < |ids| :: ids[i] != ids[j]
      decreases todo
    {
      HasMember(todo);
      var id :| id in todo;
      todo, ids := todo - {id}, ids + [id];
    }
    var less := (a: int, b: int) => a < b;
    SortSorts(ids, less);
    var sorted := Sort(ids, less);
    forall i, j | 0 <= i < j < |sorted| ensures sorted[i] < sorted[j] {
      DistinctStays(ids, sorted, i, j);
    }
    forall id ensures id in sorted <==> id in ids {
      assert id in multiset(sorted) <==> id in multiset(ids);
    }
    ids := sorted;
  }

  /** The installed apps by ascending id. */
  method ListApps(installed: map<int, string>) returns (apps: seq<InstalledApp>)
    ensures IsReportOf(apps, installed)
  {
    var appIds := SortedIds(installed);
    forall k | 0 <= k < |appIds| ensures appIds[k] in installed { assert appIds[k] in appIds; }
    apps := [];
    for i := 0 to |appIds|
      invariant |apps| == i && forall k | 0 <= k < i :: apps[k] == InstalledApp(appIds[k], installed[appIds[k]])
    {
      apps := apps + [InstalledApp(appIds[i], installed[appIds[i]])];
    }
    forall id | id in installed ensures InstalledApp(id, installed[id]) in apps {
      var k :| 0 <= k < |appIds| && appIds[k] == id;
      assert apps[k] == InstalledApp(id, installed[id]);
    }
  }

  method LeastOf(candidates: seq<Command>) returns (least: Command)
    requires candidates != []
    ensures least in candidates
    ensures forall c | c in candidates :: !Precedes(c, least)
  {
    SortSorts(candidates, Precedes);
    var sorted := Sort(candidates, Precedes);
    assert |sorted| == |multiset(sorted)| == |candidates|;
    least := sorted[0];
    assert least in multiset(sorted);
    forall c | c in candidates ensures !Precedes(c, least) {
      assert c in multiset(sorted);
    }
  }

  class TaskQueue {
    const maxRetries: nat
    const clock: Clock
    var tasks: map<int, Command>
    var retries: map<int, RetryInfo>
    var installed: map<int, string>
    var appsChanged: bool
    ghost var trace: seq<Event>

    ghost function Value(): Queue
      reads this
    {
      Queue(tasks, retries, installed, appsChanged)
    }

    ghost function Phase(): Phase
      reads this
    {
      Replay(maxRetries, trace).phase
    }

    /** The fields are what the run so far makes of them. */
    ghost predicate Valid()
      reads this, clock
    {
      && maxRetries > 0
      && Lawful(maxRetries, trace)
      && Replay(maxRetries, trace).queue == Value()
      && Replay(maxRetries, trace).now <= clock.now
    }

    constructor (retriesAllowed: int, clock: Clock)
      ensures Valid() && Phase() == Idle && trace == [] && this.clock == clock
      ensures maxRetries == if retriesAllowed <= 0 then 3 else retriesAllowed
    {
      this.clock := clock;
      maxRetries := if retriesAllowed <= 0 then 3 else retriesAllowed;
      tasks, retries, installed, appsChanged := map[], map[], map[], false;
      trace := [];
    }

    method AddCommands(commands: seq<Command>)
      requires Valid() && Phase() == Idle
      modifies this
      ensures Valid() && Phase() == Idle && Value() == AcceptAll(old(Value()), commands)
      ensures AddsBatch(old(tasks), tasks, commands)
      ensures retries == old(retries) && installed == old(installed) && appsChanged == old(appsChanged)
      ensures old(trace) <= trace && Executions(trace) == Executions(old(trace))
    {
      AcceptAllAddsBatch(Value(), commands);
      for i := 0 to |commands|
        invariant Valid() && Phase() == Idle && Value() == AcceptAll(old(Value()), commands[..i])
        invariant old(trace) <= trace && Executions(trace) == Executions(old(trace))
      {
        var c := commands[i];
        assert commands[..i + 1][..i] == commands[..i];
        if c.taskId == 0 || c.taskId in tasks { continue; }
        tasks := tasks[c.taskId := c];
        Extend(maxRetries, trace, Accepted(c));
        assert (trace + [Accepted(c)])[..|trace|] == trace;
        trace := trace + [Accepted(c)];
      }
      assert commands[..|commands|] == commands;
    }

    method PendingCount() returns (n: nat)
      ensures n == |tasks|
    {
      n := |tasks|;
    }

    method ConsumeAppsChanged() returns (changed: bool, apps: seq<InstalledApp>)
      requires Valid()
      modifies this
      ensures Valid() && Phase() == old(Phase())
      ensures Value() == old(Value()).(appsChanged := false)
      ensures changed == old(appsChanged) && if changed then IsReportOf(apps, installed) else apps == []
      ensures trace == old(trace) + [Consumed(if changed then Some(apps) else None)]
    {
      changed, apps := appsChanged, [];
      if changed {
        appsChanged := false;
        apps := ListApps(installed);
      }
      Extend(maxRetries, trace, Consumed(if changed then Some(apps) else None));
      trace := trace + [Consumed(if changed then Some(apps) else None)];
    }

    method HandleFailure(taskId: int)
      requires Valid() && Phase().Ran? && !Phase().ok && Phase().c.taskId == taskId
      modifies this, clock
      ensures old(clock.now) <= clock.now
      ensures Valid() && Value() == AfterFailure(old(Value()), maxRetries, taskId, clock.now)
      ensures FailureRecorded(old(Value()), Value(), taskId, maxRetries, old(clock.now), clock.now)
      ensures trace == old(trace) + [Failed(taskId, clock.now)]
    {
      var count := (if taskId in retries then retries[taskId].count else 0) + 1;
      var now := clock.Read();
      Extend(maxRetries, trace, Failed(taskId, now));
      trace := trace + [Failed(taskId, now)];
      if count >= maxRetries {
        retries, tasks := retries - {taskId}, tasks - {taskId};
        return;
      }
      retries := retries[taskId := RetryInfo(count, now + count * 5 * MINUTE)];
    }

    method HandleSuccess(task: Command)
      requires Valid() && Phase() == Told(task)
      modifies this
      ensures Valid() && Value() == AfterSuccess(old(Value()), task)
      ensures SuccessRecorded(old(Value()), Value(), task)
      ensures trace == old(trace) + [Completed(task)]
    {
      tasks, retries := tasks - {task.taskId}, retries - {task.taskId};
      if task.appId > 0 {
        var version := task.appVersion;
        if version == "" { version := "unknown"; }
        installed, appsChanged := installed[task.appId := version], true;
      }
      Extend(maxRetries, trace, Completed(task));
      trace := trace + [Completed(task)];
    }

    /** Scans the tasks in any order, reading the clock for each one that waits for a retry. */
    method NextRunnable() returns (pick: Option<Command>)
      requires Valid() && Phase() == Idle
      modifies this`trace, clock
      ensures Valid()
      ensures old(clock.now) <= clock.now && MayPick(Value(), old(clock.now), clock.now, pick)
      ensures trace == old(trace) + [Picked(pick, old(clock.now), clock.now)]
      ensures pick == None ==> NothingDue(tasks, retries, old(clock.now))
      ensures pick.Some? ==>
        && pick.value.taskId in tasks && tasks[pick.value.taskId] == pick.value
        && (pick.value.taskId in retries ==> retries[pick.value.taskId].nextRetryAt <= clock.now)
        && GoesFirst(pick.value, tasks, retries, old(clock.now))
    {
      RunIsCoherent(maxRetries, trace);
      var candidates: seq<Command>, todo := [], tasks.Keys;
      while todo != {}
        invariant todo <= tasks.Keys && old(clock.now) <= clock.now && Valid() && Phase() == Idle
        invariant unchanged(this)
        invariant forall c | c in candidates ::
            c.taskId in tasks && tasks[c.taskId] == c && Due(Value(), c.taskId, clock.now)
        invariant forall id | id in tasks && id !in todo && Due(Value(), id, old(clock.now)) :: tasks[id] in candidates
        decreases todo
      {
        HasMember(todo);
        var id :| id in todo;
        todo := todo - {id};
        if id in retries {
          var now := clock.Read();
          if now < retries[id].nextRetryAt { continue; }
        }
        candidates := candidates + [tasks[id]];
      }
      if candidates == [] {
        pick := None;
      } else {
        var least := LeastOf(candidates);
        pick := Some(least);
      }
      Extend(maxRetries, trace, Picked(pick, old(clock.now), clock.now));
      trace := trace + [Picked(pick, old(clock.now), clock.now)];
    }

    /** One round: choose a task, wait out the jitter unless it is forced, execute, record and report.
        A task that is due is processed unless its wait is cancelled. */
    method ProcessOne(luck: Luck) returns (processed: bool)
      requires Valid() && Phase() == Idle
      modifies this, clock
      ensures Valid() && Phase() == Idle && old(clock.now) <= clock.now
      ensures |old(trace)| < |trace| && trace[|old(trace)|].Picked?
      ensures var pick := trace[|old(trace)|].pick;
              processed <==> pick.Some? && (pick.value.forceUpdate || !luck.cancelled)
      ensures var pick := trace[|old(trace)|].pick;
              pick.Some? ==> GoesFirst(pick.value, old(tasks), old(retries), old(clock.now))
      ensures !luck.cancelled && !NothingDue(old(tasks), old(retries), old(clock.now)) ==> processed
      ensures processed ==>
        var pick := trace[|old(trace)|].pick;
        if luck.ok then SuccessRecorded(old(Value()), Value(), pick.value)
        else FailureRecorded(old(Value()), Value(), pick.value.taskId, maxRetries, old(clock.now), clock.now)
      ensures processed ==> RoundAdded(old(trace), trace, luck.ok)
      ensures !processed ==> Value() == old(Value()) && NothingRan(old(trace), trace)
      ensures !processed && !luck.cancelled ==> NothingDue(tasks, retries, old(clock.now))
      ensures processed ==> Total(Value(), maxRetries) < Total(old(Value()), maxRetries)
    {
      var pick := NextRunnable();
      if pick == None { return false; }
      var task := pick.value;
      if !task.forceUpdate {
        if luck.cancelled {
          Add(Cancelled);
          return false;
        }
        var afterJitter := clock.Read();
      }
      Attempt(task, luck.ok);
      return true;
    }

    /** Executes a chosen task, records the outcome and reports it. */
    method Attempt(task: Command, ok: bool)
      requires Valid() && Phase() == Chosen(task)
      modifies this, clock
      ensures Valid() && Phase() == Idle && old(clock.now) <= clock.now
      ensures AttemptAdded(old(trace), trace, task, ok)
      ensures if ok then SuccessRecorded(old(Value()), Value(), task)
              else FailureRecorded(old(Value()), Value(), task.taskId, maxRetries, old(clock.now), clock.now)
      ensures Total(Value(), maxRetries) < Total(old(Value()), maxRetries)
    {
      RunIsCoherent(maxRetries, trace);
      Add(Executed(task, clock.now, ok));
      var finished := clock.Read();
      if !ok {
        HandleFailure(task.taskId);
        FailureSpends(old(Value()), maxRetries, task.taskId, clock.now);
        Add(Reported(task.taskId, false));
      } else {
        Add(Reported(task.taskId, true));
        HandleSuccess(task);
        SuccessSpends(old(Value()), maxRetries, task);
      }
    }

    ghost method Add(e: Event)
      requires Valid() && Enabled(Replay(maxRetries, trace), e)
      requires Apply(Replay(maxRetries, trace), maxRetries, e).queue == Value()
      requires Apply(Replay(maxRetries, trace), maxRetries, e).now <= clock.now
      modifies this`trace
      ensures Valid() && trace == old(trace) + [e]
      ensures Phase() == Apply(Replay(maxRetries, old(trace)), maxRetries, e).phase
    {
      Extend(maxRetries, trace, e);
      var longer := trace + [e];
      assert Lawful(maxRetries, longer) && Replay(maxRetries, longer).queue == Value();
      trace := longer;
    }
  }

  lemma AppendOne(trace: seq<Event>, e: Event)
    ensures |Executions(trace + [e])| == |Executions(trace)| + if e.Executed? then 1 else 0
  {
    assert (trace + [e])[..|trace|] == trace;
  }

  lemma RoundRunsOne(before: seq<Event>, after: seq<Event>, ok: bool)
    requires RoundAdded(before, after, ok)
    ensures before <= after
    ensures |Executions(after)| == |Executions(before)| + 1
  {
    var c, from, to :| AttemptAdded(before + [Picked(Some(c), from, to)], after, c, ok);
    var n := |before|;
    assert after[..n] == before && |after| == n + 4;
    forall k | n <= k < n + 4 ensures after[..k + 1] == after[..k] + [after[k]] {}
    AppendOne(after[..n], after[n]);
    AppendOne(after[..n + 1], after[n + 1]);
    AppendOne(after[..n + 2], after[n + 2]);
    AppendOne(after[..n + 3], after[n + 3]);
    assert after[..n + 4] == after;
  }

  lemma NothingRanRunsNone(before: seq<Event>, after: seq<Event>)
    requires NothingRan(before, after)
    ensures |Executions(after)| == |Executions(before)|
  {
    var n := |before|;
    assert after[..n] == before;
    assert after[..n + 1] == after[..n] + [after[n]];
    AppendOne(after[..n], after[n]);
    if |after| == n + 2 {
      assert after == after[..n + 1] + [after[n + 1]];
      AppendOne(after[..n + 1], after[n + 1]);
    } else {
      assert after == after[..n + 1];
    }
  }

  /** The loop that drains the queue.  It ends for every clock and every outcome of execute, after at
      most maxRetries executions for each task pending when it starts; without a cancellation it ends
      only when every task that is still pending waited for a later retry at its last scan. */
  method Drain(queue: TaskQueue, luck: nat -> Luck)
    requires queue.Valid() && queue.Phase() == Idle
    modifies queue, queue.clock
    ensures queue.Valid() && queue.Phase() == Idle && old(queue.clock.now) <= queue.clock.now
    ensures |Executions(queue.trace)| <= |Executions(old(queue.trace))| + queue.maxRetries * |old(queue.tasks)|
    ensures exists sofar :: old(queue.trace) <= sofar <= queue.trace && NothingRan(sofar, queue.trace)
    ensures (forall i :: !luck(i).cancelled) ==>
              exists t :: old(queue.clock.now) <= t <= queue.clock.now && NothingDue(queue.tasks, queue.retries, t)
  {
    RunIsCoherent(queue.maxRetries, queue.trace);
    BudgetBounds(queue.Value(), queue.maxRetries, queue.tasks.Keys);
    ghost var budget := Total(queue.Value(), queue.maxRetries);
    ghost var before := |Executions(queue.trace)|;
    var processed, round := true, 0;
    ghost var last, scan := queue.trace, queue.clock.now;
    while processed
      invariant queue.Valid() && queue.Phase() == Idle
      invariant |Executions(queue.trace)| + Total(queue.Value(), queue.maxRetries) <= before + budget
      invariant Total(queue.Value(), queue.maxRetries) >= 0
      invariant old(queue.trace) <= last <= queue.trace
      invariant if processed then last == queue.trace else NothingRan(last, queue.trace)
      invariant old(queue.clock.now) <= scan <= queue.clock.now
      invariant processed || (exists i :: luck(i).cancelled) || NothingDue(queue.tasks, queue.retries, scan)
      decreases processed, Total(queue.Value(), queue.maxRetries)
    {
      ghost var sofar := queue.trace;
      scan := queue.clock.now;
      processed := queue.ProcessOne(luck(round));
      round := round + 1;
      if processed {
        RoundRunsOne(sofar, queue.trace, luck(round - 1).ok);
        last := queue.trace;
      } else {
        NothingRanRunsNone(sofar, queue.trace);
      }
      RunIsCoherent(queue.maxRetries, queue.trace);
      BudgetBounds(queue.Value(), queue.maxRetries, queue.tasks.Keys);
    }
  }

  /** Within the run up to `after`, the batch was added first, before anything was executed. */
  ghost predicate BatchCameFirst(maxRetries: nat, before: seq<Event>, added: seq<Event>, after: seq<Event>,
                                 tasks: map<int, Command>, commands: seq<Command>)
  {
    before <= added <= after && Executions(added) == Executions(before)
    && AddsBatch(tasks, Replay(maxRetries, added).queue.tasks, commands)
  }

  /** New commands are added before the queue is drained; `logged` is the count of pending tasks that is
      then written to the log. */
  method ProcessCommands(queue: TaskQueue, commands: seq<Command>, luck: nat -> Luck) returns (logged: Option<nat>)
    requires queue.Valid() && queue.Phase() == Idle
    modifies queue, queue.clock
    ensures queue.Valid() && queue.Phase() == Idle
    ensures exists added :: BatchCameFirst(queue.maxRetries, old(queue.trace), added, queue.trace,
                                           old(queue.tasks), commands)
    ensures |Executions(queue.trace)| <= |Executions(old(queue.trace))|
              + queue.maxRetries * |AcceptAll(old(queue.Value()), commands).tasks|
    ensures exists sofar :: old(queue.trace) <= sofar && NothingRan(sofar, queue.trace)
    ensures (forall i :: !luck(i).cancelled) ==>
              exists t :: old(queue.clock.now) <= t <= queue.clock.now && NothingDue(queue.tasks, queue.retries, t)
    ensures logged == if commands == [] then None else Some(|AcceptAll(old(queue.Value()), commands).tasks|)
  {
    logged := None;
    if |commands| > 0 {
      queue.AddCommands(commands);
      var pending := queue.PendingCount();
      logged := Some(pending);
    }
    ghost var added := queue.trace;
    Drain(queue, luck);
    assert BatchCameFirst(queue.maxRetries, old(queue.trace), added, queue.trace, old(queue.tasks), commands);
  }
}
