/** The retrying priority queue of internal/queue/taskqueue.go and the loop of
    cmd/service/core.go that drains it. */
module Tasks {
  import opened Basics

  datatype Command = Command(taskId: int, appId: int, appVersion: string, forceUpdate: bool, priority: int)

  datatype RetryInfo = RetryInfo(count: nat, nextRetryAt: Time)

  datatype InstalledApp = InstalledApp(appId: int, version: string)

  datatype Queue = Queue(tasks: map<int, Command>, retries: map<int, RetryInfo>,
                         installed: map<int, string>, appsChanged: bool)

  const EMPTY := Queue(map[], map[], map[], false)

  predicate Precedes(a: Command, b: Command) {
    if a.priority == b.priority then a.taskId < b.taskId else a.priority < b.priority
  }

  /** The retry time of task id, if it has one, has come. */
  predicate Due(q: Queue, id: int, now: Time) {
    id in q.retries ==> q.retries[id].nextRetryAt <= now
  }

  predicate Acceptable(q: Queue, c: Command) { c.taskId != 0 && c.taskId !in q.tasks }

  function Accept(q: Queue, c: Command): Queue {
    if Acceptable(q, c) then q.(tasks := q.tasks[c.taskId := c]) else q
  }

  function AcceptAll(q: Queue, commands: seq<Command>): Queue {
    if commands == [] then q
    else Accept(AcceptAll(q, commands[..|commands| - 1]), commands[|commands| - 1])
  }

  /** The first command of the batch for a task. */
  function FirstFor(commands: seq<Command>, id: int): Option<Command> {
    if commands == [] then None
    else if commands[0].taskId == id then Some(commands[0])
    else FirstFor(commands[1..], id)
  }

  lemma {:induction false} FirstForOneMore(commands: seq<Command>, c: Command, id: int)
    ensures FirstFor(commands + [c], id)
         == if FirstFor(commands, id).Some? then FirstFor(commands, id) else if c.taskId == id then Some(c) else None
  {
    if commands != [] {
      assert (commands + [c])[1..] == commands[1..] + [c];
      FirstForOneMore(commands[1..], c, id);
    }
  }

  /** Pending tasks stay as they are; of a batch exactly the ids other than 0 that are not pending become
      pending, each with its first command, as it is. */
  ghost predicate AddsBatch(before: map<int, Command>, after: map<int, Command>, commands: seq<Command>) {
    forall id ::
      && (id in after <==> id in before || (id != 0 && FirstFor(commands, id).Some?))
      && (id in before ==> after[id] == before[id])
      && (id in after && id !in before ==> FirstFor(commands, id) == Some(after[id]))
  }

  lemma {:induction false} AcceptAllAddsBatch(q: Queue, commands: seq<Command>)
    ensures AddsBatch(q.tasks, AcceptAll(q, commands).tasks, commands)
    ensures AcceptAll(q, commands) == q.(tasks := AcceptAll(q, commands).tasks)
  {
    if commands != [] {
      var init, c := commands[..|commands| - 1], commands[|commands| - 1];
      assert commands == init + [c];
      AcceptAllAddsBatch(q, init);
      forall id
        ensures var after := AcceptAll(q, commands).tasks;
                && (id in after <==> id in q.tasks || (id != 0 && FirstFor(commands, id).Some?))
                && (id in q.tasks ==> after[id] == q.tasks[id])
                && (id in after && id !in q.tasks ==> FirstFor(commands, id) == Some(after[id]))
      {
        FirstForOneMore(init, c, id);
      }
    }
  }

  function AfterFailure(q: Queue, maxRetries: nat, id: int, now: Time): Queue {
    var count := (if id in q.retries then q.retries[id].count else 0) + 1;
    if count >= maxRetries then q.(retries := q.retries - {id}, tasks := q.tasks - {id})
    else q.(retries := q.retries[id := RetryInfo(count, now + count * 5 * MINUTE)])
  }

  function AfterSuccess(q: Queue, c: Command): Queue {
    var left := q.(tasks := q.tasks - {c.taskId}, retries := q.retries - {c.taskId});
    if c.appId > 0 then
      left.(installed := q.installed[c.appId := if c.appVersion == "" then "unknown" else c.appVersion],
            appsChanged := true)
    else left
  }

  /** What a scan of the tasks that starts at `from` and ends at `to` may return: the least task
      by (priority, id) of a set holding every task due at `from` and none not yet due at `to`. */
  ghost predicate MayPick(q: Queue, from: Time, to: Time, pick: Option<Command>) {
    match pick
    case None => forall id | id in q.tasks :: !Due(q, id, from)
    case Some(c) =>
      && c.taskId in q.tasks && q.tasks[c.taskId] == c && Due(q, c.taskId, to)
      && forall id | id in q.tasks && Due(q, id, from) :: id == c.taskId || Precedes(c, q.tasks[id])
  }

  /** Every task is filed under its own id. */
  ghost predicate Keyed(q: Queue) {
    forall id | id in q.tasks :: q.tasks[id].taskId == id
  }

  /** When the clock stands still the choice does not depend on the map's iteration order. */
  lemma PickIsUnique(q: Queue, now: Time, a: Option<Command>, b: Option<Command>)
    requires Keyed(q) && MayPick(q, now, now, a) && MayPick(q, now, now, b)
    ensures a == b
  {
    if a.Some? {
      assert Due(q, a.value.taskId, now);
      if b.Some? { assert Due(q, b.value.taskId, now); }
    }
  }

  /** The installed applications as the heartbeat reports them. */
  ghost predicate IsReportOf(apps: seq<InstalledApp>, installed: map<int, string>) {
    && (forall i, j | 0 <= i < j < |apps| :: apps[i].appId < apps[j].appId)
    && (forall i | 0 <= i < |apps| :: apps[i].appId in installed && apps[i].version == installed[apps[i].appId])
    && (forall id | id in installed :: InstalledApp(id, installed[id]) in apps)
  }

  lemma ReportHead(a: seq<InstalledApp>, b: seq<InstalledApp>, installed: map<int, string>)
    requires IsReportOf(a, installed) && IsReportOf(b, installed) && a != []
    ensures b != [] && a[0].appId >= b[0].appId
  {
    assert a[0].appId in installed;
    assert InstalledApp(a[0].appId, installed[a[0].appId]) in b;
  }

  lemma ReportTail(a: seq<InstalledApp>, installed: map<int, string>)
    requires IsReportOf(a, installed) && a != []
    ensures IsReportOf(a[1..], installed - {a[0].appId})
  {
    var rest := installed - {a[0].appId};
    forall id | id in rest ensures InstalledApp(id, rest[id]) in a[1..] {
      assert InstalledApp(id, installed[id]) in a;
    }
  }

  lemma {:induction false} ReportIsUnique(a: seq<InstalledApp>, b: seq<InstalledApp>, installed: map<int, string>)
    requires IsReportOf(a, installed) && IsReportOf(b, installed)
    ensures a == b
  {
    if a != [] {
      ReportHead(a, b, installed);
      ReportHead(b, a, installed);
      assert a[0] == b[0];
      ReportTail(a, installed);
      ReportTail(b, installed);
      ReportIsUnique(a[1..], b[1..], installed - {a[0].appId});
      assert a == [a[0]] + a[1..] && b == [b[0]] + b[1..];
    } else if b != [] {
      ReportHead(b, a, installed);
    }
  }

  // ---------- The budget of executions ----------

  function AttemptsLeft(q: Queue, maxRetries: nat, id: int): int {
    maxRetries - if id in q.retries then q.retries[id].count else 0
  }

  lemma HasMember(ids: set<int>)
    ensures ids == {} || exists id :: id in ids
  {
    if !exists id :: id in ids { assert ids == {}; }
  }

  /** The sum over the given tasks of maxRetries minus the failures so far. */
  ghost function Budget(q: Queue, maxRetries: nat, ids: set<int>): int {
    if ids == {} then 0
    else
      HasMember(ids);
      var id :| id in ids;
      AttemptsLeft(q, maxRetries, id) + Budget(q, maxRetries, ids - {id})
  }

  lemma {:induction false} BudgetSplit(q: Queue, maxRetries: nat, ids: set<int>, id: int)
    requires id in ids
    ensures Budget(q, maxRetries, ids) == AttemptsLeft(q, maxRetries, id) + Budget(q, maxRetries, ids - {id})
    decreases ids
  {
    var first :| first in ids
        && Budget(q, maxRetries, ids) == AttemptsLeft(q, maxRetries, first) + Budget(q, maxRetries, ids - {first});
    if first != id {
      BudgetSplit(q, maxRetries, ids - {first}, id);
      BudgetSplit(q, maxRetries, ids - {id}, first);
      assert ids - {first} - {id} == ids - {id} - {first};
    }
  }

  lemma {:induction false} BudgetAgree(q: Queue, r: Queue, maxRetries: nat, ids: set<int>)
    requires forall id | id in ids :: AttemptsLeft(q, maxRetries, id) == AttemptsLeft(r, maxRetries, id)
    ensures Budget(q, maxRetries, ids) == Budget(r, maxRetries, ids)
    decreases ids
  {
    if ids != {} {
      HasMember(ids);
      var id :| id in ids;
      BudgetSplit(q, maxRetries, ids, id);
      BudgetSplit(r, maxRetries, ids, id);
      BudgetAgree(q, r, maxRetries, ids - {id});
    }
  }

  lemma OneMore(m: nat, k: nat)
    ensures m * (k + 1) == m * k + m
  {}

  lemma {:induction false} BudgetBounds(q: Queue, maxRetries: nat, ids: set<int>)
    requires forall id | id in ids :: 1 <= AttemptsLeft(q, maxRetries, id) <= maxRetries
    ensures |ids| <= Budget(q, maxRetries, ids) <= maxRetries * |ids|
    decreases ids
  {
    if ids != {} {
      HasMember(ids);
      var id :| id in ids;
      var others := ids - {id};
      BudgetSplit(q, maxRetries, ids, id);
      BudgetBounds(q, maxRetries, others);
      OneMore(maxRetries, |others|);
      assert |ids| == |others| + 1;
    }
  }

  /** Retries belong to pending tasks and have failed at least once but fewer than maxRetries times. */
  ghost predicate Sound(q: Queue, maxRetries: nat) {
    && Keyed(q)
    && (forall id | id in q.retries :: id in q.tasks && 1 <= q.retries[id].count < maxRetries)
  }

  ghost function Total(q: Queue, maxRetries: nat): int { Budget(q, maxRetries, q.tasks.Keys) }

  /** A processed task uses up at least one of the executions left in the budget. */
  lemma FailureSpends(q: Queue, maxRetries: nat, id: int, now: Time)
    requires Sound(q, maxRetries) && maxRetries > 0 && id in q.tasks
    ensures Sound(AfterFailure(q, maxRetries, id, now), maxRetries)
    ensures Total(AfterFailure(q, maxRetries, id, now), maxRetries) == Total(q, maxRetries) - 1
  {
    var r := AfterFailure(q, maxRetries, id, now);
    var others := q.tasks.Keys - {id};
    BudgetSplit(q, maxRetries, q.tasks.Keys, id);
    BudgetAgree(q, r, maxRetries, others);
    if id in r.tasks {
      BudgetSplit(r, maxRetries, r.tasks.Keys, id);
    } else {
      assert r.tasks.Keys == others;
    }
  }

  lemma SuccessSpends(q: Queue, maxRetries: nat, c: Command)
    requires Sound(q, maxRetries) && maxRetries > 0 && c.taskId in q.tasks
    ensures Sound(AfterSuccess(q, c), maxRetries)
    ensures Total(AfterSuccess(q, c), maxRetries) < Total(q, maxRetries)
  {
    var r := AfterSuccess(q, c);
    BudgetSplit(q, maxRetries, q.tasks.Keys, c.taskId);
    assert r.tasks.Keys == q.tasks.Keys - {c.taskId};
    BudgetAgree(q, r, maxRetries, r.tasks.Keys);
  }
}
