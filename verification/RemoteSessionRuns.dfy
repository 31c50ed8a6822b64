/** Any number of remote support requests, end signals and user ends, interleaving step by step. */
module RemoteSessionRuns {
  import opened RemoteSession

  datatype System = System(session: Session, flows: map<nat, Flow>)

  predicate Enabled(s: System, a: Action) {
    a.f in s.flows && s.flows[a.f].pc == a.pc && a.pc != Done
  }

  function Apply(s: System, a: Action): System
    requires Enabled(s, a)
  {
    var flow := s.flows[a.f];
    var answer := if a.pc == Warming then a.answer else flow.answer;
    System(SessionAfter(s.session, a.pc, flow.sid),
           s.flows[a.f := Flow(flow.sid, PcAfter(s.session, a, flow), answer)])
  }

  // ---------- Runs ----------

  /** The state after the first n steps; a step that is not enabled leaves it unchanged. */
  function StateAt(start: System, trace: seq<Action>, n: nat): System
    requires n <= |trace|
  {
    if n == 0 then start
    else
      var before := StateAt(start, trace, n - 1);
      if Enabled(before, trace[n - 1]) then Apply(before, trace[n - 1]) else before
  }

  /** Every goroutine at its first step and nobody in a session. */
  ghost predicate Initial(s: System) {
    s.session == FREE && forall f | f in s.flows :: s.flows[f].pc in {Entering, Matching, Peeking}
  }

  /** The first n steps are a run of the goroutines of `start`. */
  ghost predicate Lawful(start: System, trace: seq<Action>, n: nat) {
    n <= |trace| &&
    if n == 0 then Initial(start)
    else Lawful(start, trace, n - 1) && Enabled(StateAt(start, trace, n - 1), trace[n - 1])
  }

  lemma {:induction false} LawfulPrefix(start: System, trace: seq<Action>, k: nat, n: nat)
    requires Lawful(start, trace, n) && k <= n
    ensures Lawful(start, trace, k)
  {
    if k < n { LawfulPrefix(start, trace, k, n - 1); }
  }

  /** Session ids of requests are not reused and not zero. */
  ghost predicate FreshIds(s: System) {
    && (forall f | f in s.flows && s.flows[f].pc == Entering :: s.flows[f].sid != 0)
    && (forall f, g | f in s.flows && g in s.flows && s.flows[f].pc == Entering && s.flows[g].pc == Entering
          && s.flows[f].sid == s.flows[g].sid :: f == g)
  }

  ghost predicate AdmittedAt(start: System, trace: seq<Action>, i: nat, f: nat) {
    i < |trace| && trace[i].f == f && trace[i].pc == Entering && StateAt(start, trace, i).session.stage == Idle
  }

  /** At step i the request f finds its session still pending. */
  ghost predicate PassedAt(start: System, trace: seq<Action>, i: nat, f: nat) {
    i < |trace| && trace[i].f == f && trace[i].pc == Checking && f in start.flows
    && StillPending(StateAt(start, trace, i).session, start.flows[f].sid)
  }

  /** No reset among the steps i, ..., j - 1. */
  ghost predicate NoReset(trace: seq<Action>, i: nat, j: nat) {
    forall k | i <= k < j && k < |trace| :: trace[k].pc != Resetting
  }

  lemma {:induction false} FlowsStay(start: System, trace: seq<Action>, n: nat)
    requires Lawful(start, trace, n)
    ensures StateAt(start, trace, n).flows.Keys == start.flows.Keys
    ensures forall f | f in start.flows :: StateAt(start, trace, n).flows[f].sid == start.flows[f].sid
  {
    if n > 0 { FlowsStay(start, trace, n - 1); }
  }

  /** In every reachable state an idle manager holds no session. */
  lemma {:induction false} IdleHoldsNoSession(start: System, trace: seq<Action>, n: nat)
    requires Lawful(start, trace, n)
    ensures StateAt(start, trace, n).session.stage == Idle ==> StateAt(start, trace, n).session.id == 0
  {
    if n > 0 { IdleHoldsNoSession(start, trace, n - 1); }
  }

  /** Once admitted, a session keeps its id until the next reset. */
  lemma {:induction false} SessionLasts(start: System, trace: seq<Action>, i: nat, j: nat)
    requires Lawful(start, trace, j) && i <= j && NoReset(trace, i, j)
    requires StateAt(start, trace, i).session.stage != Idle
    ensures StateAt(start, trace, j).session.stage != Idle
    ensures StateAt(start, trace, j).session.id == StateAt(start, trace, i).session.id
    decreases j
  {
    if i < j { SessionLasts(start, trace, i, j - 1); }
  }

  /** A session id other than zero comes from an admission with no reset since. */
  lemma {:induction false} SessionOrigin(start: System, trace: seq<Action>, j: nat) returns (i: nat, f: nat)
    requires Lawful(start, trace, j) && StateAt(start, trace, j).session.id != 0
    ensures i < j && AdmittedAt(start, trace, i, f) && NoReset(trace, i, j)
    ensures f in start.flows && start.flows[f].sid == StateAt(start, trace, j).session.id
  {
    FlowsStay(start, trace, j - 1);
    if trace[j - 1].pc == Entering && StateAt(start, trace, j - 1).session.stage == Idle {
      i, f := j - 1, trace[j - 1].f;
    } else {
      i, f := SessionOrigin(start, trace, j - 1);
    }
  }

  function PcAt(start: System, trace: seq<Action>, n: nat, f: nat): Pc
    requires n <= |trace|
  {
    if f in StateAt(start, trace, n).flows then StateAt(start, trace, n).flows[f].pc else Done
  }

  lemma {:induction false} RankGrows(start: System, trace: seq<Action>, i: nat, j: nat, f: nat)
    requires Lawful(start, trace, j) && i <= j
    ensures Rank(PcAt(start, trace, i, f)) <= Rank(PcAt(start, trace, j, f))
    ensures (exists k | i <= k < j :: trace[k].f == f) ==>
              Rank(PcAt(start, trace, i, f)) < Rank(PcAt(start, trace, j, f))
    decreases j
  {
    if i < j { RankGrows(start, trace, i, j - 1, f); }
  }

  predicate OfRequest(pc: Pc) {
    pc in {Entering, Warming, Checking, Reporting, Approving, Starting, Linking, Readying, Activating}
  }

  /** Only requests, which start at Entering, are ever between Entering and Activating. */
  lemma {:induction false} RequestsStartEntering(start: System, trace: seq<Action>, n: nat, f: nat)
    requires Lawful(start, trace, n) && OfRequest(PcAt(start, trace, n, f))
    ensures f in start.flows && start.flows[f].pc == Entering
  {
    if n > 0 { RequestsStartEntering(start, trace, n - 1, f); }
  }

  /** The step i of a run was taken by a goroutine at the step's own pc. */
  lemma StepTaken(start: System, trace: seq<Action>, i: nat, n: nat)
    requires Lawful(start, trace, n) && i < n
    ensures Lawful(start, trace, i) && PcAt(start, trace, i, trace[i].f) == trace[i].pc
    ensures OfRequest(trace[i].pc) ==> trace[i].f in start.flows && start.flows[trace[i].f].pc == Entering
  {
    LawfulPrefix(start, trace, i + 1, n);
    if OfRequest(trace[i].pc) { RequestsStartEntering(start, trace, i, trace[i].f); }
  }

  /** A goroutine takes the step of a given pc at most once. */
  lemma StepOnce(start: System, trace: seq<Action>, i: nat, j: nat, n: nat)
    requires Lawful(start, trace, n) && i < n && j < n && trace[i].f == trace[j].f
    requires Rank(trace[i].pc) == Rank(trace[j].pc)
    ensures i == j
  {
    StepTaken(start, trace, i, n);
    StepTaken(start, trace, j, n);
    if i < j { RankGrows(start, trace, i, j, trace[i].f); }
    if j < i { RankGrows(start, trace, j, i, trace[i].f); }
  }

  // ---------- One owner between two resets ----------

  /** A request that passes the still-pending check was admitted since the last reset. */
  lemma PassedWasAdmitted(start: System, trace: seq<Action>, n: nat, j: nat, f: nat) returns (i: nat)
    requires Lawful(start, trace, n) && FreshIds(start) && j < n && PassedAt(start, trace, j, f)
    ensures i < j && AdmittedAt(start, trace, i, f) && NoReset(trace, i, j)
  {
    StepTaken(start, trace, j, n);
    var g: nat;
    i, g := SessionOrigin(start, trace, j);
    StepTaken(start, trace, i, n);
  }

  /** Whatever ids are used: two requests that pass the check without a reset between them name the
      same session. */
  lemma PassesWithoutResetShareId(start: System, trace: seq<Action>, n: nat, i: nat, j: nat, f: nat, g: nat)
    requires Lawful(start, trace, n) && i < j < n && NoReset(trace, i, j)
    requires PassedAt(start, trace, i, f) && PassedAt(start, trace, j, g)
    ensures f != g && start.flows[f].sid == start.flows[g].sid
  {
    StepTaken(start, trace, i, n);
    StepTaken(start, trace, j, n);
    SessionLasts(start, trace, i, j);
    if f == g { StepOnce(start, trace, i, j, n); }
  }

  /** Two requests never pass the check without a reset between them. */
  lemma OnePassBetweenResets(start: System, trace: seq<Action>, n: nat, i: nat, j: nat, f: nat, g: nat)
    requires Lawful(start, trace, n) && FreshIds(start) && i < j < n
    requires PassedAt(start, trace, i, f) && PassedAt(start, trace, j, g)
    ensures !NoReset(trace, i, j)
  {
    if NoReset(trace, i, j) {
      PassesWithoutResetShareId(start, trace, n, i, j, f, g);
      StepTaken(start, trace, i, n);
      StepTaken(start, trace, j, n);
    }
  }

  // ---------- Reports ----------

  predicate PastCheck(pc: Pc) { pc in {Reporting, Approving, Starting, Linking, Readying, Activating} }

  lemma {:induction false} PassOrigin(start: System, trace: seq<Action>, n: nat, f: nat) returns (c: nat)
    requires Lawful(start, trace, n) && PastCheck(PcAt(start, trace, n, f))
    ensures c < n && PassedAt(start, trace, c, f)
  {
    FlowsStay(start, trace, n - 1);
    if PastCheck(PcAt(start, trace, n - 1, f)) {
      c := PassOrigin(start, trace, n - 1, f);
    } else {
      c := n - 1;
    }
  }

  /** At step i the request f reports that the user approved, and the report is delivered. */
  ghost predicate ApprovalReportedAt(start: System, trace: seq<Action>, i: nat, f: nat) {
    i < |trace| && trace[i].f == f && trace[i].pc == Reporting && trace[i].ok
    && f in StateAt(start, trace, i).flows && StateAt(start, trace, i).flows[f].answer
  }

  lemma {:induction false} ApprovalOrigin(start: System, trace: seq<Action>, n: nat, f: nat) returns (i: nat)
    requires Lawful(start, trace, n)
    requires PcAt(start, trace, n, f) in {Approving, Starting, Linking, Readying, Activating}
    ensures i < n && ApprovalReportedAt(start, trace, i, f)
  {
    if PcAt(start, trace, n - 1, f) in {Approving, Starting, Linking, Readying, Activating} {
      i := ApprovalOrigin(start, trace, n - 1, f);
    } else {
      i := n - 1;
    }
  }

  /** What a request reports, and obeys, is the answer given at its own warming step. */
  lemma {:induction false} AnswerIsOfWarming(start: System, trace: seq<Action>, n: nat, f: nat) returns (w: nat)
    requires Lawful(start, trace, n)
    requires PcAt(start, trace, n, f) in {Checking, Reporting, Approving, Starting, Linking, Readying, Activating}
    ensures w < n && trace[w].f == f && trace[w].pc == Warming && trace[w].ok
    ensures f in StateAt(start, trace, n).flows && StateAt(start, trace, n).flows[f].answer == trace[w].answer
  {
    if PcAt(start, trace, n - 1, f) == Warming {
      w := n - 1;
    } else {
      w := AnswerIsOfWarming(start, trace, n - 1, f);
    }
  }

  /** A ready report comes after a delivered approved=true report of the same request, and of the
      same session; the user had given that answer at the request's warming step w. */
  lemma ReadyFollowsApproval(start: System, trace: seq<Action>, n: nat, j: nat) returns (w: nat, i: nat)
    requires Lawful(start, trace, n) && j < n && trace[j].pc == Readying
    ensures w < i < j && ApprovalReportedAt(start, trace, i, trace[j].f)
    ensures trace[w].f == trace[j].f && trace[w].pc == Warming && trace[w].ok && trace[w].answer
    ensures trace[j].f in StateAt(start, trace, i).flows && trace[j].f in StateAt(start, trace, j).flows
    ensures StateAt(start, trace, i).flows[trace[j].f].sid == StateAt(start, trace, j).flows[trace[j].f].sid
  {
    StepTaken(start, trace, j, n);
    i := ApprovalOrigin(start, trace, j, trace[j].f);
    StepTaken(start, trace, i, n);
    w := AnswerIsOfWarming(start, trace, i, trace[j].f);
    LawfulPrefix(start, trace, i, j);
    FlowsStay(start, trace, i);
    FlowsStay(start, trace, j);
  }

  // ---------- How a request ends ----------

  /** A goroutine that is done takes no step. */
  lemma DoneRests(start: System, trace: seq<Action>, n: nat, i: nat, j: nat, f: nat)
    requires Lawful(start, trace, n) && i <= j < n && PcAt(start, trace, i, f) == Done
    ensures trace[j].f != f
  {
    LawfulPrefix(start, trace, j + 1, n);
    LawfulPrefix(start, trace, j, n);
    RankGrows(start, trace, i, j, f);
  }

  /** A request that finds somebody else there, at its first step or at its check, takes no later step:
      it leaves the session alone. */
  lemma FailedCheckEnds(start: System, trace: seq<Action>, n: nat, c: nat, j: nat)
    requires Lawful(start, trace, n) && c < j < n && trace[c].f in start.flows
    requires
      var now := StateAt(start, trace, c).session;
      || (trace[c].pc == Entering && now.stage != Idle)
      || (trace[c].pc == Checking && (now.stage != Pending || now.id != start.flows[trace[c].f].sid))
    ensures trace[j].f != trace[c].f
    ensures StateAt(start, trace, c + 1).session == StateAt(start, trace, c).session
  {
    LawfulPrefix(start, trace, c + 1, n);
    FlowsStay(start, trace, c);
    DoneRests(start, trace, n, c + 1, j, trace[c].f);
  }

  /** At step i the request f could not start its helper, get an answer or deliver a report, or it
      reported the refusal given at its own warming step. */
  ghost predicate FailsAt(trace: seq<Action>, i: nat, f: nat) {
    && i < |trace| && trace[i].f == f
    && ((trace[i].pc in {Warming, Reporting, Starting, Readying} && !trace[i].ok)
        || (trace[i].pc == Reporting
            && exists w: nat :: w < i && trace[w].f == f && trace[w].pc == Warming && !trace[w].answer))
  }

  /** At step i the goroutine f of a user's end or an end signal sees a session. */
  ghost predicate SeesSession(start: System, trace: seq<Action>, i: nat, f: nat) {
    i < |trace| && trace[i].f == f && trace[i].pc == Peeking && StateAt(start, trace, i).session.id != 0
  }

  lemma FailureLeadsToReset(start: System, trace: seq<Action>, n: nat, i: nat)
    requires Lawful(start, trace, n) && i < n && FailsAt(trace, i, trace[i].f)
    ensures PcAt(start, trace, i + 1, trace[i].f) == Resetting
  {
    StepTaken(start, trace, i, n);
    LawfulPrefix(start, trace, i + 1, n);
    if trace[i].pc == Reporting {
      var w := AnswerIsOfWarming(start, trace, i, trace[i].f);
      forall v: nat | v < i && trace[v].f == trace[i].f && trace[v].pc == Warming ensures v == w {
        StepOnce(start, trace, v, w, n);
      }
    }
  }

  /** After such a failure the request takes no step but its reset. */
  lemma FailureResets(start: System, trace: seq<Action>, n: nat, i: nat, j: nat)
    requires Lawful(start, trace, n) && i < j < n && trace[j].f == trace[i].f && FailsAt(trace, i, trace[i].f)
    ensures trace[j].pc == Resetting
  {
    FailureLeadsToReset(start, trace, n, i);
    StepTaken(start, trace, j, n);
    LawfulPrefix(start, trace, j, n);
    RankGrows(start, trace, i + 1, j, trace[i].f);
  }

  lemma {:induction false} OnItsWayToReset(start: System, trace: seq<Action>, n: nat, f: nat) returns (i: nat)
    requires Lawful(start, trace, n) && PcAt(start, trace, n, f) in {Ending, Resetting}
    ensures i < n && (FailsAt(trace, i, f) || SeesSession(start, trace, i, f))
  {
    if PcAt(start, trace, n - 1, f) in {Ending, Resetting} {
      i := OnItsWayToReset(start, trace, n - 1, f);
    } else {
      i := n - 1;
      LawfulPrefix(start, trace, i, n);
      if trace[i].pc == Reporting { var w := AnswerIsOfWarming(start, trace, i, f); }
    }
  }

  /** What a step does to the session, in terms of the states around it. */
  lemma StepEffect(start: System, trace: seq<Action>, j: nat, n: nat)
    requires Lawful(start, trace, n) && j < n
    ensures trace[j].f in start.flows
    ensures StateAt(start, trace, j + 1).session
            == SessionAfter(StateAt(start, trace, j).session, trace[j].pc, start.flows[trace[j].f].sid)
  {
    LawfulPrefix(start, trace, j + 1, n);
    FlowsStay(start, trace, j);
  }

  lemma {:induction false} RequestNeverMatches(start: System, trace: seq<Action>, n: nat, f: nat)
    requires Lawful(start, trace, n) && f in start.flows && start.flows[f].pc == Entering
    ensures PcAt(start, trace, n, f) !in {Matching, Peeking, Ending}
  {
    if n > 0 { RequestNeverMatches(start, trace, n - 1, f); }
  }

  /** A request resets only after a failure of its own, a user's end or an end signal only after it
      saw a session. */
  lemma ResetHasReason(start: System, trace: seq<Action>, n: nat, r: nat) returns (i: nat)
    requires Lawful(start, trace, n) && r < n && trace[r].pc == Resetting
    ensures i < r && trace[r].f in start.flows
    ensures if start.flows[trace[r].f].pc == Entering then FailsAt(trace, i, trace[r].f)
            else SeesSession(start, trace, i, trace[r].f)
  {
    var f := trace[r].f;
    StepTaken(start, trace, r, n);
    StepEffect(start, trace, r, n);
    i := OnItsWayToReset(start, trace, r, f);
    StepTaken(start, trace, i, n);
    if trace[i].pc == Peeking && start.flows[f].pc == Entering { RequestNeverMatches(start, trace, i, f); }
  }

  lemma SignalIsNoRequest(start: System, trace: seq<Action>, n: nat, f: nat)
    requires Lawful(start, trace, n) && f in start.flows && start.flows[f].pc != Entering
    ensures !OfRequest(PcAt(start, trace, n, f))
  {
    if OfRequest(PcAt(start, trace, n, f)) { RequestsStartEntering(start, trace, n, f); }
  }

  /** An end signal ends nothing unless it found the session it names. */
  lemma {:induction false} SignalMatched(start: System, trace: seq<Action>, n: nat, f: nat) returns (m: nat)
    requires Lawful(start, trace, n) && f in start.flows && start.flows[f].pc == Matching
    requires PcAt(start, trace, n, f) in {Peeking, Ending, Resetting}
    ensures m < n && trace[m].f == f && trace[m].pc == Matching
    ensures StateAt(start, trace, m).session.id == start.flows[f].sid
  {
    FlowsStay(start, trace, n - 1);
    if PcAt(start, trace, n - 1, f) == Matching {
      m := n - 1;
    } else {
      SignalIsNoRequest(start, trace, n - 1, f);
      m := SignalMatched(start, trace, n - 1, f);
    }
  }

  /** A request reset between its admission and its check never reports anything and never
      touches the session again except by a reset of its own. */
  lemma ResetBeforeCheckSilences(start: System, trace: seq<Action>, n: nat, i: nat, r: nat, k: nat, f: nat)
    requires Lawful(start, trace, n) && FreshIds(start)
    requires i < r < k < n && AdmittedAt(start, trace, i, f) && trace[r].pc == Resetting
    requires forall c | i < c < r :: !(trace[c].f == f && trace[c].pc == Checking)
    requires trace[k].f == f
    ensures !PastCheck(trace[k].pc)
  {
    if PastCheck(trace[k].pc) {
      StepTaken(start, trace, k, n);
      var c := PassOrigin(start, trace, k, f);
      var i' := PassedWasAdmitted(start, trace, n, c, f);
      StepOnce(start, trace, i, i', n);
    }
  }

  // ---------- A request that nobody else resets after its check ----------

  ghost predicate OnlyOwnResets(trace: seq<Action>, c: nat, j: nat, f: nat) {
    forall k | c < k < j && k < |trace| && trace[k].pc == Resetting :: trace[k].f == f
  }

  lemma OwnerIsNotReset(start: System, trace: seq<Action>, n: nat, c: nat, j: nat, f: nat)
    requires Lawful(start, trace, n) && c < j < n && trace[c].f == trace[j].f == f && trace[c].pc == Checking
    requires OnlyOwnResets(trace, c, j, f) && Rank(trace[j].pc) <= 9
    ensures NoReset(trace, c, j)
  {
    if k :| c <= k < j && trace[k].pc == Resetting {
      StepTaken(start, trace, k, n);
      StepTaken(start, trace, j, n);
      LawfulPrefix(start, trace, j, n);
      RankGrows(start, trace, k, j, f);
    }
  }

  /** The session is the request's own at every stage it writes, whatever other requests write. */
  lemma OwnerKeepsSession(start: System, trace: seq<Action>, n: nat, c: nat, j: nat, f: nat)
    requires Lawful(start, trace, n) && c < j < n && PassedAt(start, trace, c, f)
    requires OnlyOwnResets(trace, c, j, f) && trace[j].f == f && trace[j].pc in {Approving, Linking, Activating}
    ensures StateAt(start, trace, j + 1).session == Session(StageWritten(trace[j].pc), start.flows[f].sid)
  {
    OwnerIsNotReset(start, trace, n, c, j, f);
    LawfulPrefix(start, trace, j, n);
    SessionLasts(start, trace, c, j);
    StepEffect(start, trace, j, n);
  }

  lemma LastStepOfOwner(start: System, trace: seq<Action>, n: nat, c: nat, j: nat, f: nat)
    requires Lawful(start, trace, n) && c < j < n && PassedAt(start, trace, c, f)
    requires trace[j].f == f && PcAt(start, trace, j + 1, f) == Done
    ensures trace[j].pc in {Activating, Resetting}
  {
    StepTaken(start, trace, j, n);
    StepTaken(start, trace, c, n);
    LawfulPrefix(start, trace, j + 1, n);
    RankGrows(start, trace, c, j, f);
    RequestNeverMatches(start, trace, j, f);
  }

  /** The step that ends such a request leaves the session active under its id, or free. */
  lemma OwnerEndsActiveOrFree(start: System, trace: seq<Action>, n: nat, c: nat, j: nat, f: nat)
    requires Lawful(start, trace, n) && c < j < n && PassedAt(start, trace, c, f)
    requires OnlyOwnResets(trace, c, j, f) && trace[j].f == f && PcAt(start, trace, j + 1, f) == Done
    ensures StateAt(start, trace, j + 1).session in {Session(Active, start.flows[f].sid), FREE}
  {
    LastStepOfOwner(start, trace, n, c, j, f);
    if trace[j].pc == Activating {
      OwnerKeepsSession(start, trace, n, c, j, f);
    } else {
      StepEffect(start, trace, j, n);
    }
  }

  /** The stages goroutine f has written, in order, not counting its reset. */
  function Written(start: System, trace: seq<Action>, n: nat, f: nat): seq<Stage>
    requires n <= |trace|
  {
    if n == 0 then []
    else
      var before, a := Written(start, trace, n - 1, f), trace[n - 1];
      if a.f != f || StageWritten(a.pc) == Idle then before
      else if a.pc == Entering && StateAt(start, trace, n - 1).session.stage != Idle then before
      else before + [StageWritten(a.pc)]
  }

  function StagesBefore(pc: Pc): seq<Stage> {
    match pc
    case Entering => []
    case Starting => [Pending, Approved]
    case Linking => [Pending, Approved]
    case Readying => [Pending, Approved, Connecting]
    case Activating => [Pending, Approved, Connecting]
    case _ => [Pending]
  }

  /** Every request writes pending, approved, connecting and active in this order, each once. */
  lemma {:induction false} StagesInOrder(start: System, trace: seq<Action>, n: nat, f: nat)
    requires Lawful(start, trace, n) && f in start.flows && start.flows[f].pc == Entering
    ensures Written(start, trace, n, f) <= [Pending, Approved, Connecting, Active]
    ensures OfRequest(PcAt(start, trace, n, f)) ==>
              Written(start, trace, n, f) == StagesBefore(PcAt(start, trace, n, f))
  {
    if n > 0 {
      StagesInOrder(start, trace, n - 1, f);
      RequestNeverMatches(start, trace, n - 1, f);
    }
  }

  lemma ResetFrees(start: System, trace: seq<Action>, r: nat, n: nat)
    requires Lawful(start, trace, n) && r < n && trace[r].pc == Resetting
    ensures StateAt(start, trace, r + 1).session == FREE
  {
    StepEffect(start, trace, r, n);
  }

  // ---------- Whose session a reset ends ----------

  /** From its admission on, while nothing is reset, the session is that of the request. */
  lemma AdmittedStays(start: System, trace: seq<Action>, k: nat, g: nat, i: nat, j: nat)
    requires Lawful(start, trace, j) && k < i <= j && AdmittedAt(start, trace, k, g) && NoReset(trace, k, j)
    ensures g in start.flows && StateAt(start, trace, i).session.id == start.flows[g].sid
  {
    LawfulPrefix(start, trace, i, j);
    StepEffect(start, trace, k, i);
    SessionLasts(start, trace, k + 1, i);
  }

  /** A later admission brings an id that is not zero and not the one there before. */
  lemma AdmittedIsNew(start: System, trace: seq<Action>, i: nat, k: nat, g: nat, n: nat)
    requires Lawful(start, trace, n) && FreshIds(start) && i <= k < n && AdmittedAt(start, trace, k, g)
    requires StateAt(start, trace, i).session.id != 0
    ensures g in start.flows && start.flows[g].sid !in {0, StateAt(start, trace, i).session.id}
  {
    LawfulPrefix(start, trace, i, n);
    var k', g' := SessionOrigin(start, trace, i);
    StepTaken(start, trace, k, n);
    StepTaken(start, trace, k', n);
    if g == g' { StepOnce(start, trace, k, k', n); }
  }

  /** A session that was there at step i has given way to another one at step j exactly when somebody
      was admitted in between with no reset since. */
  lemma SessionReplacedIff(start: System, trace: seq<Action>, i: nat, j: nat)
    requires Lawful(start, trace, j) && FreshIds(start) && i <= j && StateAt(start, trace, i).session.id != 0
    ensures StateAt(start, trace, j).session.id !in {0, StateAt(start, trace, i).session.id}
       <==> exists k, g :: i <= k < j && AdmittedAt(start, trace, k, g) && NoReset(trace, k, j)
  {
    var seen, now := StateAt(start, trace, i).session.id, StateAt(start, trace, j).session.id;
    if now !in {0, seen} {
      var k, g := SessionOrigin(start, trace, j);
      if k < i { AdmittedStays(start, trace, k, g, i, j); }
    }
    if k, g :| i <= k < j && AdmittedAt(start, trace, k, g) && NoReset(trace, k, j) {
      AdmittedStays(start, trace, k, g, j, j);
      AdmittedIsNew(start, trace, i, k, g, j);
    }
  }

  /** A reset frees whatever session is there: one other than the session its goroutine saw at step i
      exactly when somebody was admitted after that with no other reset since. */
  lemma ResetEndsOtherIff(start: System, trace: seq<Action>, n: nat, i: nat, j: nat)
    requires Lawful(start, trace, n) && FreshIds(start) && i <= j < n && trace[j].pc == Resetting
    requires StateAt(start, trace, i).session.id != 0
    ensures StateAt(start, trace, j + 1).session == FREE
    ensures StateAt(start, trace, j).session.id !in {0, StateAt(start, trace, i).session.id}
       <==> exists k, g :: i <= k < j && AdmittedAt(start, trace, k, g) && NoReset(trace, k, j)
  {
    LawfulPrefix(start, trace, j, n);
    ResetFrees(start, trace, j, n);
    SessionReplacedIff(start, trace, i, j);
  }

  // ---------- A session nobody can end ----------

  /** A stage other than idle with no session id, while no goroutine is on its way to a reset. */
  ghost predicate Stuck(s: System) {
    s.session.stage != Idle && s.session.id == 0
    && forall f | f in s.flows :: s.flows[f].pc in {Entering, Matching, Peeking, Done}
  }

  /** From such a state no request, end signal or user's end ever changes the session again. */
  lemma {:induction false} StuckForever(start: System, trace: seq<Action>, i: nat, n: nat)
    requires Lawful(start, trace, n) && i <= n && Stuck(StateAt(start, trace, i))
    ensures Stuck(StateAt(start, trace, n)) && StateAt(start, trace, n).session == StateAt(start, trace, i).session
    decreases n
  {
    if i < n { StuckForever(start, trace, i, n - 1); }
  }

  /** No request is admitted in the steps i, ..., j - 1. */
  ghost predicate NoAdmission(start: System, trace: seq<Action>, i: nat, j: nat) {
    forall k, f | i <= k < j :: !AdmittedAt(start, trace, k, f)
  }

  /** The last reset is at step r, a request wrote its stage at step k after it, and nobody was
      admitted in between or since. */
  ghost predicate WrittenAfterReset(start: System, trace: seq<Action>, n: nat, r: nat, k: nat) {
    && r < k < n <= |trace| && trace[r].pc == Resetting && WritesStage(trace[k].pc)
    && NoReset(trace, r + 1, n) && NoAdmission(start, trace, r + 1, n)
  }

  lemma {:induction false} LastReset(trace: seq<Action>, c: nat, j: nat) returns (r: nat)
    requires j <= |trace| && !NoReset(trace, c, j)
    ensures c <= r < j && trace[r].pc == Resetting && NoReset(trace, r + 1, j)
    decreases j
  {
    r := j - 1;
    if trace[r].pc != Resetting { r := LastReset(trace, c, r); }
  }

  /** Without a session, none appears until somebody is admitted. */
  lemma {:induction false} NoSessionLasts(start: System, trace: seq<Action>, i: nat, j: nat)
    requires Lawful(start, trace, j) && i <= j && StateAt(start, trace, i).session.id == 0
    requires NoAdmission(start, trace, i, j)
    ensures StateAt(start, trace, j).session.id == 0
    decreases j
  {
    if i < j {
      NoSessionLasts(start, trace, i, j - 1);
      assert !AdmittedAt(start, trace, j - 1, trace[j - 1].f);
    }
  }

  lemma AdmissionLasts(start: System, trace: seq<Action>, k: nat, f: nat, j: nat)
    requires Lawful(start, trace, j) && k < j && AdmittedAt(start, trace, k, f) && NoReset(trace, k, j)
    ensures StateAt(start, trace, j).session.stage != Idle
  {
    StepEffect(start, trace, k, j);
    SessionLasts(start, trace, k + 1, j);
  }

  /** Nobody was admitted since the last reset when the manager is idle. */
  lemma IdleHadNoAdmission(start: System, trace: seq<Action>, r: nat, j: nat)
    requires Lawful(start, trace, j) && NoReset(trace, r, j) && StateAt(start, trace, j).session.stage == Idle
    ensures NoAdmission(start, trace, r, j)
  {
    forall k, f | r <= k < j ensures !AdmittedAt(start, trace, k, f) {
      if AdmittedAt(start, trace, k, f) { AdmissionLasts(start, trace, k, f, j); }
    }
  }

  lemma IdleSincePassWasReset(start: System, trace: seq<Action>, c: nat, k: nat, f: nat)
    requires Lawful(start, trace, k) && c < k && PassedAt(start, trace, c, f)
    requires StateAt(start, trace, k).session.stage == Idle
    ensures !NoReset(trace, c, k)
  {
    if NoReset(trace, c, k) { SessionLasts(start, trace, c, k); }
  }

  lemma PassBeforeStage(start: System, trace: seq<Action>, k: nat, n: nat) returns (c: nat)
    requires Lawful(start, trace, n) && k < n && WritesStage(trace[k].pc)
    ensures Lawful(start, trace, k) && c < k && PassedAt(start, trace, c, trace[k].f)
  {
    StepTaken(start, trace, k, n);
    c := PassOrigin(start, trace, k, trace[k].f);
  }

  /** A request's stage lands on an idle manager only after a reset since its still-pending check. */
  lemma StageOnIdle(start: System, trace: seq<Action>, k: nat, n: nat) returns (r: nat)
    requires Lawful(start, trace, n) && k < n && WritesStage(trace[k].pc)
    requires StateAt(start, trace, k).session.stage == Idle
    ensures WrittenAfterReset(start, trace, k + 1, r, k)
  {
    var c := PassBeforeStage(start, trace, k, n);
    IdleSincePassWasReset(start, trace, c, k, trace[k].f);
    r := LastReset(trace, c, k);
    IdleHadNoAdmission(start, trace, r + 1, k);
  }

  lemma {:induction false} NoSessionHasCause(start: System, trace: seq<Action>, n: nat) returns (r: nat, k: nat)
    requires Lawful(start, trace, n) && FreshIds(start)
    requires StateAt(start, trace, n).session.stage != Idle && StateAt(start, trace, n).session.id == 0
    ensures WrittenAfterReset(start, trace, n, r, k)
  {
    var last := n - 1;
    StepTaken(start, trace, last, n);
    StepEffect(start, trace, last, n);
    if StateAt(start, trace, last).session.stage != Idle {
      r, k := NoSessionHasCause(start, trace, last);
    } else {
      k := last;
      r := StageOnIdle(start, trace, k, n);
    }
  }

  lemma CauseLeavesNoSession(start: System, trace: seq<Action>, n: nat, r: nat, k: nat)
    requires Lawful(start, trace, n) && WrittenAfterReset(start, trace, n, r, k)
    ensures StateAt(start, trace, n).session.stage != Idle && StateAt(start, trace, n).session.id == 0
  {
    ResetFrees(start, trace, r, n);
    NoSessionLasts(start, trace, r + 1, n);
    StepEffect(start, trace, k, n);
    SessionLasts(start, trace, k + 1, n);
  }

  /** A stage other than idle goes without a session id exactly while the last stage was written
      after the last reset with nobody admitted since that reset. */
  lemma NoSessionIff(start: System, trace: seq<Action>, n: nat)
    requires Lawful(start, trace, n) && FreshIds(start)
    ensures StateAt(start, trace, n).session.stage != Idle && StateAt(start, trace, n).session.id == 0
       <==> exists r, k :: WrittenAfterReset(start, trace, n, r, k)
  {
    if StateAt(start, trace, n).session.stage != Idle && StateAt(start, trace, n).session.id == 0 {
      var r, k := NoSessionHasCause(start, trace, n);
    }
    if r, k :| WrittenAfterReset(start, trace, n, r, k) { CauseLeavesNoSession(start, trace, n, r, k); }
  }

  /** The request that wrote that stage had passed its still-pending check before that reset. */
  lemma NoSessionOrigin(start: System, trace: seq<Action>, n: nat) returns (c: nat, r: nat, k: nat)
    requires Lawful(start, trace, n) && FreshIds(start)
    requires StateAt(start, trace, n).session.stage != Idle && StateAt(start, trace, n).session.id == 0
    ensures WrittenAfterReset(start, trace, n, r, k) && c < r && PassedAt(start, trace, c, trace[k].f)
  {
    r, k := NoSessionHasCause(start, trace, n);
    c := PassBeforeStage(start, trace, k, n);
    StepTaken(start, trace, c, n);
    if r < c {
      ResetFrees(start, trace, r, n);
      NoSessionLasts(start, trace, r + 1, c);
    }
  }

  function Step(f: nat, pc: Pc): Action { Act(f, pc, true, true) }

  /** A request for session 7, a second request for session `other`, and a user's end. */
  datatype Trio = Trio(s: Session, first: Pc, firstAnswer: bool,
                       other: int, second: Pc, secondAnswer: bool, ender: Pc) {
    function Value(): System {
      System(s, map[0 := Flow(7, first, firstAnswer), 1 := Flow(other, second, secondAnswer),
                    2 := Flow(0, ender, false)])
    }

    function First(a: Action): Trio {
      this.(s := SessionAfter(s, first, 7), first := PcAfter(s, a, Flow(7, first, firstAnswer)),
            firstAnswer := if first == Warming then a.answer else firstAnswer)
    }

    function Second(a: Action): Trio {
      this.(s := SessionAfter(s, second, other), second := PcAfter(s, a, Flow(other, second, secondAnswer)),
            secondAnswer := if second == Warming then a.answer else secondAnswer)
    }

    function Ender(a: Action): Trio {
      this.(s := SessionAfter(s, ender, 0), ender := PcAfter(s, a, Flow(0, ender, false)))
    }
  }

  lemma Advance(start: System, trace: seq<Action>, n: nat)
    requires Lawful(start, trace, n) && n < |trace| && Enabled(StateAt(start, trace, n), trace[n])
    ensures Lawful(start, trace, n + 1)
    ensures StateAt(start, trace, n + 1) == Apply(StateAt(start, trace, n), trace[n])
  {}

  /** Goroutine a.f of the trio is at a.pc and its step leads to t'. */
  predicate Leads(t: Trio, a: Action, t': Trio) {
    && a.pc != Done && t.ender != Warming
    && ((a.f == 0 && a.pc == t.first && t' == t.First(a))
        || (a.f == 1 && a.pc == t.second && t' == t.Second(a))
        || (a.f == 2 && a.pc == t.ender && t' == t.Ender(a)))
  }

  lemma LeadsApplies(t: Trio, a: Action, t': Trio)
    requires Leads(t, a, t')
    ensures Enabled(t.Value(), a) && Apply(t.Value(), a) == t'.Value()
  {
    assert Apply(t.Value(), a).flows == t'.Value().flows;
  }

  ghost predicate Connected(states: seq<Trio>, trace: seq<Action>) {
    && |states| == |trace| + 1 && Initial(states[0].Value())
    && forall i | 0 <= i < |trace| :: Leads(states[i], trace[i], states[i + 1])
  }

  /** A run given by the states it goes through. */
  lemma {:induction false} Chain(states: seq<Trio>, trace: seq<Action>, n: nat)
    requires Connected(states, trace) && n <= |trace|
    ensures Lawful(states[0].Value(), trace, n) && StateAt(states[0].Value(), trace, n) == states[n].Value()
  {
    if n > 0 {
      Chain(states, trace, n - 1);
      LeadsApplies(states[n - 1], trace[n - 1], states[n]);
      Advance(states[0].Value(), trace, n - 1);
    }
  }

  const HELD := Session(Pending, 7)

  /** A user's end falls between the check of request 0 and its approval report. */
  const UNDONE: seq<Action> :=
    [Step(0, Entering), Step(0, Warming), Step(0, Checking), Step(2, Peeking), Step(2, Ending), Step(2, Resetting),
     Step(0, Reporting), Step(0, Approving), Step(0, Starting), Step(0, Linking), Step(0, Readying),
     Step(0, Activating)]

  const UNDONE_STATES: seq<Trio> :=
    [Trio(FREE, Entering, false, 8, Entering, false, Peeking), Trio(HELD, Warming, false, 8, Entering, false, Peeking),
     Trio(HELD, Checking, true, 8, Entering, false, Peeking), Trio(HELD, Reporting, true, 8, Entering, false, Peeking),
     Trio(HELD, Reporting, true, 8, Entering, false, Ending),
     Trio(HELD, Reporting, true, 8, Entering, false, Resetting),
     Trio(FREE, Reporting, true, 8, Entering, false, Done), Trio(FREE, Approving, true, 8, Entering, false, Done),
     Trio(Session(Approved, 0), Starting, true, 8, Entering, false, Done),
     Trio(Session(Approved, 0), Linking, true, 8, Entering, false, Done),
     Trio(Session(Connecting, 0), Readying, true, 8, Entering, false, Done),
     Trio(Session(Connecting, 0), Activating, true, 8, Entering, false, Done),
     Trio(Session(Active, 0), Done, true, 8, Entering, false, Done)]

  lemma UndoneConnected()
    ensures Connected(UNDONE_STATES, UNDONE)
  {
    forall i | 0 <= i < |UNDONE| ensures Leads(UNDONE_STATES[i], UNDONE[i], UNDONE_STATES[i + 1]) {
      if i < 6 { assert UNDONE[i].f != 1; } else { assert UNDONE[i].f == 0; }
    }
  }

  lemma UndoneEnds()
    ensures FreshIds(UNDONE_STATES[0].Value())
    ensures Stuck(UNDONE_STATES[12].Value()) && UNDONE_STATES[12].s == Session(Active, 0)
  {}

  /** The cause does occur: the manager is left active without a session, for good. */
  lemma StuckIsReachable() returns (start: System, trace: seq<Action>)
    ensures Lawful(start, trace, |trace|) && FreshIds(start)
    ensures Stuck(StateAt(start, trace, |trace|)) && StateAt(start, trace, |trace|).session == Session(Active, 0)
  {
    start, trace := UNDONE_STATES[0].Value(), UNDONE;
    UndoneConnected();
    UndoneEnds();
    Chain(UNDONE_STATES, UNDONE, 12);
  }

  /** Both requests for session 7 are admitted, the second after the first was ended by the user. */
  const REUSED: seq<Action> :=
    [Step(0, Entering), Step(0, Warming), Step(2, Peeking), Step(2, Ending), Step(2, Resetting),
     Step(1, Entering), Step(1, Warming), Step(0, Checking), Step(1, Checking)]

  const REUSED_STATES: seq<Trio> :=
    [Trio(FREE, Entering, false, 7, Entering, false, Peeking), Trio(HELD, Warming, false, 7, Entering, false, Peeking),
     Trio(HELD, Checking, true, 7, Entering, false, Peeking), Trio(HELD, Checking, true, 7, Entering, false, Ending),
     Trio(HELD, Checking, true, 7, Entering, false, Resetting), Trio(FREE, Checking, true, 7, Entering, false, Done),
     Trio(HELD, Checking, true, 7, Warming, false, Done), Trio(HELD, Checking, true, 7, Checking, true, Done),
     Trio(HELD, Reporting, true, 7, Checking, true, Done), Trio(HELD, Reporting, true, 7, Reporting, true, Done)]

  lemma ReusedConnected()
    ensures Connected(REUSED_STATES, REUSED)
  {}

  /** Fresh ids are needed: when an id is reused, two requests can pass between two resets. */
  lemma ReusedIdsBothPass() returns (start: System, trace: seq<Action>, i: nat)
    ensures Lawful(start, trace, |trace|) && i + 1 < |trace| && NoReset(trace, i, i + 1)
    ensures PassedAt(start, trace, i, 0) && PassedAt(start, trace, i + 1, 1)
  {
    start, trace, i := REUSED_STATES[0].Value(), REUSED, 7;
    ReusedConnected();
    Chain(REUSED_STATES, REUSED, i);
    Chain(REUSED_STATES, REUSED, i + 1);
    Chain(REUSED_STATES, REUSED, i + 2);
  }

  const FAILED_WARMING := Act(0, Warming, false, false)

  /** A user's end sees session 7; request 7 then fails by itself, session 8 is admitted, and the end
      goes on. */
  const CROSSED: seq<Action> :=
    [Step(0, Entering), Step(2, Peeking), FAILED_WARMING, Step(0, Resetting), Step(1, Entering), Step(2, Ending),
     Step(2, Resetting)]

  const CROSSED_STATES: seq<Trio> :=
    [Trio(FREE, Entering, false, 8, Entering, false, Peeking), Trio(HELD, Warming, false, 8, Entering, false, Peeking),
     Trio(HELD, Warming, false, 8, Entering, false, Ending), Trio(HELD, Resetting, false, 8, Entering, false, Ending),
     Trio(FREE, Done, false, 8, Entering, false, Ending),
     Trio(Session(Pending, 8), Done, false, 8, Warming, false, Ending),
     Trio(Session(Pending, 8), Done, false, 8, Warming, false, Resetting),
     Trio(FREE, Done, false, 8, Warming, false, Done)]

  lemma CrossedConnected()
    ensures Connected(CROSSED_STATES, CROSSED)
  {}

  /** It does happen: the end of session 7 frees session 8. */
  lemma EndFreesOtherSession() returns (start: System, trace: seq<Action>)
    ensures Lawful(start, trace, 7) && FreshIds(start)
    ensures trace[1].f == trace[6].f && trace[1].pc == Peeking && trace[6].pc == Resetting
    ensures StateAt(start, trace, 1).session.id == 7 && StateAt(start, trace, 6).session == Session(Pending, 8)
    ensures StateAt(start, trace, 7).session == FREE
  {
    start, trace := CROSSED_STATES[0].Value(), CROSSED;
    CrossedConnected();
    Chain(CROSSED_STATES, CROSSED, 1);
    Chain(CROSSED_STATES, CROSSED, 6);
    Chain(CROSSED_STATES, CROSSED, 7);
  }
}
