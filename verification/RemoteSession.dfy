/** The remote support session of internal/remotesupport/session.go: any number of requests,
    end signals and user ends, each a goroutine that interleaves with the others between the
    sections it runs under the manager's mutex. */
module RemoteSession {
  datatype Stage = Idle | Pending | Approved | Connecting | Active

  /** The two fields the mutex guards. */
  datatype Session = Session(stage: Stage, id: int)

  const FREE := Session(Idle, 0)

  /** Where a goroutine is.  A request goes from Entering to Activating, leaving early through
      Resetting or Done; an end signal starts at Matching and a user's end at Peeking. */
  datatype Pc =
    | Entering | Warming | Checking | Reporting | Approving | Starting | Linking | Readying | Activating
    | Matching | Peeking | Ending
    | Resetting | Done

  /** `sid` is the session a request or an end signal names; `answer` is the user's decision. */
  datatype Flow = Flow(sid: int, pc: Pc, answer: bool)

  /** One step of goroutine f, taken at `pc`.  `ok` is whether the work of the step succeeded
      (helper started and listening, dialog shown, report delivered); `answer` is the user's
      decision, read where the dialog returns. */
  datatype Action = Act(f: nat, pc: Pc, ok: bool, answer: bool)

  // ---------- The sections under the mutex ----------

  function TryAdmit(s: Session, sid: int): Session {
    if s.stage == Idle then Session(Pending, sid) else s
  }

  predicate StillPending(s: Session, sid: int) { s.stage == Pending && s.id == sid }

  // ---------- Steps ----------

  /** The session after a step taken at pc. */
  function SessionAfter(s: Session, pc: Pc, sid: int): Session {
    match pc
    case Entering => TryAdmit(s, sid)
    case Approving => s.(stage := Approved)
    case Linking => s.(stage := Connecting)
    case Activating => s.(stage := Active)
    case Resetting => FREE
    case _ => s
  }

  function StageWritten(pc: Pc): Stage {
    match pc
    case Entering => Pending
    case Approving => Approved
    case Linking => Connecting
    case Activating => Active
    case _ => Idle
  }

  predicate WritesStage(pc: Pc) { pc in {Approving, Linking, Activating} }

  /** Where the goroutine that takes the step goes next. */
  function PcAfter(s: Session, a: Action, flow: Flow): Pc {
    match a.pc
    case Entering => if s.stage == Idle then Warming else Done
    case Warming => if a.ok then Checking else Resetting
    case Checking => if StillPending(s, flow.sid) then Reporting else Done
    case Reporting => if a.ok && flow.answer then Approving else Resetting
    case Approving => Starting
    case Starting => if a.ok then Linking else Resetting
    case Linking => Readying
    case Readying => if a.ok then Activating else Resetting
    case Activating => Done
    case Matching => if s.id == flow.sid then Peeking else Done
    case Peeking => if s.id == 0 then Done else Ending
    case Ending => Resetting
    case Resetting => Done
    case Done => Done
  }

  // ---------- One goroutine alone ----------

  /** How far a goroutine has come; every step it takes brings it further. */
  function Rank(pc: Pc): nat {
    match pc
    case Entering => 0 case Warming => 1 case Checking => 2 case Reporting => 3 case Approving => 4
    case Starting => 5 case Linking => 6 case Readying => 7 case Activating => 8
    case Matching => 0 case Peeking => 1 case Ending => 2
    case Resetting => 9 case Done => 10
  }

  /** How the steps of a lone request go. */
  datatype Outcomes = Outcomes(warm: bool, answer: bool, approvalDelivered: bool, helperOk: bool, readyDelivered: bool)

  /** The stages of a request from its approval on. */
  function ConnectingStages(o: Outcomes): seq<Stage> {
    if !o.helperOk then [Approved]
    else if !o.readyDelivered then [Approved, Connecting]
    else [Approved, Connecting, Active]
  }

  predicate Succeeds(o: Outcomes, pc: Pc) {
    match pc
    case Warming => o.warm
    case Reporting => o.approvalDelivered
    case Starting => o.helperOk
    case Readying => o.readyDelivered
    case _ => true
  }

  /** The session after a goroutine at pc has taken all its steps with nobody else in between. */
  function Alone(s: Session, pc: Pc, sid: int, o: Outcomes): Session
    decreases 10 - Rank(pc)
  {
    if pc == Done then s
    else
      var next := PcAfter(s, Act(0, pc, Succeeds(o, pc), o.answer), Flow(sid, pc, o.answer));
      Alone(SessionAfter(s, pc, sid), next, sid, o)
  }

  lemma AloneEnds(s: Session, sid: int, o: Outcomes)
    ensures Alone(s, Entering, sid, o)
         == if s.stage != Idle then s
            else if !(o.warm && o.answer && o.approvalDelivered && o.helperOk && o.readyDelivered) then FREE
            else Session(Active, sid)
  {
    if s.stage == Idle && o.warm && o.answer && o.approvalDelivered {
      var approved := Session(Approved, sid);
      assert Alone(approved, Starting, sid, o) == if o.helperOk && o.readyDelivered then Session(Active, sid) else FREE;
      assert Alone(Session(Pending, sid), Checking, sid, o) == Alone(approved, Starting, sid, o);
    }
  }

  // ---------- The manager itself ----------

  class SessionManager {
    var state: Stage
    var session: int

    ghost function Value(): Session
      reads this
    {
      Session(state, session)
    }

    constructor ()
      ensures Value() == FREE
    {
      state, session := Idle, 0;
    }

    /** The first section of a request: its step Entering. */
    method Enter(sid: int) returns (admitted: bool)
      modifies this
      ensures Value() == SessionAfter(old(Value()), Entering, sid)
      ensures admitted == (old(state) == Idle)
    {
      if state != Idle { return false; }
      state, session := Pending, sid;
      return true;
    }

    /** The sections that write a stage: the steps Approving, Linking and Activating. */
    method SetStage(pc: Pc)
      requires WritesStage(pc)
      modifies this`state
      ensures Value() == SessionAfter(old(Value()), pc, old(session))
    {
      state := StageWritten(pc);
    }

    /** The step Resetting of any goroutine. */
    method Reset()
      modifies this
      ensures Value() == SessionAfter(old(Value()), Resetting, old(session))
    {
      state, session := Idle, 0;
    }

    /** A request that no other goroutine disturbs: it leaves what its steps leave when they run one
        after the other.  `written` lists the stages it sets, `approvals` and `readies` the reports
        it makes. */
    method HandleRequest(sid: int, o: Outcomes) returns (written: seq<Stage>, approvals: seq<bool>, readies: nat)
      modifies this
      ensures Value() == Alone(old(Value()), Entering, sid, o)
      ensures old(state) != Idle ==> Value() == old(Value()) && written == [] && approvals == [] && readies == 0
      ensures old(state) == Idle ==>
        var approved := o.warm && o.answer && o.approvalDelivered;
        && Value() == (if approved && o.helperOk && o.readyDelivered then Session(Active, sid) else FREE)
        && approvals == (if o.warm then [o.answer] else [])
        && readies == (if approved && o.helperOk then 1 else 0)
        && written == [Pending] + if approved then ConnectingStages(o) else []
    {
      written, approvals, readies := [], [], 0;
      AloneEnds(Value(), sid, o);
      var admitted := Enter(sid);
      if !admitted { return; }
      written := [Pending];
      if !o.warm {
        Reset();
        return;
      }
      if !(state == Pending && session == sid) { return; }
      approvals := [o.answer];
      if !o.approvalDelivered || !o.answer {
        Reset();
        return;
      }
      var more: seq<Stage>;
      more, readies := Connect(o);
      written := written + more;
    }

    /** The request from the delivered approval on. */
    method Connect(o: Outcomes) returns (written: seq<Stage>, readies: nat)
      modifies this
      ensures Value() == if o.helperOk && o.readyDelivered then Session(Active, old(session)) else FREE
      ensures readies == (if o.helperOk then 1 else 0) && written == ConnectingStages(o)
    {
      SetStage(Approving);
      written, readies := [Approved], 0;
      if !o.helperOk {
        Reset();
        return;
      }
      SetStage(Linking);
      written, readies := written + [Connecting], 1;
      if !o.readyDelivered {
        Reset();
        return;
      }
      SetStage(Activating);
      written := written + [Active];
    }

    /** An end signal nobody disturbs; `ended` tells whether an end was reported. */
    method HandleEndSignal(sid: int, o: Outcomes) returns (ended: bool)
      modifies this
      ensures Value() == Alone(old(Value()), Matching, sid, o)
      ensures ended == (old(session) == sid && sid != 0)
      ensures Value() == if ended then FREE else old(Value())
    {
      if session != sid { return false; }
      ended := EndSession(sid, o);
    }

    /** A user's end, of whatever session is there. */
    method EndSession(sid: int, o: Outcomes) returns (ended: bool)
      modifies this
      ensures Value() == Alone(old(Value()), Peeking, sid, o)
      ensures ended == (old(session) != 0)
      ensures Value() == if ended then FREE else old(Value())
    {
      if session == 0 { return false; }
      Reset();
      ended := true;
    }
  }
}
