/** The configuration of the runtime updater and the wake channel between UpdateConfig and the
    update loop (internal/runtimeupdate/manager.go). */
module ConfigWake {
  datatype Config = Config(baseUrl: string, intervalMin: int, jitterSec: int)

  const DEFAULT := Config("", 60, 300)

  function Normalized(c: Config): Config {
    c.(intervalMin := if c.intervalMin <= 0 then 60 else c.intervalMin,
       jitterSec := if c.jitterSec < 0 then 0 else c.jitterSec)
  }

  /** What the loop is doing: about to read the config, syncing with the one it took, or waiting
      for so many seconds.  A config is taken by its place in the order of stores. */
  datatype Loop = AtTop | Working(taken: nat) | Waiting(taken: nat, seconds: int) | Stopped

  /** `configs` are all the configs stored so far, the current one last; `posting` counts the
      UpdateConfig calls between their store and their post. */
  datatype State = State(configs: seq<Config>, posting: nat, wake: bool, loop: Loop)

  /** `Block` ends a sync, with the jitter drawn for the wait after it. */
  datatype Action = Store(c: Config) | Post | Take | Block(jitter: int) | Wake | Timeout | Stop

  predicate Enabled(s: State, a: Action) {
    match a
    case Store(_) => true
    case Post => s.posting > 0
    case Take => s.loop.AtTop? && s.configs != []
    case Block(jitter) =>
      s.loop.Working? && s.loop.taken < |s.configs| && 0 <= jitter <= s.configs[s.loop.taken].jitterSec
    case Wake => s.loop.Waiting? && s.wake
    case Timeout => s.loop.Waiting?
    case Stop => s.loop.AtTop? || s.loop.Waiting?
  }

  function Apply(s: State, a: Action): State
    requires Enabled(s, a)
  {
    match a
    case Store(c) => s.(configs := s.configs + [Normalized(c)], posting := s.posting + 1)
    case Post => s.(posting := s.posting - 1, wake := true)
    case Take =>
      var last := |s.configs| - 1;
      s.(loop := if s.configs[last].baseUrl == "" then Waiting(last, 60) else Working(last))
    case Block(jitter) => s.(loop := Waiting(s.loop.taken, s.configs[s.loop.taken].intervalMin * 60 + jitter))
    case Wake => s.(wake := false, loop := AtTop)
    case Timeout => s.(loop := AtTop)
    case Stop => s.(loop := Stopped)
  }

  const START := State([DEFAULT], 0, false, AtTop)

  predicate IsNormal(c: Config) { c.intervalMin > 0 && c.jitterSec >= 0 }

  class Manager {
    var cfg: Config
    var wakeCh: bool
    ghost var state: State

    ghost predicate Valid()
      reads this
    {
      state.configs != [] && state.configs[|state.configs| - 1] == cfg && state.wake == wakeCh
    }

    constructor ()
      ensures Valid() && state == START
    {
      cfg, wakeCh, state := DEFAULT, false, START;
    }

    /** The part of UpdateConfig under the lock. */
    method StoreConfig(c: Config)
      requires Valid()
      modifies this
      ensures Valid() && state == Apply(old(state), Store(c))
    {
      var interval := c.intervalMin;
      if interval <= 0 { interval := 60; }
      var jitter := c.jitterSec;
      if jitter < 0 { jitter := 0; }
      cfg := Config(c.baseUrl, interval, jitter);
      state := Apply(state, Store(c));
    }

    /** The rest of it: posting to a full channel does nothing. */
    method PostWake()
      requires Valid() && state.posting > 0
      modifies this
      ensures Valid() && state == Apply(old(state), Post)
    {
      wakeCh := true;
      state := Apply(state, Post);
    }

    method UpdateConfig(c: Config)
      requires Valid()
      modifies this
      ensures Valid() && cfg == Normalized(c) && wakeCh
      ensures cfg.baseUrl == c.baseUrl && IsNormal(cfg) && (IsNormal(c) ==> cfg == c)
      ensures state == Apply(Apply(old(state), Store(c)), Post)
    {
      StoreConfig(c);
      PostWake();
    }

    method SnapshotConfig() returns (c: Config)
      requires Valid() && state.loop == AtTop
      modifies this`state
      ensures Valid() && state == Apply(old(state), Take) && c == state.configs[|state.configs| - 1]
      ensures var last := |state.configs| - 1;
              state.loop == if c.baseUrl != "" then Working(last) else Waiting(last, 60)
    {
      c := cfg;
      state := Apply(state, Take);
    }

    method ReceiveWake()
      requires Valid() && state.loop.Waiting? && wakeCh
      modifies this
      ensures Valid() && state == Apply(old(state), Wake)
      ensures !wakeCh && cfg == old(cfg) && state.loop == AtTop
    {
      wakeCh := false;
      state := Apply(state, Wake);
    }
  }

  // ---------- Runs ----------

  function StateAt(trace: seq<Action>, n: nat): State
    requires n <= |trace|
  {
    if n == 0 then START
    else
      var before := StateAt(trace, n - 1);
      if Enabled(before, trace[n - 1]) then Apply(before, trace[n - 1]) else before
  }

  ghost predicate Lawful(trace: seq<Action>, n: nat) {
    n <= |trace| && (n > 0 ==> Lawful(trace, n - 1) && Enabled(StateAt(trace, n - 1), trace[n - 1]))
  }

  /** Every config that was stored is still there at its place, as it was given when it was valid, and
      otherwise with an hour for an interval that is not positive and no jitter for a negative one. */
  lemma {:induction false} StoredAsGiven(trace: seq<Action>, n: nat, i: nat)
    requires Lawful(trace, n) && i < n && trace[i].Store?
    ensures
      var given, place, configs := trace[i].c, |StateAt(trace, i).configs|, StateAt(trace, n).configs;
      && place < |configs| && configs[place].baseUrl == given.baseUrl
      && configs[place].intervalMin == (if given.intervalMin > 0 then given.intervalMin else 60)
      && configs[place].jitterSec == (if given.jitterSec > 0 then given.jitterSec else 0)
    decreases n
  {
    if i + 1 < n { StoredAsGiven(trace, n - 1, i); }
  }

  /** A config the loop has not taken is announced: by a token in the channel or a pending post. */
  lemma {:induction false} MissedConfigIsAnnounced(trace: seq<Action>, n: nat)
    requires Lawful(trace, n)
    ensures var s := StateAt(trace, n);
            && s.configs != []
            && (s.loop.Working? || s.loop.Waiting? ==>
                  s.loop.taken < |s.configs| && (s.loop.taken < |s.configs| - 1 ==> s.wake || s.posting > 0))
  {
    if n > 0 { MissedConfigIsAnnounced(trace, n - 1); }
  }

  /** No update is lost: when the loop is blocked on an empty channel and no call is between its
      store and its post, the config it last took is the current one. */
  lemma BlockedLoopIsCurrent(trace: seq<Action>, n: nat)
    requires Lawful(trace, n)
    requires StateAt(trace, n).loop.Waiting? && !StateAt(trace, n).wake && StateAt(trace, n).posting == 0
    ensures StateAt(trace, n).loop.taken == |StateAt(trace, n).configs| - 1
  {
    MissedConfigIsAnnounced(trace, n);
  }

  /** A wait is over at any time, or at once when there is a token, and the next round takes the config
      that is current then. */
  lemma NextRoundTakesCurrent(trace: seq<Action>, n: nat)
    requires Lawful(trace, n) && StateAt(trace, n).loop.Waiting?
    ensures
      var s := StateAt(trace, n);
      && Enabled(s, Timeout) && (Enabled(s, Wake) <==> s.wake)
      && forall over | over in {Timeout, Wake} && Enabled(s, over) ::
           var next := Apply(s, over);
           && next.configs == s.configs && next.wake == (s.wake && over == Timeout) && Enabled(next, Take)
           && (Apply(next, Take).loop.Working? || Apply(next, Take).loop.Waiting?)
           && Apply(next, Take).loop.taken == |s.configs| - 1
  {
    MissedConfigIsAnnounced(trace, n);
  }

  /** The wait is of a minute without a server, else of the interval plus at most the jitter. */
  predicate WaitFits(c: Config, seconds: int) {
    if c.baseUrl == "" then seconds == 60 else c.intervalMin * 60 <= seconds <= c.intervalMin * 60 + c.jitterSec
  }

  ghost predicate Paced(s: State) {
    && (forall i | 0 <= i < |s.configs| :: IsNormal(s.configs[i]))
    && (s.loop.Working? ==> s.loop.taken < |s.configs| && s.configs[s.loop.taken].baseUrl != "")
    && (s.loop.Waiting? ==>
          s.loop.taken < |s.configs| && s.loop.seconds >= 60 && WaitFits(s.configs[s.loop.taken], s.loop.seconds))
  }

  lemma StepIsPaced(s: State, a: Action)
    requires Paced(s) && Enabled(s, a)
    ensures Paced(Apply(s, a))
  {
    match a
    case Store(c) => assert IsNormal(Normalized(c));
    case Block(jitter) => assert IsNormal(s.configs[s.loop.taken]);
    case _ =>
  }

  /** Whatever configs arrive, the loop never spins: every wait is that of the taken config, and
      never shorter than a minute. */
  lemma {:induction false} LoopNeverSpins(trace: seq<Action>, n: nat)
    requires Lawful(trace, n)
    ensures Paced(StateAt(trace, n))
  {
    if n > 0 {
      LoopNeverSpins(trace, n - 1);
      StepIsPaced(StateAt(trace, n - 1), trace[n - 1]);
    }
  }
}
