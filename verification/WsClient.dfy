/** The WebSocket client of internal/wsconn/client.go and the heartbeat loop that it silences
    (internal/heartbeat/heartbeat.go, callbacks in cmd/service/core.go). */
module WsClient {
  import opened Basics

  /** The message types the client knows, without their "server." prefix. */
  datatype Kind =
    | AuthResult | AuthOk | Ping | Signal | Hello | CommandDispatch | RsRequest | RsEnd | ConfigPatch
    | InventorySyncRequired | BroadcastRestart | BroadcastSelfUpdate | AnnouncementPush | Unknown

  /** `ok` is the boolean of that name in the payload, if there is one. */
  datatype Message = Message(kind: Kind, id: string, ok: Option<bool>, payload: string)

  /** A message of the loop, and whether an answer to it can be written. */
  datatype Turn = Turn(message: Message, writable: bool)

  /** One connection as the network decides it. A None reply is a failed read; after the last turn
      the next read fails. */
  datatype Network = Network(dialed: bool, authWritten: bool, auth: Option<Message>,
                             helloWritten: bool, hello: Option<Message>, turns: seq<Turn>)

  /** Where the context is first seen cancelled in a round of the reconnect loop. */
  datatype Cancel = Never | Before | Serving | Returning | Sleeping

  datatype Round = Round(network: Network, cancel: Cancel)

  /** `SendAuth`, `SendHello` and `Dial` are attempts; `Callback` hands a message to the agent;
      `Triggered` asks for a heartbeat out of turn. */
  datatype Event =
    | Dial | SendAuth | SendHello | Received(message: Message) | Pong(id: string)
    | Callback(message: Message) | Connected | Disconnected | Triggered | Asleep(backoff: nat)

  /** The messages that the loop hands to a callback. */
  predicate IsDelivered(k: Kind) { !k.AuthResult? && !k.AuthOk? && !k.Ping? && !k.Unknown? }

  /** The callbacks that trigger a heartbeat. */
  predicate Triggers(k: Kind) { k.Signal? || k.InventorySyncRequired? }

  predicate Accepts(reply: Message) {
    if reply.kind.AuthResult? then reply.ok == Some(true) else reply.kind.AuthOk?
  }

  function Delivery(m: Message): seq<Event> {
    [Callback(m)] + if Triggers(m.kind) then [Triggered] else []
  }

  // ---------- One connection ----------

  predicate Breaks(t: Turn) { t.message.kind.Ping? && !t.writable }

  function Handled(t: Turn): seq<Event> {
    if t.message.kind.Ping? then [Received(t.message)] + if t.writable then [Pong(t.message.id)] else []
    else if IsDelivered(t.message.kind) then [Received(t.message)] + Delivery(t.message)
    else [Received(t.message)]
  }

  /** One of the first `n` turns broke the connection. */
  predicate Broken(turns: seq<Turn>, n: nat)
    requires n <= |turns|
  {
    n > 0 && (Broken(turns, n - 1) || Breaks(turns[n - 1]))
  }

  /** A log after the first `n` turns. */
  function Served(log: seq<Event>, turns: seq<Turn>, n: nat): seq<Event>
    requires n <= |turns|
  {
    if n == 0 then log
    else if Broken(turns, n - 1) then Served(log, turns, n - 1)
    else Served(log, turns, n - 1) + Handled(turns[n - 1])
  }

  /** The handshake completed. */
  predicate Completes(n: Network) {
    n.dialed && n.authWritten && n.auth.Some? && Accepts(n.auth.value) && n.helloWritten && n.hello.Some?
  }

  function Handshake(n: Network): seq<Event> {
    if !n.dialed then [Dial]
    else if !n.authWritten || n.auth.None? then [Dial, SendAuth]
    else if !Accepts(n.auth.value) then [Dial, SendAuth, Received(n.auth.value)]
    else if !n.helloWritten || n.hello.None? then [Dial, SendAuth, Received(n.auth.value), SendHello]
    else
      [Dial, SendAuth, Received(n.auth.value), SendHello, Received(n.hello.value)]
      + if n.hello.value.kind.Hello? then [Callback(n.hello.value)] else []
  }

  function Connection(n: Network): seq<Event> {
    if Completes(n) then Served(Handshake(n) + [Connected], n.turns, |n.turns|) else Handshake(n)
  }

  // ---------- The reconnect loop ----------

  datatype Limits = Limits(min: nat, max: nat)

  /** The backoff in force after the first `n` rounds. */
  function Backoff(rounds: seq<Round>, n: nat, l: Limits): nat
    requires n <= |rounds|
  {
    if n == 0 || Completes(rounds[n - 1].network) then l.min
    else Min(2 * Backoff(rounds, n - 1, l), l.max)
  }

  predicate Stops(r: Round) { r.cancel != Never }

  /** One of the first `n` rounds saw the context cancelled. */
  predicate Stopped(rounds: seq<Round>, n: nat)
    requires n <= |rounds|
  {
    n > 0 && (Stopped(rounds, n - 1) || Stops(rounds[n - 1]))
  }

  function Rest(r: Round, backoff: nat, l: Limits): seq<Event> {
    [Disconnected, Triggered, Asleep(if Completes(r.network) then l.min else backoff)]
  }

  function RoundEvents(r: Round, backoff: nat, l: Limits): seq<Event> {
    if r.cancel == Before then []
    else Connection(r.network) + if r.cancel == Serving || r.cancel == Returning then [] else Rest(r, backoff, l)
  }

  /** The events of each of the first `n` rounds, up to the round that stops. */
  function Trace(rounds: seq<Round>, n: nat, l: Limits): seq<seq<Event>>
    requires n <= |rounds|
  {
    if n == 0 then []
    else if Stopped(rounds, n - 1) then Trace(rounds, n - 1, l)
    else Trace(rounds, n - 1, l) + [RoundEvents(rounds[n - 1], Backoff(rounds, n - 1, l), l)]
  }

  lemma {:induction false} BrokenStays(log: seq<Event>, turns: seq<Turn>, i: nat, n: nat)
    requires i <= n <= |turns| && Broken(turns, i)
    ensures Broken(turns, n) && Served(log, turns, n) == Served(log, turns, i)
    decreases n
  {
    if i < n { BrokenStays(log, turns, i, n - 1); }
  }

  lemma {:induction false} StoppedStays(rounds: seq<Round>, i: nat, n: nat, l: Limits)
    requires i <= n <= |rounds| && Stopped(rounds, i)
    ensures Stopped(rounds, n) && Trace(rounds, n, l) == Trace(rounds, i, l)
    decreases n
  {
    if i < n { StoppedStays(rounds, i, n - 1, l); }
  }

  /** `log` holds the events of the current round, `history` those of the rounds before. */
  class Client {
    const reconnectMin: nat
    const reconnectMax: nat
    var connected: bool
    var log: seq<Event>
    var history: seq<seq<Event>>

    ghost function Bounds(): Limits { Limits(reconnectMin, reconnectMax) }

    constructor (minSec: int, maxSec: int)
      ensures reconnectMin == (if minSec <= 0 then 2 else minSec) * SECOND
      ensures reconnectMax == (if maxSec <= 0 then 60 else maxSec) * SECOND
      ensures !connected && log == [] && history == []
    {
      reconnectMin := (if minSec <= 0 then 2 else minSec) * SECOND;
      reconnectMax := (if maxSec <= 0 then 60 else maxSec) * SECOND;
      connected, log, history := false, [], [];
    }

    method HandleTurn(t: Turn) returns (goesOn: bool)
      modifies this`log
      ensures log == old(log) + Handled(t)
      ensures goesOn <==> t.message.kind != Ping || t.writable
    {
      log := log + [Received(t.message)];
      if t.message.kind.Ping? {
        if !t.writable { return false; }
        log := log + [Pong(t.message.id)];
      } else if IsDelivered(t.message.kind) {
        log := log + [Callback(t.message)];
        if Triggers(t.message.kind) { log := log + [Triggered]; }
      }
      goesOn := true;
    }

    method MessageLoop(turns: seq<Turn>)
      modifies this`log
      ensures log == Served(old(log), turns, |turns|)
    {
      for i := 0 to |turns|
        invariant log == Served(old(log), turns, i)
        invariant !Broken(turns, i)
      {
        var goesOn := HandleTurn(turns[i]);
        assert log == Served(old(log), turns, i + 1);
        if !goesOn {
          BrokenStays(old(log), turns, i + 1, |turns|);
          return;
        }
      }
    }

    /** The connection up to the end of the handshake. */
    method Greet(n: Network) returns (completed: bool)
      modifies this`log, this`connected
      ensures log == Handshake(n)
      ensures completed <==> Completes(n)
    {
      log := [Dial];
      if !n.dialed { return false; }
      connected := true;
      log := log + [SendAuth];
      if !n.authWritten || n.auth.None? { return false; }
      log := log + [Received(n.auth.value)];
      if n.auth.value.kind.AuthResult? {
        if n.auth.value.ok != Some(true) { return false; }
      } else if !n.auth.value.kind.AuthOk? { return false; }
      log := log + [SendHello];
      if !n.helloWritten || n.hello.None? { return false; }
      log := log + [Received(n.hello.value)];
      if n.hello.value.kind.Hello? { log := log + [Callback(n.hello.value)]; }
      completed := true;
    }

    /** `failed` is whether an error is returned; `cancelled` is what the context says when the
        message loop ends. */
    method ConnectAndServe(n: Network, cancelled: bool) returns (failed: bool)
      modifies this`log, this`connected
      ensures log == Connection(n) && !connected
      ensures failed <==> !Completes(n) || cancelled
    {
      var completed := Greet(n);
      if completed {
        log := log + [Connected];
        MessageLoop(n.turns);
      }
      failed, connected := !completed || cancelled, false;
    }

    /** One round of Run; `next` is the backoff after it, if there is another one. */
    method RunRound(r: Round, backoff: nat) returns (goesOn: bool, next: nat)
      modifies this`log, this`connected
      ensures log == RoundEvents(r, backoff, Bounds())
      ensures goesOn <==> !Stops(r)
      ensures goesOn ==>
        next == if Completes(r.network) then reconnectMin else Min(2 * backoff, reconnectMax)
    {
      goesOn, next, log := false, backoff, [];
      if r.cancel == Before { return; }
      var failed := ConnectAndServe(r.network, r.cancel == Serving);
      if r.cancel == Serving || r.cancel == Returning { return; }
      log := log + [Disconnected, Triggered];
      if !failed { next := reconnectMin; }
      log := log + [Asleep(next)];
      if r.cancel == Sleeping { return; }
      if failed { next := Min(2 * next, reconnectMax); }
      goesOn := true;
    }

    method Run(rounds: seq<Round>)
      requires history == []
      modifies this
      ensures history == Trace(rounds, |rounds|, Bounds())
    {
      var backoff, goesOn := reconnectMin, true;
      for i := 0 to |rounds|
        invariant history == Trace(rounds, i, Bounds())
        invariant !Stopped(rounds, i)
        invariant backoff == Backoff(rounds, i, Bounds())
      {
        goesOn, backoff := RunRound(rounds[i], backoff);
        history := history + [log];
        if !goesOn {
          StoppedStays(rounds, i + 1, |rounds|, Bounds());
          return;
        }
      }
    }
  }

  // ---------- The backoff ----------

  function Pow2(k: nat): nat { if k == 0 then 1 else 2 * Pow2(k - 1) }

  /** The straight handshake failures at the end of the first `n` rounds. */
  function Failures(rounds: seq<Round>, n: nat): nat
    requires n <= |rounds|
  {
    if n == 0 || Completes(rounds[n - 1].network) then 0 else Failures(rounds, n - 1) + 1
  }

  /** After k straight failed handshakes the backoff is min * 2^k, cut at max, and min again after
      any completed handshake. */
  lemma {:induction false} BackoffDoubles(rounds: seq<Round>, n: nat, l: Limits)
    requires n <= |rounds|
    ensures var k := Failures(rounds, n);
            Backoff(rounds, n, l) == if k == 0 then l.min else Min(l.min * Pow2(k), l.max)
  {
    if n > 0 && !Completes(rounds[n - 1].network) {
      BackoffDoubles(rounds, n - 1, l);
      var p := Pow2(Failures(rounds, n - 1));
      assert 2 * (l.min * p) == l.min * (2 * p);
    }
  }

  /** With min above max only the first wait of a streak is longer than max. */
  lemma BackoffIsBounded(rounds: seq<Round>, n: nat, l: Limits)
    requires n <= |rounds|
    ensures Backoff(rounds, n, l) > l.max <==> l.min > l.max && Failures(rounds, n) == 0
  {
    BackoffDoubles(rounds, n, l);
  }

  // ---------- Order of events ----------

  predicate InLoop(e: Event) { e.Received? || e.Pong? || e.Callback? || e.Triggered? }

  /** Event `i` answers the message received just before it. */
  predicate Answers(events: seq<Event>, i: nat)
    requires i < |events|
  {
    && (events[i].Callback? ==>
          i > 0 && events[i - 1] == Received(events[i].message) && IsDelivered(events[i].message.kind))
    && (events[i].Pong? ==>
          i > 0 && events[i - 1].Received? && events[i - 1].message.kind.Ping?
          && events[i - 1].message.id == events[i].id)
  }

  lemma {:induction false} ServedShape(log: seq<Event>, turns: seq<Turn>, n: nat)
    requires n <= |turns|
    ensures var s := Served(log, turns, n);
            && log <= s
            && forall k | |log| <= k < |s| :: InLoop(s[k]) && Answers(s, k)
  {
    if n > 0 { ServedShape(log, turns, n - 1); }
  }

  /** The message loop answers a message at once, and drops none that has a callback. */
  lemma {:induction false} NoneDropped(log: seq<Event>, turns: seq<Turn>, n: nat, k: nat)
    requires n <= |turns|
    requires |log| <= k < |Served(log, turns, n)| && Served(log, turns, n)[k].Received?
    requires IsDelivered(Served(log, turns, n)[k].message.kind)
    ensures var s := Served(log, turns, n); k + 1 < |s| && s[k + 1] == Callback(s[k].message)
  {
    if n > 0 && k < |Served(log, turns, n - 1)| { NoneDropped(log, turns, n - 1, k); }
  }

  /** What needs the server's consent to the authentication. */
  predicate NeedsAuth(e: Event) { e.Callback? || e.Connected? || e.Pong? || e.SendHello? }

  /** The connection was authenticated before event `i`: dial, request and accepted reply come
      first, with nothing between them. */
  predicate Admitted(events: seq<Event>, i: nat) {
    && 2 < i < |events|
    && events[0] == Dial && events[1] == SendAuth
    && events[2].Received? && Accepts(events[2].message)
  }

  /** Nothing the server sends reaches the agent, and the agent does not count as connected, before
      the server has accepted the authentication on that very connection. Each callback gets the
      message that has just arrived. */
  lemma AuthFirst(r: Round, backoff: nat, l: Limits, i: nat)
    requires i < |RoundEvents(r, backoff, l)|
    ensures var events := RoundEvents(r, backoff, l);
            && (NeedsAuth(events[i]) ==> Admitted(events, i))
            && Answers(events, i)
            && (events[i] == Dial <==> i == 0)
  {
    ServedShape(Handshake(r.network) + [Connected], r.network.turns, |r.network.turns|);
  }

  /** A connection is announced once, and its end once, after it; a round that another round
      follows ends with it. */
  lemma AnnouncedOnce(r: Round, backoff: nat, l: Limits, i: nat)
    requires i < |RoundEvents(r, backoff, l)|
    ensures var events := RoundEvents(r, backoff, l);
            && (events[i] == Connected <==> Completes(r.network) && i == |Handshake(r.network)|)
            && (events[i] == Disconnected <==> i == |events| - 3 && (r.cancel == Never || r.cancel == Sleeping))
  {
    ServedShape(Handshake(r.network) + [Connected], r.network.turns, |r.network.turns|);
  }

  /** The server's reply admits the agent. */
  predicate Welcomes(reply: Option<Message>) {
    reply.Some? && (reply.value.kind == AuthOk || (reply.value.kind == AuthResult && reply.value.ok == Some(true)))
  }

  /** The connection is announced exactly when dial, request, a welcoming reply, hello and its reply all
      went well; an auth.result without ok=true never leads there. */
  lemma ConnectedIff(r: Round, backoff: nat, l: Limits)
    ensures
      var n := r.network;
      Connected in RoundEvents(r, backoff, l) <==>
        r.cancel != Before && n.dialed && n.authWritten && Welcomes(n.auth) && n.helloWritten && n.hello.Some?
  {
    var events := RoundEvents(r, backoff, l);
    ServedShape(Handshake(r.network) + [Connected], r.network.turns, |r.network.turns|);
    if Completes(r.network) && r.cancel != Before { assert events[|Handshake(r.network)|] == Connected; }
  }

  predicate Stands(events: seq<Event>, i: nat, e: Event) { i < |events| && events[i] == e }

  /** Each step of the handshake is taken exactly when the one before it went well. */
  lemma HandshakeInOrder(r: Round, backoff: nat, l: Limits)
    requires r.cancel != Before
    ensures
      var n, events := r.network, RoundEvents(r, backoff, l);
      && Stands(events, 0, Dial)
      && (Stands(events, 1, SendAuth) <==> n.dialed)
      && (n.auth.Some? ==> (Stands(events, 2, Received(n.auth.value)) <==> n.dialed && n.authWritten))
      && (Stands(events, 3, SendHello) <==> n.dialed && n.authWritten && Welcomes(n.auth))
      && (n.hello.Some? ==>
            var heard := n.dialed && n.authWritten && Welcomes(n.auth) && n.helloWritten;
            && (Stands(events, 4, Received(n.hello.value)) <==> heard)
            && (n.hello.value.kind == Hello ==>
                  (Stands(events, 5, Callback(n.hello.value)) && Stands(events, 6, Connected) <==> heard))
            && (n.hello.value.kind != Hello ==> (Stands(events, 5, Connected) <==> heard)))
  {
    var events, greeting := RoundEvents(r, backoff, l), Handshake(r.network) + [Connected];
    ServedShape(greeting, r.network.turns, |r.network.turns|);
    if Completes(r.network) {
      assert forall k | 0 <= k < |greeting| :: events[k] == greeting[k];
    }
  }

  lemma {:induction false} BrokenIff(turns: seq<Turn>, n: nat)
    requires n <= |turns|
    ensures Broken(turns, n) <==> exists j :: 0 <= j < n && turns[j].message.kind == Ping && !turns[j].writable
  {
    if n > 0 { BrokenIff(turns, n - 1); }
  }

  /** The message loop turn by turn: until a ping cannot be answered it receives each message, answers
      a ping, and hands every other message it knows to its callback; only a signal and a request for
      an inventory sync ask for a heartbeat. */
  lemma {:induction false} TurnAdds(log: seq<Event>, turns: seq<Turn>, i: nat)
    requires i < |turns|
    ensures
      var m, before := turns[i].message, Served(log, turns, i);
      Served(log, turns, i + 1) == before +
        if exists j :: 0 <= j < i && turns[j].message.kind == Ping && !turns[j].writable then []
        else if m.kind == Ping then if turns[i].writable then [Received(m), Pong(m.id)] else [Received(m)]
        else if m.kind in {Signal, InventorySyncRequired} then [Received(m), Callback(m), Triggered]
        else if m.kind in {AuthResult, AuthOk, Unknown} then [Received(m)]
        else [Received(m), Callback(m)]
  {
    BrokenIff(turns, i);
  }

  /** A connection that is announced goes through exactly these turns, and a round without cancellation
      ends with the wait for the next one. */
  lemma RoundParts(r: Round, backoff: nat, l: Limits)
    requires r.cancel != Before && Completes(r.network)
    ensures
      var events, greeting := RoundEvents(r, backoff, l), Handshake(r.network) + [Connected];
      Served(greeting, r.network.turns, |r.network.turns|) <= events
      && events[|Served(greeting, r.network.turns, |r.network.turns|)|..]
         == if r.cancel in {Serving, Returning} then [] else [Disconnected, Triggered, Asleep(l.min)]
  {}

  lemma {:induction false} TraceLength(rounds: seq<Round>, n: nat, l: Limits)
    requires n <= |rounds|
    ensures |Trace(rounds, n, l)| <= n
    ensures !Stopped(rounds, n) ==> |Trace(rounds, n, l)| == n
  {
    if n > 0 { TraceLength(rounds, n - 1, l); }
  }

  /** The rounds of a trace; only the last one may have seen the context cancelled. */
  lemma {:induction false} TraceRounds(rounds: seq<Round>, n: nat, l: Limits, k: nat)
    requires n <= |rounds| && k < |Trace(rounds, n, l)|
    ensures k < n && Trace(rounds, n, l)[k] == RoundEvents(rounds[k], Backoff(rounds, k, l), l)
    ensures k + 1 < |Trace(rounds, n, l)| ==> !Stops(rounds[k])
    decreases n
  {
    TraceLength(rounds, n - 1, l);
    if Stopped(rounds, n - 1) || k + 1 < n {
      TraceRounds(rounds, n - 1, l, k);
      if k + 2 == n && !Stopped(rounds, n - 1) { assert !Stops(rounds[k]); }
    }
  }

  lemma {:induction false} StoppedIff(rounds: seq<Round>, n: nat)
    requires n <= |rounds|
    ensures Stopped(rounds, n) <==> exists j :: 0 <= j < n && rounds[j].cancel != Never
  {
    if n > 0 { StoppedIff(rounds, n - 1); }
  }

  /** A round is entered exactly when no round before it saw the context cancelled. */
  lemma {:induction false} RoundEnteredIff(rounds: seq<Round>, n: nat, l: Limits, k: nat)
    requires k < n <= |rounds|
    ensures k < |Trace(rounds, n, l)| <==> forall j | 0 <= j < k :: rounds[j].cancel == Never
    decreases n
  {
    StoppedIff(rounds, n - 1);
    if k + 1 < n {
      RoundEnteredIff(rounds, n - 1, l, k);
      TraceLength(rounds, n - 1, l);
    } else {
      TraceLength(rounds, k, l);
    }
  }

  /** What a round that is followed by a wait waits for: min after a connection, and after k failures
      in a row before this one min * 2^k, cut at max. */
  lemma WaitOfRound(rounds: seq<Round>, l: Limits, r: nat)
    requires r < |rounds| && r < |Trace(rounds, |rounds|, l)| && rounds[r].cancel in {Never, Sleeping}
    ensures
      var events, k := Trace(rounds, |rounds|, l)[r], Failures(rounds, r);
      |events| >= 3 && events[|events| - 3..]
         == [Disconnected, Triggered,
             Asleep(if Connected in events || k == 0 then l.min else Min(l.min * Pow2(k), l.max))]
  {
    TraceRounds(rounds, |rounds|, l, r);
    BackoffDoubles(rounds, r, l);
    ConnectedIff(rounds[r], Backoff(rounds, r, l), l);
  }

  /** Between two OnConnected calls there is an OnDisconnected call: they are never in one round,
      and the round of the first one ends with it. */
  lemma DisconnectBetweenConnects(rounds: seq<Round>, l: Limits, a: nat, i: nat, b: nat, j: nat) returns (k: nat)
    requires var t := Trace(rounds, |rounds|, l);
             && a <= b < |t| && i < |t[a]| && j < |t[b]| && (a == b ==> i < j)
             && t[a][i] == Connected && t[b][j] == Connected
    ensures a < b && i < k < |Trace(rounds, |rounds|, l)[a]| && Trace(rounds, |rounds|, l)[a][k] == Disconnected
  {
    var t := Trace(rounds, |rounds|, l);
    TraceRounds(rounds, |rounds|, l, a);
    TraceRounds(rounds, |rounds|, l, b);
    AnnouncedOnce(rounds[a], Backoff(rounds, a, l), l, i);
    AnnouncedOnce(rounds[b], Backoff(rounds, b, l), l, j);
    k := |t[a]| - 3;
    AnnouncedOnce(rounds[a], Backoff(rounds, a, l), l, k);
    ServedShape(Handshake(rounds[a].network) + [Connected], rounds[a].network.turns, |rounds[a].network.turns|);
  }

  // ---------- Heartbeats beside the connection ----------

  /** How far the client got in its trace, and the heartbeat loop: the flag that silences the
      timer, the token in the trigger channel, and the heartbeats sent. */
  datatype World = World(round: nat, at: nat, active: bool, posted: bool, sent: nat)

  /** `Ws` is the next event of the client, `Next` its next round; `Tick` the timer, `Wake` the
      trigger channel, `Post` a trigger from elsewhere. */
  datatype Step = Ws | Next | Tick | Wake | Post

  const INITIAL := World(0, 0, false, false, 0)

  predicate Enabled(w: World, s: Step, t: seq<seq<Event>>) {
    match s
    case Ws => w.round < |t| && w.at < |t[w.round]|
    case Next => w.round + 1 < |t| && w.at == |t[w.round]|
    case Wake => w.posted
    case _ => true
  }

  function Take(w: World, s: Step, t: seq<seq<Event>>): World
    requires Enabled(w, s, t)
  {
    match s
    case Ws =>
      var e := t[w.round][w.at];
      w.(at := w.at + 1, active := if e == Connected then true else if e == Disconnected then false else w.active,
         posted := w.posted || e == Triggered)
    case Next => w.(round := w.round + 1, at := 0)
    case Tick => if w.active then w else w.(sent := w.sent + 1)
    case Wake => w.(posted := false, sent := w.sent + 1)
    case Post => w.(posted := true)
  }

  function StateAt(steps: seq<Step>, n: nat, t: seq<seq<Event>>): World
    requires n <= |steps|
  {
    if n == 0 then INITIAL
    else
      var before := StateAt(steps, n - 1, t);
      if Enabled(before, steps[n - 1], t) then Take(before, steps[n - 1], t) else before
  }

  ghost predicate Lawful(steps: seq<Step>, n: nat, t: seq<seq<Event>>) {
    n <= |steps| && (n > 0 ==> Lawful(steps, n - 1, t) && Enabled(StateAt(steps, n - 1, t), steps[n - 1], t))
  }

  /** Event `c` announced the connection and its end is not announced before `at`. */
  predicate Up(events: seq<Event>, c: nat, at: nat) {
    && c < at <= |events| && events[c] == Connected
    && forall k | c < k < at :: events[k] != Disconnected
  }

  lemma UpStep(events: seq<Event>, at: nat, next: nat)
    requires next == at + 1 <= |events|
    ensures (exists c: nat :: Up(events, c, next))
       <==> events[at] == Connected || (events[at] != Disconnected && exists c: nat :: Up(events, c, at))
  {
    if events[at] == Connected { assert Up(events, at, next); }
    if c: nat :| Up(events, c, at) && events[at] != Disconnected { assert Up(events, c, next); }
    if c: nat :| Up(events, c, next) && c < at { assert Up(events, c, at); }
  }

  /** No round but the last leaves a connection announced. */
  ghost predicate RoundsEndDown(t: seq<seq<Event>>) {
    forall r, c: nat | 0 <= r < |t| - 1 :: !Up(t[r], c, |t[r]|)
  }

  lemma TraceEndsDown(rounds: seq<Round>, l: Limits)
    ensures RoundsEndDown(Trace(rounds, |rounds|, l))
  {
    var t := Trace(rounds, |rounds|, l);
    forall r, c: nat | 0 <= r < |t| - 1 && Up(t[r], c, |t[r]|) ensures false {
      TraceRounds(rounds, |rounds|, l, r);
      AnnouncedOnce(rounds[r], Backoff(rounds, r, l), l, |t[r]| - 3);
      AnnouncedOnce(rounds[r], Backoff(rounds, r, l), l, c);
    }
  }

  lemma {:induction false} ActiveIffUp(t: seq<seq<Event>>, steps: seq<Step>, n: nat)
    requires Lawful(steps, n, t) && RoundsEndDown(t)
    ensures var w := StateAt(steps, n, t);
            if w.round < |t| then w.at <= |t[w.round]| && (w.active <==> exists c: nat :: Up(t[w.round], c, w.at))
            else t == [] && !w.active
  {
    if n > 0 {
      ActiveIffUp(t, steps, n - 1);
      var w := StateAt(steps, n - 1, t);
      if steps[n - 1] == Ws { UpStep(t[w.round], w.at, w.at + 1); }
    }
  }

  /** In every interleaving, a timer tick is skipped exactly while the client is between an
      OnConnected and the following OnDisconnected, on a connection the server has admitted. */
  lemma TickSkippedIff(rounds: seq<Round>, l: Limits, steps: seq<Step>, n: nat)
    requires Lawful(steps, n, Trace(rounds, |rounds|, l))
    ensures var t := Trace(rounds, |rounds|, l);
            var w := StateAt(steps, n, t);
            (Take(w, Tick, t).sent == w.sent) <==>
              (w.round < |t| && exists c: nat :: Up(t[w.round], c, w.at) && Admitted(t[w.round], c))
  {
    var t := Trace(rounds, |rounds|, l);
    var w := StateAt(steps, n, t);
    TraceEndsDown(rounds, l);
    ActiveIffUp(t, steps, n);
    if w.round < |t| {
      if c: nat :| Up(t[w.round], c, w.at) {
        TraceRounds(rounds, |rounds|, l, w.round);
        AuthFirst(rounds[w.round], Backoff(rounds, w.round, l), l, c);
      }
    }
  }

  /** No trigger is lost: once the channel is empty again, a heartbeat has been sent after it. */
  lemma {:induction false} TriggerIsServed(t: seq<seq<Event>>, steps: seq<Step>, a: nat, n: nat) returns (b: nat)
    requires a < n && Lawful(steps, n, t)
    requires StateAt(steps, a + 1, t).posted && !StateAt(steps, n, t).posted
    ensures a < b < n && steps[b] == Wake && StateAt(steps, b + 1, t).sent == StateAt(steps, b, t).sent + 1
    decreases n
  {
    if StateAt(steps, n - 1, t).posted {
      b := n - 1;
    } else {
      b := TriggerIsServed(t, steps, a, n - 1);
    }
  }

  /** Losing a connection is followed by a heartbeat: the OnDisconnected call posts a trigger next. */
  lemma DisconnectTriggers(rounds: seq<Round>, l: Limits, r: nat, i: nat)
    requires r < |Trace(rounds, |rounds|, l)| && i < |Trace(rounds, |rounds|, l)[r]|
    requires Trace(rounds, |rounds|, l)[r][i] == Disconnected
    ensures i + 1 < |Trace(rounds, |rounds|, l)[r]| && Trace(rounds, |rounds|, l)[r][i + 1] == Triggered
  {
    TraceRounds(rounds, |rounds|, l, r);
    AnnouncedOnce(rounds[r], Backoff(rounds, r, l), l, i);
  }

  /** The heartbeat loop and what other goroutines do to it. */
  class HeartbeatLoop {
    var wsActive: bool
    var triggered: bool
    var sent: nat

    constructor ()
      ensures !wsActive && !triggered && sent == 0
    {
      wsActive, triggered, sent := false, false, 0;
    }

    method SetWSActive(active: bool)
      modifies this`wsActive
      ensures wsActive == active
    {
      wsActive := active;
    }

    /** Posting to a full channel does nothing. */
    method TriggerNow()
      modifies this`triggered
      ensures triggered
    {
      triggered := true;
    }

    /** Runs the callbacks of the client; its other events do not touch the loop. */
    method Observe(e: Event)
      modifies this`wsActive, this`triggered
      ensures wsActive == (e == Connected || (e != Disconnected && old(wsActive)))
      ensures triggered == (old(triggered) || e == Triggered)
    {
      match e
      case Connected => SetWSActive(true);
      case Disconnected => SetWSActive(false);
      case Triggered => TriggerNow();
      case _ =>
    }

    /** One turn of the loop of Start; `ticked` tells which channel it read. */
    method Turn(ticked: bool)
      requires ticked || triggered
      modifies this`triggered, this`sent
      ensures sent == old(sent) + if ticked && wsActive then 0 else 1
      ensures triggered == (ticked && old(triggered))
    {
      if ticked {
        if wsActive { return; }
        sent := sent + 1;
      } else {
        triggered := false;
        sent := sent + 1;
      }
    }

    /** One step of the interleaving, as the state machine has it. */
    method Follow(s: Step, w: World, t: seq<seq<Event>>) returns (next: World)
      requires Enabled(w, s, t)
      requires w.active == wsActive && w.posted == triggered && w.sent == sent
      modifies this
      ensures next == Take(w, s, t)
      ensures next.active == wsActive && next.posted == triggered && next.sent == sent
    {
      next := w;
      match s {
        case Ws =>
          Observe(t[w.round][w.at]);
          next := next.(at := w.at + 1);
        case Next => next := next.(round := w.round + 1, at := 0);
        case Tick => Turn(true);
        case Wake => Turn(false);
        case Post => TriggerNow();
      }
      next := next.(active := wsActive, posted := triggered, sent := sent);
    }
  }
}
