/** The services snapshot in the heartbeat of internal/heartbeat/heartbeat.go: a hash in every
    request and the full list only when it changed or the server asked for it. */
module Heartbeat {
  import opened Basics

  datatype Service = Service(name: string, details: string)

  type Services = seq<Service>

  /** An empty hash means that the request carries none. */
  datatype Request = Request(hash: string, list: Option<Services>)

  /** The settings a response may carry. */
  datatype Settings = Settings(enabled: Option<bool>, syncRequired: Option<bool>, intervalMin: Option<int>)

  datatype State = State(enabled: bool, syncNeeded: bool, intervalMin: int, lastSent: Option<Time>, lastHash: string)

  const START := State(false, false, 10, None, "")

  function Named(rows: Services): Services {
    if rows == [] then []
    else Named(rows[..|rows| - 1]) + if rows[|rows| - 1].name == "" then [] else [rows[|rows| - 1]]
  }

  predicate NeedsCollect(s: State, now: Time) {
    s.syncNeeded || s.lastHash == "" || s.lastSent == None
    || now - s.lastSent.value >= (if s.intervalMin <= 0 then 10 else s.intervalMin) * MINUTE
  }

  function Attach(s: State, now: Time, collected: Option<Services>, hash: Services -> string): (State, Request) {
    if !s.enabled then (s, Request("", None))
    else if !NeedsCollect(s, now) || collected == None then (s, Request(s.lastHash, None))
    else
      var items := Named(collected.value);
      if s.syncNeeded || hash(items) != s.lastHash then
        (s.(lastHash := hash(items), lastSent := Some(now)), Request(hash(items), Some(items)))
      else (s, Request(hash(items), None))
  }

  function Take(s: State, c: Settings): State {
    s.(enabled := if c.enabled.Some? then c.enabled.value else s.enabled,
       syncNeeded := if c.syncRequired.Some? then c.syncRequired.value else s.syncNeeded,
       intervalMin := if c.intervalMin.Some? && c.intervalMin.value > 0 then c.intervalMin.value else s.intervalMin)
  }

  /** One heartbeat: the time, the outcome of the collection, and the response, if there is one. */
  datatype Beat = Beat(now: Time, collected: Option<Services>, response: Option<Settings>)

  function AfterBeat(s: State, b: Beat, hash: Services -> string): (State, Request) {
    var (sent, request) := Attach(s, b.now, b.collected, hash);
    (if b.response.Some? then Take(sent, b.response.value) else sent, request)
  }

  class Sender {
    const hash: Services -> string
    var servicesEnabled: bool
    var servicesSyncNeeded: bool
    var servicesIntervalMin: int
    var servicesLastSent: Option<Time>
    var servicesLastHash: string

    ghost function Value(): State
      reads this
    {
      State(servicesEnabled, servicesSyncNeeded, servicesIntervalMin, servicesLastSent, servicesLastHash)
    }

    constructor (hash: Services -> string)
      ensures Value() == START && this.hash == hash
    {
      this.hash := hash;
      servicesEnabled, servicesSyncNeeded, servicesIntervalMin := false, false, 10;
      servicesLastSent, servicesLastHash := None, "";
    }

    method MaybeAttachServices(now: Time, collected: Option<Services>) returns (request: Request)
      modifies this
      ensures (Value(), request) == Attach(old(Value()), now, collected, hash)
    {
      request := Request("", None);
      if !servicesEnabled { return; }
      var intervalMin := servicesIntervalMin;
      if intervalMin <= 0 { intervalMin := 10; }
      var needCollect := servicesSyncNeeded || servicesLastHash == "" || servicesLastSent == None
                         || now - servicesLastSent.value >= intervalMin * MINUTE;
      if !needCollect {
        request := request.(hash := servicesLastHash);
        return;
      }
      if collected == None {
        if servicesLastHash != "" { request := request.(hash := servicesLastHash); }
        return;
      }
      var rows, items: Services := collected.value, [];
      for i := 0 to |rows|
        invariant items == Named(rows[..i])
      {
        assert rows[..i + 1][..i] == rows[..i];
        if rows[i].name == "" { continue; }
        items := items + [rows[i]];
      }
      assert rows[..|rows|] == rows;
      request := request.(hash := hash(items));
      if servicesSyncNeeded || hash(items) != servicesLastHash {
        request := request.(list := Some(items));
        servicesLastHash, servicesLastSent := hash(items), Some(now);
      }
    }

    method SendOnce(b: Beat) returns (request: Request)
      modifies this
      ensures (Value(), request) == AfterBeat(old(Value()), b, hash)
    {
      request := MaybeAttachServices(b.now, b.collected);
      if b.response == None { return; }
      var c := b.response.value;
      if c.enabled.Some? { servicesEnabled := c.enabled.value; }
      if c.syncRequired.Some? { servicesSyncNeeded := c.syncRequired.value; }
      if c.intervalMin.Some? && c.intervalMin.value > 0 { servicesIntervalMin := c.intervalMin.value; }
    }
  }

  // ---------- Runs ----------

  /** The sender after the first n beats. */
  function StateAt(s: State, beats: seq<Beat>, n: nat, hash: Services -> string): State
    requires n <= |beats|
  {
    if n == 0 then s else AfterBeat(StateAt(s, beats, n - 1, hash), beats[n - 1], hash).0
  }

  /** The request of beat i. */
  function RequestAt(s: State, beats: seq<Beat>, i: nat, hash: Services -> string): Request
    requires i < |beats|
  {
    AfterBeat(StateAt(s, beats, i, hash), beats[i], hash).1
  }

  /** JSON encoding drops an empty list. */
  function OnWire(r: Request): Request { if r.list == Some([]) then r.(list := None) else r }

  /** What a receiver holds that stores every full list of the first n requests, as they are built or
      as they are encoded. */
  function Held(beats: seq<Beat>, n: nat, hash: Services -> string, encoded: bool): Option<Services>
    requires n <= |beats|
  {
    if n == 0 then None
    else
      var built := RequestAt(START, beats, n - 1, hash);
      var r := if encoded then OnWire(built) else built;
      if r.list.Some? then r.list else Held(beats, n - 1, hash, encoded)
  }

  /** Hashes are never empty strings. */
  ghost predicate Hashes(hash: Services -> string) { forall items :: hash(items) != "" }

  /** The stored list is the one whose hash the sender remembers. */
  lemma {:induction false} SenderRemembersStored(beats: seq<Beat>, n: nat, hash: Services -> string)
    requires n <= |beats| && Hashes(hash)
    ensures var stored := Held(beats, n, hash, false);
            StateAt(START, beats, n, hash).lastHash == if stored.Some? then hash(stored.value) else ""
  {
    if n > 0 { SenderRemembersStored(beats, n - 1, hash); }
  }

  /** In any run, through failed collections, lost responses and any settings, a receiver of every
      request holds, after each request that announces a hash, a list with exactly that hash. */
  lemma StoredMatchesAnnounced(beats: seq<Beat>, i: nat, hash: Services -> string)
    requires i < |beats| && Hashes(hash)
    ensures var announced, held := RequestAt(START, beats, i, hash).hash, Held(beats, i + 1, hash, false);
            announced != "" ==> held.Some? && hash(held.value) == announced
  {
    SenderRemembersStored(beats, i, hash);
  }

  lemma ListsCarryTheirHash(s: State, b: Beat, hash: Services -> string)
    requires AfterBeat(s, b, hash).1.list.Some?
    ensures var r := AfterBeat(s, b, hash).1;
            r.hash == hash(r.list.value) && b.collected.Some? && r.list.value == Named(b.collected.value)
  {}

  /** Request j is the latest one before number n that carried a list. */
  ghost predicate LatestList(beats: seq<Beat>, n: nat, hash: Services -> string, j: nat) {
    && j < n <= |beats| && RequestAt(START, beats, j, hash).list.Some?
    && forall k | j < k < n :: RequestAt(START, beats, k, hash).list == None
  }

  lemma {:induction false} FindLatestList(beats: seq<Beat>, n: nat, hash: Services -> string) returns (j: nat)
    requires n <= |beats| && Held(beats, n, hash, false).Some?
    ensures LatestList(beats, n, hash, j) && RequestAt(START, beats, j, hash).list == Held(beats, n, hash, false)
  {
    j := n - 1;
    if RequestAt(START, beats, j, hash).list == None { j := FindLatestList(beats, j, hash); }
  }

  /** A request that announces a hash without a list repeats the hash of the latest request that
      carried one. */
  lemma HashOnlyRepeatsLatestList(beats: seq<Beat>, i: nat, hash: Services -> string) returns (j: nat)
    requires i < |beats| && Hashes(hash)
    requires var r := RequestAt(START, beats, i, hash); r.hash != "" && r.list == None
    ensures LatestList(beats, i, hash, j)
    ensures RequestAt(START, beats, j, hash).hash == RequestAt(START, beats, i, hash).hash
  {
    SenderRemembersStored(beats, i, hash);
    j := FindLatestList(beats, i, hash);
    ListsCarryTheirHash(StateAt(START, beats, j, hash), beats[j], hash);
  }

  // ---------- One request ----------

  /** Dropping the rows without a name keeps the order of the others. */
  lemma {:induction false} NamedOfBoth(a: Services, b: Services)
    ensures Named(a + b) == Named(a) + Named(b)
  {
    if b == [] {
      assert a + b == a;
    } else {
      var init, last := b[..|b| - 1], b[|b| - 1];
      assert (a + b)[..|a + b| - 1] == a + init;
      NamedOfBoth(a, init);
    }
  }

  /** What a request carries: nothing while the snapshot is off, the remembered hash while nothing is
      collected, and else the list exactly when the server asked for it or its hash is new, and that at
      a time when the interval is over or no list went out yet. */
  lemma RequestRules(s: State, b: Beat, hash: Services -> string)
    ensures
      var (after, r) := AfterBeat(s, b, hash);
      var overdue := s.lastHash == "" || s.lastSent == None
                   || b.now - s.lastSent.value >= (if s.intervalMin > 0 then s.intervalMin else 10) * MINUTE;
      && (!s.enabled ==> r == Request("", None))
      && (s.enabled && b.collected == None ==> r == Request(s.lastHash, None))
      && (s.enabled && !s.syncNeeded && !overdue ==> r == Request(s.lastHash, None))
      && (s.enabled && (s.syncNeeded || overdue) && b.collected.Some? ==> r.hash == hash(Named(b.collected.value)))
      && (r.list.Some? <==> s.enabled && b.collected.Some?
                            && (s.syncNeeded || (overdue && hash(Named(b.collected.value)) != s.lastHash)))
      && (if r.list.Some? then after.lastHash == r.hash && after.lastSent == Some(b.now)
          else after.lastHash == s.lastHash && after.lastSent == s.lastSent)
  {}

  // ---------- What responses change ----------

  predicate GivesEnabled(b: Beat) { b.response.Some? && b.response.value.enabled.Some? }

  predicate GivesSync(b: Beat) { b.response.Some? && b.response.value.syncRequired.Some? }

  predicate GivesInterval(b: Beat) {
    b.response.Some? && b.response.value.intervalMin.Some? && b.response.value.intervalMin.value > 0
  }

  /** Each setting keeps the value of the latest response that gave one; an interval that is not
      positive gives none. */
  lemma {:induction false} LatestSettingStands(s: State, beats: seq<Beat>, j: nat, n: nat, hash: Services -> string)
    requires j < n <= |beats|
    ensures GivesEnabled(beats[j]) && (forall k | j < k < n :: !GivesEnabled(beats[k])) ==>
              StateAt(s, beats, n, hash).enabled == beats[j].response.value.enabled.value
    ensures GivesSync(beats[j]) && (forall k | j < k < n :: !GivesSync(beats[k])) ==>
              StateAt(s, beats, n, hash).syncNeeded == beats[j].response.value.syncRequired.value
    ensures GivesInterval(beats[j]) && (forall k | j < k < n :: !GivesInterval(beats[k])) ==>
              StateAt(s, beats, n, hash).intervalMin == beats[j].response.value.intervalMin.value
    decreases n
  {
    if j + 1 < n { LatestSettingStands(s, beats, j, n - 1, hash); }
  }

  lemma {:induction false} SettingsStand(s: State, beats: seq<Beat>, n: nat, hash: Services -> string)
    requires n <= |beats|
    ensures (forall k | 0 <= k < n :: !GivesEnabled(beats[k])) ==> StateAt(s, beats, n, hash).enabled == s.enabled
    ensures (forall k | 0 <= k < n :: !GivesSync(beats[k])) ==> StateAt(s, beats, n, hash).syncNeeded == s.syncNeeded
    ensures (forall k | 0 <= k < n :: !GivesInterval(beats[k])) ==>
              StateAt(s, beats, n, hash).intervalMin == s.intervalMin
  {
    if n > 0 { SettingsStand(s, beats, n - 1, hash); }
  }

  /** Once a response switched the snapshot off no request carries a hash or a list until another one
      switches it on. */
  lemma SwitchedOffIsSilent(s: State, beats: seq<Beat>, off: nat, i: nat, hash: Services -> string)
    requires off < i < |beats| && GivesEnabled(beats[off]) && !beats[off].response.value.enabled.value
    requires forall k | off < k < i :: !GivesEnabled(beats[k])
    ensures RequestAt(s, beats, i, hash) == Request("", None)
  {
    LatestSettingStands(s, beats, off, i, hash);
    RequestRules(StateAt(s, beats, i, hash), beats[i], hash);
  }

  // ---------- On the wire ----------

  lemma {:induction false} NamedEmptyIff(rows: Services)
    ensures Named(rows) != [] <==> exists r :: r in rows && r.name != ""
  {
    if rows != [] {
      var init, last := rows[..|rows| - 1], rows[|rows| - 1];
      assert rows == init + [last];
      NamedEmptyIff(init);
    }
  }

  /** A receiver behind the wire never holds an empty list, and holds the latest list sent if that
      one is not empty. */
  lemma {:induction false} HeldOnWire(beats: seq<Beat>, n: nat, hash: Services -> string)
    requires n <= |beats|
    ensures var built, received := Held(beats, n, hash, false), Held(beats, n, hash, true);
            received != Some([]) && (built != None && built != Some([]) ==> received == built)
  {
    if n > 0 { HeldOnWire(beats, n - 1, hash); }
  }

  /** Behind the wire, agreement holds exactly when the latest collection that led to a list had a
      row with a name: a machine whose last named service disappears leaves the receiver with the
      list it had.  (No other list shares the hash of the empty one.) */
  lemma WireAgreementIff(beats: seq<Beat>, i: nat, hash: Services -> string) returns (j: nat)
    requires Hashes(hash) && forall items :: hash(items) == hash([]) ==> items == []
    requires i < |beats| && RequestAt(START, beats, i, hash).hash != ""
    ensures LatestList(beats, i + 1, hash, j) && beats[j].collected.Some?
    ensures var held := Held(beats, i + 1, hash, true);
            (held.Some? && hash(held.value) == RequestAt(START, beats, i, hash).hash)
            <==> exists r :: r in beats[j].collected.value && r.name != ""
  {
    StoredMatchesAnnounced(beats, i, hash);
    HeldOnWire(beats, i + 1, hash);
    j := FindLatestList(beats, i + 1, hash);
    ListsCarryTheirHash(StateAt(START, beats, j, hash), beats[j], hash);
    NamedEmptyIff(beats[j].collected.value);
  }

  const SPOOLER := Service("Spooler", "Running")
  const SWITCHED_ON := Some(Settings(Some(true), None, None))
  const ACCEPTED := Some(Settings(None, None, None))

  lemma NamedOne(r: Service)
    ensures Named([r]) == if r.name == "" then [] else [r]
  {
    assert [r][..0] == [];
  }

  /** It does happen: the server switches the snapshot on, gets a list, and ten minutes later no row
      has a name.  It then hears the hash of the empty list and still holds the old one. */
  lemma EmptyListIsMissed(hash: Services -> string)
    requires Hashes(hash)
    ensures var beats := [Beat(0, None, SWITCHED_ON), Beat(MINUTE, Some([SPOOLER]), ACCEPTED),
                          Beat(11 * MINUTE, Some([Service("", "Stopped")]), ACCEPTED)];
            && Held(beats, 3, hash, true) == Some([SPOOLER])
            && (hash([SPOOLER]) != hash([]) ==> RequestAt(START, beats, 2, hash) == Request(hash([]), Some([])))
  {
    var beats := [Beat(0, None, SWITCHED_ON), Beat(MINUTE, Some([SPOOLER]), ACCEPTED),
                  Beat(11 * MINUTE, Some([Service("", "Stopped")]), ACCEPTED)];
    NamedOne(SPOOLER);
    NamedOne(Service("", "Stopped"));
    assert StateAt(START, beats, 1, hash) == START.(enabled := true);
    assert StateAt(START, beats, 2, hash) == State(true, false, 10, Some(MINUTE), hash([SPOOLER]));
    assert RequestAt(START, beats, 1, hash) == Request(hash([SPOOLER]), Some([SPOOLER]));
    assert Held(beats, 2, hash, true) == Some([SPOOLER]);
    assert OnWire(RequestAt(START, beats, 2, hash)).list == None;
  }

  // ---------- Lost requests ----------

  /** At beat i a list is due: the snapshot is on and collected, and either the server has asked for
      a sync or the interval since `sent` is over and the hash is not `last` any more. */
  ghost predicate ListIsDue(s: State, beats: seq<Beat>, i: nat, hash: Services -> string, sent: Time, last: string) {
    i < |beats| &&
    var now := StateAt(s, beats, i, hash);
    && now.enabled && beats[i].collected.Some?
    && (now.syncNeeded
        || (hash(Named(beats[i].collected.value)) != last
            && beats[i].now - sent >= (if now.intervalMin <= 0 then 10 else now.intervalMin) * MINUTE))
  }

  ghost predicate ListSentBefore(s: State, beats: seq<Beat>, n: nat, hash: Services -> string) {
    n <= |beats| && exists i: nat :: i < n && RequestAt(s, beats, i, hash).list.Some?
  }

  ghost predicate ListDueBefore(s: State, beats: seq<Beat>, n: nat, hash: Services -> string, sent: Time,
                                last: string) {
    exists i: nat :: i < n && ListIsDue(s, beats, i, hash, sent, last)
  }

  lemma {:induction false} ListSentIffDue(s: State, beats: seq<Beat>, n: nat, hash: Services -> string)
    requires n <= |beats| && s.lastSent.Some? && s.lastHash != ""
    ensures ListSentBefore(s, beats, n, hash) <==> ListDueBefore(s, beats, n, hash, s.lastSent.value, s.lastHash)
    ensures !ListSentBefore(s, beats, n, hash) ==>
      StateAt(s, beats, n, hash).lastSent == s.lastSent && StateAt(s, beats, n, hash).lastHash == s.lastHash
  {
    if n > 0 {
      var i := n - 1;
      ListSentIffDue(s, beats, i, hash);
      var sent := RequestAt(s, beats, i, hash).list.Some?;
      var due := ListIsDue(s, beats, i, hash, s.lastSent.value, s.lastHash);
      assert !ListSentBefore(s, beats, i, hash) ==> (sent <==> due);
      assert ListSentBefore(s, beats, n, hash) <==> ListSentBefore(s, beats, i, hash) || sent;
      assert ListDueBefore(s, beats, n, hash, s.lastSent.value, s.lastHash)
        <==> ListDueBefore(s, beats, i, hash, s.lastSent.value, s.lastHash) || due;
    }
  }

  /** A list is remembered as sent even when its request got no answer: over any beats that follow,
      at any times, another list is sent exactly when the server asks for one or a later collection,
      after the interval, has another hash. */
  lemma LostListIff(s: State, lost: Beat, beats: seq<Beat>, hash: Services -> string)
    requires Hashes(hash) && lost.response == None && AfterBeat(s, lost, hash).1.list.Some?
    ensures var after, h := AfterBeat(s, lost, hash).0, AfterBeat(s, lost, hash).1.hash;
            ListSentBefore(after, beats, |beats|, hash) <==> ListDueBefore(after, beats, |beats|, hash, lost.now, h)
  {
    ListSentIffDue(AfterBeat(s, lost, hash).0, beats, |beats|, hash);
  }

  /** No response so far asks for a sync. */
  ghost predicate NotAsked(beats: seq<Beat>, n: nat) {
    forall i | 0 <= i < n && i < |beats| && beats[i].response.Some? ::
      beats[i].response.value.syncRequired != Some(true)
  }

  lemma {:induction false} NotAskedNoSync(s: State, beats: seq<Beat>, n: nat, hash: Services -> string)
    requires n <= |beats| && !s.syncNeeded && NotAsked(beats, n)
    ensures !StateAt(s, beats, n, hash).syncNeeded
  {
    if n > 0 { NotAskedNoSync(s, beats, n - 1, hash); }
  }

  /** So it is never sent again while nobody asks and the services stay the same. */
  lemma LostListIsNotResent(s: State, lost: Beat, beats: seq<Beat>, i: nat, hash: Services -> string)
    requires Hashes(hash) && !s.syncNeeded && lost.response == None && AfterBeat(s, lost, hash).1.list.Some?
    requires i < |beats| && NotAsked(beats, i)
    requires forall k | 0 <= k <= i && beats[k].collected.Some? ::
               hash(Named(beats[k].collected.value)) == AfterBeat(s, lost, hash).1.hash
    ensures RequestAt(AfterBeat(s, lost, hash).0, beats, i, hash).list == None
  {
    var after, h := AfterBeat(s, lost, hash).0, AfterBeat(s, lost, hash).1.hash;
    ListSentIffDue(after, beats, i + 1, hash);
    forall k: nat | k <= i ensures !ListIsDue(after, beats, k, hash, lost.now, h) {
      NotAskedNoSync(after, beats, k, hash);
    }
  }

  /** The next list after a lost one has a reason: a sync was asked for, or the hash is another one. */
  lemma NextListHasReason(s: State, lost: Beat, beats: seq<Beat>, i: nat, hash: Services -> string)
    requires Hashes(hash) && !s.syncNeeded && lost.response == None && AfterBeat(s, lost, hash).1.list.Some?
    requires i < |beats| && RequestAt(AfterBeat(s, lost, hash).0, beats, i, hash).list.Some?
    requires forall k: nat | k < i :: RequestAt(AfterBeat(s, lost, hash).0, beats, k, hash).list == None
    ensures !NotAsked(beats, i)
         || (beats[i].collected.Some? && hash(Named(beats[i].collected.value)) != AfterBeat(s, lost, hash).1.hash)
  {
    var after := AfterBeat(s, lost, hash).0;
    ListSentIffDue(after, beats, i, hash);
    if NotAsked(beats, i) { NotAskedNoSync(after, beats, i, hash); }
  }

  /** It does happen: the first list gets no answer, and an hour later, when the server answers
      again, the hash comes alone. */
  lemma FirstListIsLost(hash: Services -> string)
    requires Hashes(hash)
    ensures var beats := [Beat(0, None, SWITCHED_ON), Beat(MINUTE, Some([SPOOLER]), None),
                          Beat(61 * MINUTE, Some([SPOOLER]), ACCEPTED)];
            && RequestAt(START, beats, 1, hash) == Request(hash([SPOOLER]), Some([SPOOLER]))
            && RequestAt(START, beats, 2, hash) == Request(hash([SPOOLER]), None)
  {
    var beats := [Beat(0, None, SWITCHED_ON), Beat(MINUTE, Some([SPOOLER]), None),
                  Beat(61 * MINUTE, Some([SPOOLER]), ACCEPTED)];
    NamedOne(SPOOLER);
    assert StateAt(START, beats, 1, hash) == START.(enabled := true);
    assert StateAt(START, beats, 2, hash) == State(true, false, 10, Some(MINUTE), hash([SPOOLER]));
  }

  /** No response of the beats from..n-1 switches the snapshot or the sync off. */
  ghost predicate NotWithdrawn(beats: seq<Beat>, from: nat, n: nat) {
    forall i | from <= i < n && i < |beats| && beats[i].response.Some? ::
      beats[i].response.value.enabled != Some(false) && beats[i].response.value.syncRequired != Some(false)
  }

  lemma {:induction false} SyncStays(s: State, beats: seq<Beat>, from: nat, n: nat, hash: Services -> string)
    requires from <= n <= |beats| && NotWithdrawn(beats, from, n)
    requires StateAt(s, beats, from, hash).enabled && StateAt(s, beats, from, hash).syncNeeded
    ensures StateAt(s, beats, n, hash).enabled && StateAt(s, beats, n, hash).syncNeeded
    decreases n
  {
    if from < n { SyncStays(s, beats, from, n - 1, hash); }
  }

  /** Asking for a sync repairs it: until a response withdraws it or switches the snapshot off, every
      beat whose collection works carries the full list. */
  lemma SyncRepairs(s: State, beats: seq<Beat>, asked: nat, i: nat, hash: Services -> string)
    requires asked < i < |beats| && NotWithdrawn(beats, asked + 1, i)
    requires beats[asked].response.Some? && beats[asked].response.value.syncRequired == Some(true)
    requires StateAt(s, beats, asked + 1, hash).enabled && beats[i].collected.Some?
    ensures var r, items := RequestAt(s, beats, i, hash), Named(beats[i].collected.value);
            r == Request(hash(items), Some(items))
  {
    SyncStays(s, beats, asked + 1, i, hash);
  }
}
