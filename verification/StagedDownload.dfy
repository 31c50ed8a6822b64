/** Staging with the resumable download spelled out: what a server must answer for a version whose file
    is already complete, after a staging that failed later on. */
module StagedDownload {
  import opened Basics
  import opened FileHash
  import opened Files
  import opened SelfUpdate
  import opened Versions
  import D = Downloader

  /** How one download attempt leaves the staged file. */
  function Fetched(file: Option<Bytes>, t: D.Try): Download {
    var (left, written) := D.Attempt(file, t);
    if left == None || (written == None && left == file) then Refused
    else if written == None then Cut(left.value)
    else Complete(left.value)
  }

  function StagedFile(a: Agent, cfg: Config, o: Offer): Option<Bytes> {
    var path := StagedPath(cfg, o.version);
    if path in Disk0(a) then Some(Disk0(a)[path]) else None
  }

  /** One more staging of an offer: its download, and how the rest of it goes. */
  datatype Retry = Retry(t: D.Try, s: StageRun)

  function StageAgain(a: Agent, cfg: Config, hash: Bytes -> string, o: Offer, r: Retry): (Agent, Verdict) {
    Stage(a, cfg, hash, o, r.s.(download := Fetched(StagedFile(a, cfg, o), r.t)))
  }

  function AfterRetries(a: Agent, cfg: Config, hash: Bytes -> string, o: Offer, retries: seq<Retry>): Agent {
    if retries == [] then a
    else StageAgain(AfterRetries(a, cfg, hash, o, retries[..|retries| - 1]), cfg, hash, o, retries[|retries| - 1]).0
  }

  ghost predicate AllFrom(retries: seq<Retry>, server: D.Server) {
    forall i | 0 <= i < |retries| :: retries[i].t.server == server
  }

  /** After some retries from this server one more succeeds. */
  ghost predicate Succeeds(a: Agent, cfg: Config, hash: Bytes -> string, o: Offer, server: D.Server,
                           retries: seq<Retry>, last: Retry) {
    && AllFrom(retries, server) && last.t.server == server
    && StageAgain(AfterRetries(a, cfg, hash, o, retries), cfg, hash, o, last).1 == Done
  }

  /** Without an answer to a request past the end a staging of a complete file fails and changes nothing. */
  lemma RetryFails(a: Agent, cfg: Config, hash: Bytes -> string, o: Offer, payload: Bytes, r: Retry)
    requires payload != [] && StagedFile(a, cfg, o) == Some(payload) && D.Honours(r.t.server, payload)
    requires !D.AnswersPastEnd(r.t.server, payload)
    ensures StageAgain(a, cfg, hash, o, r).0 == a && StageAgain(a, cfg, hash, o, r).1 != Done
  {
    D.CompleteFileNeedsAnswer(r.t, payload);
  }

  lemma {:induction false} RetriesFail(a: Agent, cfg: Config, hash: Bytes -> string, o: Offer, payload: Bytes,
                                       server: D.Server, retries: seq<Retry>)
    requires payload != [] && StagedFile(a, cfg, o) == Some(payload) && D.Honours(server, payload)
    requires !D.AnswersPastEnd(server, payload) && AllFrom(retries, server)
    ensures AfterRetries(a, cfg, hash, o, retries) == a
  {
    if retries != [] {
      RetriesFail(a, cfg, hash, o, payload, server, retries[..|retries| - 1]);
      RetryFails(a, cfg, hash, o, payload, retries[|retries| - 1]);
    }
  }

  lemma AnsweredRetrySucceeds(a: Agent, cfg: Config, hash: Bytes -> string, o: Offer, payload: Bytes,
                              server: D.Server)
    requires payload != [] && StagedFile(a, cfg, o) == Some(payload) && D.AnswersPastEnd(server, payload)
    requires o.version != "" && o.url != "" && o.hash != "" && Matches(hash, payload, o.hash)
    requires o.force || IsNewer(o.version, a.loaded)
    ensures exists last :: Succeeds(a, cfg, hash, o, server, [], last)
  {
    var body := server(Some(|payload|)).body;
    var t := D.Try(1, server, false, [D.Read(|body|, false, false, |body|)]);
    assert body[..|body|] == body && D.CopiedTo(body, 0, t.script) == (|body|, true);
    assert [] + payload == payload && payload + [] == payload;
    assert D.Attempt(Some(payload), t).0 == Some(payload);
    assert Succeeds(a, cfg, hash, o, server, [], Retry(t, StageRun(false, Refused, false, false, Written)));
  }

  /** A staging whose file is complete and right, say because only its metadata could not be written, can
      succeed later exactly when the server answers the request for the rest with the whole payload or
      with an empty rest, as this system's server does.  A server that answers it with 416 keeps that
      version from ever being staged. */
  lemma CanStageAgainIff(a: Agent, cfg: Config, hash: Bytes -> string, o: Offer, payload: Bytes, server: D.Server)
    requires payload != [] && StagedFile(a, cfg, o) == Some(payload) && D.Honours(server, payload)
    requires o.version != "" && o.url != "" && o.hash != "" && Matches(hash, payload, o.hash)
    requires o.force || IsNewer(o.version, a.loaded)
    ensures (exists retries, last :: Succeeds(a, cfg, hash, o, server, retries, last))
       <==> D.AnswersPastEnd(server, payload)
  {
    if D.AnswersPastEnd(server, payload) {
      AnsweredRetrySucceeds(a, cfg, hash, o, payload, server);
    } else {
      forall retries, last ensures !Succeeds(a, cfg, hash, o, server, retries, last) {
        if AllFrom(retries, server) && last.t.server == server {
          RetriesFail(a, cfg, hash, o, payload, server, retries);
          RetryFails(a, cfg, hash, o, payload, last);
        }
      }
    }
  }

  /** This system's server is one of them, and a server with 416 is not. */
  lemma OwnServerStagesAgain(payload: Bytes)
    requires payload != []
    ensures D.AnswersPastEnd(D.OwnServer(payload), payload)
    ensures var strict := (range: Option<nat>) =>
              if range.Some? && range.value >= |payload| then D.Answer(416, []) else D.OwnServer(payload)(range);
            D.Honours(strict, payload) && !D.AnswersPastEnd(strict, payload)
  {
    assert D.Rest(payload, |payload|) == [];
  }

  /** Such a state is what a staging leaves whose metadata could not be written. */
  lemma FailedMetadataLeavesFile(a: Agent, cfg: Config, hash: Bytes -> string, o: Offer, payload: Bytes, s: StageRun)
    requires o.version != "" && o.url != "" && o.hash != "" && Matches(hash, payload, o.hash)
    requires o.force || IsNewer(o.version, a.loaded)
    requires !s.mkdirFails && s.download == Complete(payload) && !s.unreadable && s.metaWrite != Written
    ensures var (b, verdict) := Stage(a, cfg, hash, o, s);
            verdict == Refuse && StagedFile(b, cfg, o) == Some(payload) && b.loaded == a.loaded
  {}
}
