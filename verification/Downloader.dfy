/** The resumable, rate-limited download of internal/downloader/downloader.go. */
module Downloader {
  import opened Files
  import opened Basics

  /** What one read of the response body yields: up to `n` bytes, possibly together with the end
      of the body or a broken connection; whether the rate limiter then refuses; and how many of
      the bytes the file takes. */
  datatype Read = Read(n: nat, broken: bool, refused: bool, taken: nat)

  datatype Response = NoResponse | Answer(status: nat, body: Bytes)

  /** A server answers a request for everything (None) or from an offset on. */
  type Server = Option<nat> -> Response

  // ---------- Copying the body ----------

  /** How far into the body the copy loop gets from position `pos`, and whether it ends without an
      error.  A body that is cut short ends in a broken read. */
  function CopiedTo(body: Bytes, pos: nat, script: seq<Read>): (r: (nat, bool))
    requires pos <= |body|
    ensures pos <= r.0 <= |body| && (r.1 ==> r.0 == |body|)
    decreases |script|
  {
    if script == [] then (pos, false)
    else
      var r := script[0];
      var n := Min(r.n, |body| - pos);
      if n > 0 && r.refused then (pos, false)
      else if r.taken < n then (pos + r.taken, false)
      else if r.broken then (pos + n, false)
      else if pos + n == |body| then (|body|, true)
      else CopiedTo(body, pos + n, script[1..])
  }

  // ---------- One attempt ----------

  datatype Try = Try(limitKBps: int, server: Server, openFails: bool, script: seq<Read>)

  function RangeOf(file: Option<Bytes>): Option<nat> {
    if file.Some? && |file.value| > 0 then Some(|file.value|) else None
  }

  /** What the file holds just after it is opened. */
  function Opened(file: Option<Bytes>, status: nat): Bytes {
    if RangeOf(file).Some? && status == 206 then file.value else []
  }

  function Attempt(file: Option<Bytes>, t: Try): (Option<Bytes>, Option<nat>) {
    var answer := t.server(RangeOf(file));
    if t.limitKBps <= 0 || answer.NoResponse? || answer.status !in {200, 206} || t.openFails then (file, None)
    else
      var (n, ok) := CopiedTo(answer.body, 0, t.script);
      (Some(Opened(file, answer.status) + answer.body[..n]), if ok then Some(n) else None)
  }

  class Download {
    var file: Option<Bytes>

    /** The rate-limited reader: a refusal drops the bytes that were read. */
    method ReadLimited(body: Bytes, pos: nat, r: Read) returns (n: nat, ended: bool, failed: bool)
      requires pos <= |body|
      ensures n <= |body| - pos
      ensures var m := Min(r.n, |body| - pos);
              if m > 0 && r.refused then n == 0 && failed && !ended
              else n == m && failed == r.broken && ended == (!r.broken && pos + m == |body|)
    {
      n := Min(r.n, |body| - pos);
      failed := r.broken;
      ended := !r.broken && pos + n == |body|;
      if n > 0 {
        if r.refused { return 0, false, true; }
      }
    }

    method CopyBody(body: Bytes, script: seq<Read>) returns (written: nat, ok: bool)
      requires file.Some?
      modifies this
      ensures (written, ok) == CopiedTo(body, 0, script) && file == Some(old(file.value) + body[..written])
    {
      var i := 0;
      written := 0;
      assert script[0..] == script && old(file.value) + body[..0] == old(file.value);
      while i < |script|
        invariant 0 <= i <= |script| && written <= |body|
        invariant file == Some(old(file.value) + body[..written])
        invariant CopiedTo(body, written, script[i..]) == CopiedTo(body, 0, script)
      {
        assert script[i..][0] == script[i] && script[i..][1..] == script[i + 1..];
        var n, ended, failed := ReadLimited(body, written, script[i]);
        var taken := Min(script[i].taken, n);
        assert body[..written] + body[written..written + taken] == body[..written + taken];
        file := Some(file.value + body[written..written + taken]);
        assert file.value == old(file.value) + body[..written + taken];
        written := written + taken;
        if taken < n || failed { return written, false; }
        if ended { return written, true; }
        i := i + 1;
      }
      ok := false;
    }

    method DownloadFileWithMeta(limitKBps: int, server: Server, openFails: bool, script: seq<Read>)
      returns (written: Option<nat>)
      modifies this
      ensures (file, written) == Attempt(old(file), Try(limitKBps, server, openFails, script))
    {
      if limitKBps <= 0 { return None; }
      var resumeOffset := if file.Some? then |file.value| else 0;
      var answer := server(if resumeOffset > 0 then Some(resumeOffset) else None);
      if answer.NoResponse? { return None; }
      if answer.status != 200 && answer.status != 206 { return None; }
      if openFails { return None; }
      if !(resumeOffset > 0 && answer.status == 206) { file := Some([]); }
      var n, ok := CopyBody(answer.body, script);
      written := if ok then Some(n) else None;
    }
  }

  // ---------- Exactly when a copy and an attempt succeed ----------

  /** How many bytes the first k reads bring when nothing stops them. */
  function Sum(script: seq<Read>, k: nat): nat
    requires k <= |script|
  {
    if k == 0 then 0 else Sum(script, k - 1) + script[k - 1].n
  }

  /** How many bytes of the body are left for read i. */
  function Yield(body: Bytes, script: seq<Read>, i: nat): nat
    requires i < |script|
  {
    if Sum(script, i) >= |body| then 0 else Min(script[i].n, |body| - Sum(script, i))
  }

  /** Read i is neither refused by the limiter nor broken, and the file takes all of it. */
  predicate CleanAt(body: Bytes, script: seq<Read>, i: nat)
    requires i < |script|
  {
    var n := Yield(body, script, i);
    !(n > 0 && script[i].refused) && script[i].taken >= n && !script[i].broken
  }

  ghost predicate CleanUpTo(body: Bytes, script: seq<Read>, k: nat)
    requires k <= |script|
  {
    forall i: nat | i < k :: CleanAt(body, script, i)
  }

  /** The reads reach the end of the body and are clean up to there. */
  ghost predicate ReadsAll(body: Bytes, script: seq<Read>) {
    exists k: nat :: 0 < k <= |script| && Sum(script, k) >= |body| && CleanUpTo(body, script, k)
  }

  /** Read i is the first one that is not clean, and the body does not end before it. */
  ghost predicate StopsAt(body: Bytes, script: seq<Read>, i: nat) {
    && i < |script| && (i == 0 || Sum(script, i) < |body|)
    && CleanUpTo(body, script, i) && !CleanAt(body, script, i)
  }

  /** What has reached the file after such a read: nothing of it when it was refused. */
  function LandedAt(body: Bytes, script: seq<Read>, i: nat): nat
    requires i < |script|
  {
    var n := Yield(body, script, i);
    Sum(script, i) + if n > 0 && script[i].refused then 0 else Min(script[i].taken, n)
  }

  lemma {:induction false} SumGrows(script: seq<Read>, i: nat, k: nat)
    requires i <= k <= |script|
    ensures Sum(script, i) <= Sum(script, k)
    decreases k
  {
    if i < k { SumGrows(script, i, k - 1); }
  }

  /** Clean reads that have not reached the end of the body bring the loop to the next read. */
  lemma {:induction false} CleanReadsGoOn(body: Bytes, script: seq<Read>, k: nat)
    requires k <= |script| && CleanUpTo(body, script, k) && (k == 0 || Sum(script, k) < |body|)
    ensures Sum(script, k) <= |body|
    ensures CopiedTo(body, 0, script) == CopiedTo(body, Sum(script, k), script[k..])
  {
    if k > 0 {
      SumGrows(script, k - 1, k);
      CleanReadsGoOn(body, script, k - 1);
      assert script[k - 1..][0] == script[k - 1] && script[k - 1..][1..] == script[k..];
      assert CleanAt(body, script, k - 1);
    } else {
      assert script[0..] == script;
    }
  }

  lemma {:induction false} FirstToReach(script: seq<Read>, size: nat, k: nat) returns (first: nat)
    requires 0 < k <= |script| && Sum(script, k) >= size
    ensures 0 < first <= k && Sum(script, first) >= size && (first == 1 || Sum(script, first - 1) < size)
  {
    first := k;
    if k > 1 && Sum(script, k - 1) >= size { first := FirstToReach(script, size, k - 1); }
  }

  lemma CopyEnds(body: Bytes, script: seq<Read>)
    requires ReadsAll(body, script)
    ensures CopiedTo(body, 0, script) == (|body|, true)
  {
    var k: nat :| 0 < k <= |script| && Sum(script, k) >= |body| && CleanUpTo(body, script, k);
    var first := FirstToReach(script, |body|, k);
    var last := first - 1;
    CleanReadsGoOn(body, script, last);
    assert script[last..][0] == script[last] && CleanAt(body, script, last);
  }

  /** A copy that meets a read which is not clean stops there, with what had arrived. */
  lemma CopyStopsAt(body: Bytes, script: seq<Read>, i: nat)
    requires StopsAt(body, script, i)
    ensures LandedAt(body, script, i) <= |body| && CopiedTo(body, 0, script) == (LandedAt(body, script, i), false)
  {
    CleanReadsGoOn(body, script, i);
    assert script[i..][0] == script[i];
  }

  /** One of three ways: the whole body, a read that is not clean, or a body that never ends. */
  lemma {:induction false} HowReadsGo(body: Bytes, script: seq<Read>, k: nat)
    requires k <= |script|
    ensures
      || (exists i: nat :: i < k && StopsAt(body, script, i))
      || (exists j: nat :: 0 < j <= k && Sum(script, j) >= |body| && CleanUpTo(body, script, j))
      || ((k == 0 || Sum(script, k) < |body|) && CleanUpTo(body, script, k))
  {
    if k > 0 {
      HowReadsGo(body, script, k - 1);
      if (k == 1 || Sum(script, k - 1) < |body|) && CleanUpTo(body, script, k - 1) {
        if !CleanAt(body, script, k - 1) { assert StopsAt(body, script, k - 1); }
      }
    }
  }

  /** A copy ends well exactly when its reads reach the end of the body with none of them refused,
      broken or short. */
  lemma CopySucceedsIff(body: Bytes, script: seq<Read>)
    ensures CopiedTo(body, 0, script).1 <==> ReadsAll(body, script)
  {
    if ReadsAll(body, script) {
      CopyEnds(body, script);
    } else {
      HowReadsGo(body, script, |script|);
      if i: nat :| i < |script| && StopsAt(body, script, i) {
        CopyStopsAt(body, script, i);
      } else {
        CleanReadsGoOn(body, script, |script|);
        assert script[|script|..] == [];
      }
    }
  }

  /** The answer is taken: the rate limit is positive, the status is 200 or 206, and the file opens. */
  predicate IsTaken(answer: Response, t: Try) {
    t.limitKBps > 0 && answer.Answer? && (answer.status == 200 || answer.status == 206) && !t.openFails
  }

  /** Whatever file is there, none, empty or not: an attempt succeeds exactly when its answer is taken and
      its reads bring all of the body.  It then counts the body, which follows the old bytes when a 206
      answers for a file that has some, and is otherwise all there is. */
  lemma AttemptSucceedsIff(file: Option<Bytes>, t: Try)
    ensures
      var wanted := if file == None || file == Some([]) then None else Some(|file.value|);
      var (left, written) := Attempt(file, t);
      match t.server(wanted)
      case NoResponse => left == file && written == None
      case Answer(status, body) =>
        && (!IsTaken(Answer(status, body), t) ==> left == file)
        && (written.Some? <==> IsTaken(Answer(status, body), t) && ReadsAll(body, t.script))
        && (written.Some? ==>
              written == Some(|body|) && left == Some(if status == 206 && file.Some? then file.value + body else body))
  {
    var answer := t.server(RangeOf(file));
    if answer.Answer? {
      CopySucceedsIff(answer.body, t.script);
      var body := answer.body;
      assert body[..|body|] == body && [] + body == body;
    }
  }

  /** An attempt that stops at a read keeps what had arrived, after the old bytes or instead of them. */
  lemma AttemptStopsAt(file: Option<Bytes>, t: Try, i: nat)
    requires var answer := t.server(RangeOf(file)); IsTaken(answer, t) && StopsAt(answer.body, t.script, i)
    ensures
      var answer := t.server(RangeOf(file));
      var landed := LandedAt(answer.body, t.script, i);
      landed <= |answer.body| && Attempt(file, t).1 == None
      && Attempt(file, t).0
         == Some(if answer.status == 206 && file.Some? then file.value + answer.body[..landed]
                 else answer.body[..landed])
  {
    var body := t.server(RangeOf(file)).body;
    CopyStopsAt(body, t.script, i);
    var landed := LandedAt(body, t.script, i);
    assert [] + body[..landed] == body[..landed];
  }

  // ---------- Any number of attempts against one payload ----------

  /** What is left of the payload from an offset on. */
  function Rest(payload: Bytes, from: nat): Bytes { if from <= |payload| then payload[from..] else [] }

  /** Sections 14.2 and 15.3.7 of RFC 9110 for a fixed payload: 200 carries all of it, and 206 is
      sent only for a requested range and carries that range or, as the RFC allows, only a beginning
      of it. */
  ghost predicate Honours(server: Server, payload: Bytes) {
    forall range: Option<nat> ::
      match server(range)
      case NoResponse => true
      case Answer(status, body) =>
        && (status == 200 ==> body == payload)
        && (status == 206 ==> range.Some? && body <= Rest(payload, range.value))
  }

  /** The answer ends where the payload ends, when the file holds `size` bytes. */
  predicate GoesToTheEnd(answer: Response, size: nat, payload: Bytes) {
    answer.Answer? && (answer.status == 200 || size + |answer.body| == |payload|)
  }

  function Run(file: Option<Bytes>, tries: seq<Try>): Option<Bytes> {
    if tries == [] then file else Attempt(Run(file, tries[..|tries| - 1]), tries[|tries| - 1]).0
  }

  ghost predicate IsPart(file: Option<Bytes>, payload: Bytes) { file.Some? ==> file.value <= payload }

  lemma PrefixIsWhole(part: Bytes, payload: Bytes)
    requires part <= payload
    ensures part == payload <==> |part| == |payload|
  {}

  /** One attempt keeps the file a prefix of the payload and does not shrink it when the answer is 206;
      a success completes it exactly when the answer goes to the end of the payload. */
  lemma AttemptKeepsPart(file: Option<Bytes>, t: Try, payload: Bytes)
    requires IsPart(file, payload) && Honours(t.server, payload)
    ensures IsPart(Attempt(file, t).0, payload)
    ensures file.Some? && t.server(RangeOf(file)).Answer? && t.server(RangeOf(file)).status == 206
            ==> Attempt(file, t).0.Some? && file.value <= Attempt(file, t).0.value
    ensures Attempt(file, t).1.Some? ==>
              var size := if file.Some? then |file.value| else 0;
              (Attempt(file, t).0 == Some(payload) <==> GoesToTheEnd(t.server(RangeOf(file)), size, payload))
  {
    var answer := t.server(RangeOf(file));
    if answer.Answer? && answer.status in {200, 206} {
      var n := CopiedTo(answer.body, 0, t.script).0;
      assert n == |answer.body| ==> answer.body[..n] == answer.body;
      if answer.status == 206 {
        assert file.value + payload[|file.value|..] == payload;
        var left := file.value + answer.body[..n];
        assert left <= payload;
        PrefixIsWhole(left, payload);
      } else {
        assert [] + answer.body[..n] == answer.body[..n];
      }
    }
  }

  /** After any attempts, cut off anywhere and answered 200 or 206 at will, the file is a prefix
      of the payload. */
  lemma {:induction false} RunKeepsPart(file: Option<Bytes>, tries: seq<Try>, payload: Bytes)
    requires IsPart(file, payload) && forall i | 0 <= i < |tries| :: Honours(tries[i].server, payload)
    ensures IsPart(Run(file, tries), payload)
  {
    if tries != [] {
      RunKeepsPart(file, tries[..|tries| - 1], payload);
      AttemptKeepsPart(Run(file, tries[..|tries| - 1]), tries[|tries| - 1], payload);
    }
  }

  /** An attempt of such a run that succeeds leaves exactly the payload exactly when its answer went to
      the end of it. */
  lemma SuccessIsCompleteIff(file: Option<Bytes>, tries: seq<Try>, last: Try, payload: Bytes)
    requires IsPart(file, payload) && Honours(last.server, payload)
    requires forall i | 0 <= i < |tries| :: Honours(tries[i].server, payload)
    requires Attempt(Run(file, tries), last).1.Some?
    ensures var before := Run(file, tries);
            var size := if before.Some? then |before.value| else 0;
            Run(file, tries + [last]) == Some(payload) <==> GoesToTheEnd(last.server(RangeOf(before)), size, payload)
  {
    assert (tries + [last])[|tries|] == last && (tries + [last])[..|tries|] == tries;
    RunKeepsPart(file, tries, payload);
    AttemptKeepsPart(Run(file, tries), last, payload);
  }

  /** The server of this system: everything without an offset, and otherwise all the rest as a 206, be
      it empty. */
  function OwnServer(payload: Bytes): Server {
    (range: Option<nat>) =>
      if range.Some? && range.value > 0 then Answer(206, Rest(payload, range.value)) else Answer(200, payload)
  }

  /** From it every success, after any cut-off attempts, leaves exactly the payload. */
  lemma OwnServerCompletes(file: Option<Bytes>, tries: seq<Try>, last: Try, payload: Bytes)
    requires IsPart(file, payload) && last.server == OwnServer(payload)
    requires forall i | 0 <= i < |tries| :: tries[i].server == OwnServer(payload)
    requires Attempt(Run(file, tries), last).1.Some?
    ensures Honours(OwnServer(payload), payload) && Run(file, tries + [last]) == Some(payload)
  {
    RunKeepsPart(file, tries, payload);
    SuccessIsCompleteIff(file, tries, last, payload);
  }

  /** It does happen that a success is incomplete: a server within its rights sends only one byte of the
      two that are missing. */
  lemma ShortAnswerSucceeds() returns (t: Try)
    ensures Honours(t.server, [1, 2, 3]) && t.server(Some(1)) == Answer(206, [2])
    ensures Attempt(Some([1]), t) == (Some([1, 2]), Some(1))
  {
    var part: Bytes := [2];
    var payload: Bytes := [1, 2, 3];
    assert Rest(payload, 1)[..1] == part && Rest(payload, 1) == part + [3];
    t := Try(1, (range: Option<nat>) => if range == Some(1) then Answer(206, part) else NoResponse, false,
             [Read(1, false, false, 1)]);
    assert part[..1] == part && Opened(Some([1]), 206) + part == [1, 2];
  }

  /** The code does not look at which range a 206 carries.  When the file is a beginning of the payload
      and the answer carries its bytes `first` to `end`, a success leaves the payload exactly when these
      are the bytes that were missing; so when one of the two ends is right, exactly when both are. */
  lemma ResumeIsExactIff(file: Bytes, t: Try, first: nat, end: nat, payload: Bytes)
    requires file != [] && file <= payload && first <= end <= |payload|
    requires t.server(Some(|file|)) == Answer(206, payload[first..end]) && Attempt(Some(file), t).1.Some?
    ensures Attempt(Some(file), t).0 == Some(payload) <==> payload[first..end] == payload[|file|..]
    ensures first == |file| || end == |payload| ==>
              (Attempt(Some(file), t).0 == Some(payload) <==> first == |file| && end == |payload|)
  {
    var body := payload[first..end];
    assert body[..|body|] == body;
    assert Attempt(Some(file), t).0 == Some(file + body);
    assert file + payload[|file|..] == payload;
    assert (file + body)[|file|..] == body;
    if file + body == payload { assert |body| == |payload| - |file|; }
  }

  /** It does happen: a server that always sends the last byte as a 206 turns the first byte of a
      three-byte payload into a two-byte file, and the download succeeds. */
  lemma WrongRangeSucceeds() returns (t: Try)
    ensures t.server(Some(1)) == Answer(206, [1, 2, 3][2..])
    ensures Attempt(Some([1]), t) == (Some([1, 3]), Some(1))
  {
    var tail: Bytes := [3];
    t := Try(1, (range: Option<nat>) => Answer(206, tail), false, [Read(1, false, false, 1)]);
    assert tail[..1] == tail;
    assert Opened(Some([1]), 206) + tail == [1, 3];
  }

  /** The server answers the request for what is missing after the last byte with everything, or with
      an empty rest. */
  predicate AnswersPastEnd(server: Server, payload: Bytes) {
    server(Some(|payload|)) == Answer(200, payload) || server(Some(|payload|)) == Answer(206, [])
  }

  /** A complete file can only be downloaded again from a server that does so; any other answer, 416
      among them, fails and leaves the file as it is. */
  lemma CompleteFileNeedsAnswer(t: Try, payload: Bytes)
    requires payload != [] && Honours(t.server, payload)
    ensures Attempt(Some(payload), t).1.Some? ==> AnswersPastEnd(t.server, payload)
    ensures !AnswersPastEnd(t.server, payload) ==> Attempt(Some(payload), t) == (Some(payload), None)
  {
    assert Rest(payload, |payload|) == [];
  }
}
