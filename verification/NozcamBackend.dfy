/** The client of the detector daemon: calls, restarts and their one safety
    property, that an accepted inference belongs to the frame just sent. */
module NozcamClient {
  import opened Bytes
  import opened PipeWire

  /** What one attempt at the pipe meets: some bytes can move, the deadline
      passes, a spurious wake-up, or a closed or failing pipe. */
  datatype IoEvent = Ready(upTo: nat) | DeadlinePassed | WouldBlock | Broken

  datatype CallError =
    | TimedOut
    | PipeFailed
    | Desynchronised(length: int)
    | DaemonError(status: int)
    | Mismatch
    | Escaped        // an error the caller does not handle as a bad reply
    | Unavailable

  predicate IsPipeError(e: CallError) { e.TimedOut? || e.PipeFailed? || e.Desynchronised? || e.DaemonError? }

  /** The fields beside the id: right in shape and range, wrong, or holding
      something that is no number where one is checked. */
  datatype Fields = WellShaped | Misshapen | NotNumbers

  /** A reply's text, as far as the client looks at it. */
  datatype Parsed = NotJson | NotObject | Object(reqId: Option<int>, fields: Fields)

  type Parser = seq<Octet> -> Parsed

  datatype Settings = Settings(scoreThreshold: real, sensitivity: real, cpus: seq<nat>)

  /** What another thread can ask of the backend. `running` is what a look at
      the process would say. */
  datatype Other = Asks(running: bool) | Stops(graceful: bool, running: bool) | Kills

  const PIPE_BUF := 4096   // a non-blocking write up to this size is all or nothing
  const MAX_ID := 0xFFFF_FFFF

  /** What every build of the daemon keeps to: all its replies are text, only
      a successful inference carries a request id, and that is the one it was
      sent. */
  ghost predicate Honest(d: Daemon, parse: Parser) {
    && Bounded(d)
    && (forall k: nat, r: Request :: TextReply(AnswerTo(d, k, r)))
    && parse(PONG).NotJson?
    && (forall k :: !parse(d.info(k)).NotObject? && (parse(d.info(k)).Object? ==> parse(d.info(k)).reqId.None?))
    && (forall k: nat, r: Request :: r.Infer? && d.outcome(k, r).status == 0 ==>
          parse(d.outcome(k, r).body) == Object(Some(r.reqId), WellShaped))
  }

  ghost function Offset(d: Daemon, reqs: seq<Request>, i: nat): nat
    requires Bounded(d) && i <= |reqs|
  {
    |Replies(d, reqs[..i], 0)|
  }

  lemma OffsetNext(d: Daemon, reqs: seq<Request>, i: nat)
    requires Bounded(d) && i < |reqs|
    ensures Offset(d, reqs, i + 1) == Offset(d, reqs, i) + 8 + |AnswerTo(d, i, reqs[i]).body|
    ensures Replies(d, reqs, 0)
         == Replies(d, reqs[..i], 0) + (Reply(AnswerTo(d, i, reqs[i])) + Replies(d, reqs[i + 1..], i + 1))
    ensures Offset(d, reqs, i + 1) <= |Replies(d, reqs, 0)|
  {
    hide AnswerTo;
    assert reqs[..i + 1] == reqs[..i] + [reqs[i]] && reqs == reqs[..i] + reqs[i..];
    RepliesSplit(d, reqs[..i], [reqs[i]], 0);
    RepliesSplit(d, reqs[..i], reqs[i..], 0);
    assert reqs[i..][0] == reqs[i] && reqs[i..][1..] == reqs[i + 1..];
    assert [reqs[i]][1..] == [];
    assert Replies(d, [reqs[i]], i) == Reply(AnswerTo(d, i, reqs[i]));
  }

  lemma OffsetAppend(d: Daemon, reqs: seq<Request>, r: Request, i: nat)
    requires Bounded(d) && i <= |reqs|
    ensures Offset(d, reqs + [r], i) == Offset(d, reqs, i)
  {
    assert (reqs + [r])[..i] == reqs[..i];
  }

  /** A position among the unread replies lies in exactly one of them. */
  lemma {:induction false} ReplyAround(d: Daemon, reqs: seq<Request>, done: nat, pos: nat) returns (j: nat)
    requires Bounded(d) && done < |reqs| && Offset(d, reqs, done) <= pos <= Offset(d, reqs, |reqs| - 1)
    ensures done <= j < |reqs| && Offset(d, reqs, j) <= pos
    ensures pos < Offset(d, reqs, j + 1) && (j == |reqs| - 1 ==> pos == Offset(d, reqs, j))
    decreases |reqs| - done
  {
    hide AnswerTo, Replies;
    OffsetNext(d, reqs, done);
    if done == |reqs| - 1 || pos < Offset(d, reqs, done + 1) {
      j := done;
    } else {
      j := ReplyAround(d, reqs, done + 1, pos);
    }
  }

  /** Eight good-looking bytes, read anywhere among the unread replies, stand
      at the start of one. */
  lemma GoodHeaderIsAligned(d: Daemon, parse: Parser, reqs: seq<Request>, done: nat, pos: nat) returns (j: nat)
    requires Honest(d, parse) && done < |reqs|
    requires Offset(d, reqs, done) <= pos <= Offset(d, reqs, |reqs| - 1)
    requires pos + 8 <= |Replies(d, reqs, 0)| && LooksGood(Replies(d, reqs, 0)[pos..pos + 8])
    ensures done <= j < |reqs| && pos == Offset(d, reqs, j)
  {
    hide LooksGood, Replies, Reply, TextReply, AnswerTo;
    j := ReplyAround(d, reqs, done, pos);
    var a := AnswerTo(d, j, reqs[j]);
    OffsetNext(d, reqs, j);
    var before, tail := Replies(d, reqs[..j], 0), Replies(d, reqs[j + 1..], j + 1);
    var at := pos - |before|;
    if at > 0 {
      assert TextReply(a);
      var all := before + (Reply(a) + tail);
      assert all[pos..pos + 8] == (Reply(a) + tail)[at..at + 8];
      ReplySize(a);
      MisalignedHeader(a, tail, at);
    }
  }

  lemma ReplySize(a: Answer)
    requires Framable(a)
    ensures |Reply(a)| == 8 + |a.body|
  {
  }

  /** Reading from the start of a reply reads that reply. */
  lemma AlignedRead(d: Daemon, reqs: seq<Request>, j: nat)
    requires Bounded(d) && j < |reqs|
    ensures var a, out, pos := AnswerTo(d, j, reqs[j]), Replies(d, reqs, 0), Offset(d, reqs, j);
            pos + 8 + |a.body| == Offset(d, reqs, j + 1) <= |out|
            && UnLe(out[pos..pos + 8][0..4]) == a.status
            && UnLe(out[pos..pos + 8][4..8]) == |a.body|
            && out[pos + 8..pos + 8 + |a.body|] == a.body
  {
    hide Replies, AnswerTo, UnLe, Le;
    var a := AnswerTo(d, j, reqs[j]);
    OffsetNext(d, reqs, j);
    var before, tail := Replies(d, reqs[..j], 0), Replies(d, reqs[j + 1..], j + 1);
    var out, pos := Replies(d, reqs, 0), |before|;
    var h, rest := Header(a.status, |a.body|), a.body + tail;
    assert out == before + (h + rest) by {
      assert h + a.body + tail == h + rest;
    }
    HeaderDecodes(a.status, |a.body|, []);
    assert h + [] == h;
    assert out[pos..pos + 8] == h;
    assert out[pos + 8..pos + 8 + |a.body|] == a.body;
  }

  lemma HonestIsBounded(d: Daemon, parse: Parser)
    requires Honest(d, parse)
    ensures Bounded(d)
  {
  }

  lemma {:induction false} OffsetsGrow(d: Daemon, reqs: seq<Request>, i: nat, j: nat)
    requires Bounded(d) && i <= j <= |reqs|
    ensures Offset(d, reqs, i) <= Offset(d, reqs, j)
    decreases j - i
  {
    hide Replies, AnswerTo;
    if i < j {
      OffsetNext(d, reqs, i);
      OffsetsGrow(d, reqs, i + 1, j);
    }
  }

  lemma FreshChannel(d: Daemon, parse: Parser)
    requires Honest(d, parse)
    ensures Serve(d, [], 0) == [] == EncodeAll([]) && Offset(d, [], 0) == 0
  {
  }

  /** What the daemon writes for whole requests, and where its last reply ends. */
  lemma WholeOffset(d: Daemon, parse: Parser, reqs: seq<Request>)
    requires Honest(d, parse) && forall i :: 0 <= i < |reqs| ==> Sendable(reqs[i])
    ensures Serve(d, EncodeAll(reqs), 0) == Replies(d, reqs, 0)
    ensures Offset(d, reqs, |reqs|) == |Replies(d, reqs, 0)|
  {
    Lockstep(d, reqs, 0);
    assert reqs[..|reqs|] == reqs;
  }

  /** Sending one more request moves no earlier reply. */
  lemma OneMore(d: Daemon, parse: Parser, was: seq<Request>, req: Request)
    requires Honest(d, parse) && Sendable(req) && forall i :: 0 <= i < |was| ==> Sendable(was[i])
    ensures EncodeAll(was + [req]) == EncodeAll(was) + Encode(req)
    ensures forall i :: 0 <= i <= |was| ==> Offset(d, was + [req], i) == Offset(d, was, i)
    ensures Serve(d, EncodeAll(was), 0) == Replies(d, was, 0)
    ensures Offset(d, was, |was|) == |Replies(d, was, 0)|
  {
    hide Encode, Replies;
    EncodeAllAppend(was, req);
    WholeOffset(d, parse, was);
    forall i | 0 <= i <= |was| ensures Offset(d, was + [req], i) == Offset(d, was, i) {
      OffsetAppend(d, was, req, i);
    }
  }

  /** The request that a call puts on the wire. */
  function RequestFor(cmd: Word, id: nat, rect: Rect, pixels: seq<Octet>): Request
    requires id <= MAX_ID
  {
    if cmd == PING then Ping else if cmd == INFO then Info else Infer(id, rect, pixels)
  }

  /** How many bytes an answered call moves. */
  function CallSize(cmd: Word, pixels: seq<Octet>, a: Answer): nat { RequestSize(cmd, pixels) + 8 + |a.body| }

  /** How many bytes the call writes. */
  function RequestSize(cmd: Word, pixels: seq<Octet>): nat { if cmd == INFER then 8 + PREFIX + |pixels| else 8 }

  function SizeOfRead(n: nat, remaining: nat, pending: nat): (k: nat)
    requires remaining > 0 && pending > 0
    ensures 0 < k <= remaining && k <= pending
  {
    var k := if n == 0 then 1 else if n < remaining then n else remaining;
    if k < pending then k else pending
  }

  /** How often the system will let bytes move before a deadline or a failure. */
  function Readies(script: seq<IoEvent>): (n: nat) {
    if script == [] || script[0].DeadlinePassed? || script[0].Broken? then 0
    else (if script[0].Ready? then 1 else 0) + Readies(script[1..])
  }

  function Backoff(failures: nat): real {
    match failures
    case 0 => 0.0
    case 1 => 1.0
    case 2 => 5.0
    case _ => 30.0
  }

  // ---- request ids -------------------------------------------------------

  function NextId(id: nat): (n: nat)
    ensures 1 <= n <= MAX_ID
  {
    id % MAX_ID + 1
  }

  /** How many ids ago this one was drawn. */
  function Age(id: nat, now: nat): nat
    requires 1 <= id <= MAX_ID && now <= MAX_ID
  {
    if id <= now then now - id else now + MAX_ID - id
  }

  /** Ids stay in 1..2^32-1, skip 0, and come round only after all the others. */
  lemma IdsComeRound(id: nat, now: nat)
    requires 1 <= id <= MAX_ID && now <= MAX_ID
    ensures 1 <= NextId(now) <= MAX_ID && Age(NextId(now), NextId(now)) == 0
    ensures id == NextId(now) <==> Age(id, now) == MAX_ID - 1
    ensures Age(id, NextId(now)) <= Age(id, now) + 1
  {
  }

  /** One of the last `drawn` ids, if it has one. */
  predicate Recent(r: Request, now: nat, drawn: nat)
    requires now <= MAX_ID
  {
    r.Infer? ==> 1 <= r.reqId && Age(r.reqId, now) < drawn
  }

  class NozcamBackend {
    const parse: Parser
    const validInfo: seq<Octet> -> bool
    const probe: seq<Octet>

    var proc: Option<Daemon>
    var sent: seq<Octet>     // written to this process's stdin
    var taken: nat           // read from its stdout
    var reqId: nat
    var lastReqId: Option<int>
    var live: Option<Settings>
    var failCount: nat
    var retryAfter: real
    var script: seq<IoEvent> // what the operating system will do next
    ghost var reqs: seq<Request>
    ghost var done: nat
    ghost var drawn: nat     // ids drawn since this process started
    ghost var torn: bool     // a request was left part-written
    ghost var started: seq<Daemon>   // every process so far

    /** Everything the daemon will have written for what it has been sent. */
    function Out(): seq<Octet>
      requires proc.Some? && Bounded(proc.value)
      reads this`proc, this`sent
    {
      Serve(proc.value, sent, 0)
    }

    /** What every locked step keeps, failed ones included. */
    ghost predicate Valid()
      reads this`proc, this`sent, this`taken, this`reqs, this`done, this`reqId, this`drawn, this`torn
    {
      && reqId <= MAX_ID && |probe| + PREFIX < 0x1_0000_0000
      && (proc.Some? ==>
            Honest(proc.value, parse) && taken <= |Out()| && (!torn ==> Synced()))
    }

    /** Whole requests were sent, the replies before `done` have been read, and
        the unread ones carry recent ids. */
    ghost predicate Synced()
      requires proc.Some? && Bounded(proc.value) && reqId <= MAX_ID
      reads this`proc, this`sent, this`taken, this`reqs, this`done, this`reqId, this`drawn
    {
      && SentAll()
      && done <= |reqs| && Offset(proc.value, reqs, done) <= taken
      && forall i :: done <= i < |reqs| ==> Recent(reqs[i], reqId, drawn)
    }

    ghost predicate SentAll()
      reads this`sent, this`reqs
    {
      (forall i :: 0 <= i < |reqs| ==> Sendable(reqs[i])) && sent == EncodeAll(reqs)
    }

    /** No unread reply carries the id that will be drawn next. */
    ghost predicate IdIsNew()
      reads this`reqs, this`done, this`reqId
    {
      forall i :: 0 <= done <= i < |reqs| && reqs[i].Infer? ==> reqs[i].reqId != NextId(reqId)
    }

    /** Whole requests only, and no unread inference: how a caller that never
        leaves a failed exchange behind always finds the pipe. */
    ghost predicate Ready()
      reads this`proc, this`reqs, this`done, this`torn
    {
      proc.Some? ==> !torn && forall i :: 0 <= done <= i < |reqs| ==> !reqs[i].Infer?
    }

    ghost predicate Aligned()
      requires proc.Some? && Bounded(proc.value)
      reads this`proc, this`sent, this`taken, this`reqs, this`done
    {
      taken == |Out()|
    }

    /** Short of 2^32-1 inferences by one process, ids are always new. */
    lemma YoungIdsAreNew()
      requires Valid() && proc.Some? && !torn && drawn < MAX_ID
      ensures IdIsNew()
    {
      hide Honest, Serve, Offset, EncodeAll;
      forall i | 0 <= done <= i < |reqs| && reqs[i].Infer? ensures reqs[i].reqId != NextId(reqId) {
        assert Recent(reqs[i], reqId, drawn);
        if reqs[i].reqId <= MAX_ID {
          IdsComeRound(reqs[i].reqId, reqId);
        }
      }
    }

    constructor (parse: Parser, validInfo: seq<Octet> -> bool, probe: seq<Octet>, script: seq<IoEvent>)
      requires |probe| + PREFIX < 0x1_0000_0000
      ensures Valid() && Ready() && proc.None? && reqId == 0
    {
      this.parse, this.validInfo, this.probe, this.script := parse, validInfo, probe, script;
      proc, live, lastReqId := None, None, None;
      sent, taken, reqId, failCount, retryAfter := [], 0, 0, 0, 0.0;
      reqs, done, drawn, torn, started := [], 0, 0, false, [];
    }

    // ---- bytes -----------------------------------------------------------

    /** Writes every byte, or stops part way. */
    method WriteExact(data: seq<Octet>) returns (r: Result<(), CallError>)
      modifies this`sent, this`script
      ensures old(sent) <= sent
      ensures r.Ok? ==> sent == old(sent) + data
      ensures r.Err? && |data| <= PIPE_BUF ==> sent == old(sent)
      ensures r.Err? ==> r.error.TimedOut? || r.error.PipeFailed?
      ensures r.Err? ==> Readies(old(script)) < |data|
      ensures r.Ok? ==> Readies(script) + |data| >= Readies(old(script))
    {
      var done := 0;
      assert old(sent) + data[..0] == sent;
      while done < |data|
        invariant 0 <= done <= |data| && sent == old(sent) + data[..done]
        invariant |data| <= PIPE_BUF ==> done == 0 || done == |data|
        invariant Readies(script) + done >= Readies(old(script))
        decreases |data| - done, |script|
      {
        var event := NextEvent();
        match event
        case DeadlinePassed => return Err(TimedOut);
        case Broken => return Err(PipeFailed);
        case WouldBlock =>
        case Ready(n) =>
          var left := |data| - done;
          var moved := if left <= PIPE_BUF then left else if n == 0 then 1 else if n < left then n else left;
          sent := sent + data[done..done + moved];
          assert data[..done] + data[done..done + moved] == data[..done + moved];
          done := done + moved;
      }
      assert data[..|data|] == data;
      return Ok(());
    }

    method NextEvent() returns (e: IoEvent)
      modifies this`script
      ensures if old(script) == [] then script == [] && e.DeadlinePassed?
              else script == old(script)[1..] && e == old(script)[0]
    {
      if script == [] {
        return DeadlinePassed;
      }
      e := script[0];
      script := script[1..];
    }

    /** Reads exactly `count` bytes, or stops part way and loses what it had. */
    method ReadExact(count: nat) returns (r: Result<seq<Octet>, CallError>)
      requires proc.Some? && Bounded(proc.value) && taken <= |Out()|
      modifies this`taken, this`script
      ensures old(taken) <= taken <= |Out()|
      ensures r.Ok? ==> taken == old(taken) + count && r.value == Out()[old(taken)..taken]
      ensures r.Err? ==> r.error.TimedOut? || r.error.PipeFailed?
      ensures r.Err? ==> Readies(old(script)) < count || |Out()| < old(taken) + count
      ensures r.Ok? ==> Readies(script) + count >= Readies(old(script))
    {
      hide Serve;
      var chunks := [];
      var remaining := count;
      while remaining > 0
        invariant 0 <= remaining <= count && taken == old(taken) + (count - remaining) <= |Out()|
        invariant chunks == Out()[old(taken)..taken]
        invariant Readies(script) + (count - remaining) >= Readies(old(script))
        decreases remaining, |script|
      {
        var event := NextEvent();
        match event
        case DeadlinePassed => return Err(TimedOut);
        case Broken => return Err(PipeFailed);
        case WouldBlock =>
        case Ready(n) =>
          var pending := |Out()| - taken;
          if pending == 0 {
            return Err(TimedOut);   // nothing more will ever come
          }
          var size := SizeOfRead(n, remaining, pending);
          chunks := chunks + Out()[taken..taken + size];
          taken := taken + size;
          remaining := remaining - size;
      }
      return Ok(chunks);
    }

    // ---- one call --------------------------------------------------------

    /** A request has just been sent behind the unread ones. */
    ghost predicate Waiting()
      requires proc.Some? && Bounded(proc.value)
      reads this`proc, this`sent, this`taken, this`reqs, this`done
    {
      && SentAll() && done < |reqs|
      && Offset(proc.value, reqs, done) <= taken <= Offset(proc.value, reqs, |reqs| - 1)
    }

    /** Everything before the last request's reply has been read. */
    ghost predicate AtLast()
      requires proc.Some? && Bounded(proc.value)
      reads this`proc, this`taken, this`reqs
    {
      reqs != [] && taken == Offset(proc.value, reqs, |reqs| - 1)
    }

    /** What the daemon answers to the last request. */
    ghost function LastAnswer(): Answer
      requires proc.Some? && Bounded(proc.value) && reqs != []
      reads this`proc, this`reqs
    {
      AnswerTo(proc.value, |reqs| - 1, reqs[|reqs| - 1])
    }

    /** What the daemon will answer to this call. */
    ghost function Answering(cmd: Word, pixels: seq<Octet>, rect: Rect): Answer
      requires proc.Some? && Bounded(proc.value) && reqId <= MAX_ID
      reads this`proc, this`reqs, this`reqId
    {
      AnswerTo(proc.value, |reqs|, RequestFor(cmd, if cmd == INFER then NextId(reqId) else reqId, rect, pixels))
    }

    /** The pipe is clean and the system willing, and the daemon grants the call. */
    ghost predicate Granted(cmd: Word, pixels: seq<Octet>, rect: Rect)
      reads this`proc, this`sent, this`taken, this`reqs, this`done, this`reqId, this`torn, this`script
    {
      && proc.Some? && Bounded(proc.value) && reqId <= MAX_ID && !torn && Aligned()
      && Answering(cmd, pixels, rect).status == 0
      && Readies(script) >= CallSize(cmd, pixels, Answering(cmd, pixels, rect))
    }

    /** The first `done` replies are read to their end, the last of them a
        success carrying `body`. */
    ghost predicate JustRead(body: seq<Octet>)
      reads this`proc, this`sent, this`taken, this`reqs, this`done
    {
      proc.Some? && Bounded(proc.value) && 0 < done <= |reqs|
      && AnswerTo(proc.value, done - 1, reqs[done - 1]) == Answer(0, body)
      && taken == Offset(proc.value, reqs, done) <= |Out()|
    }

    /** The daemon refused the last request. */
    ghost predicate LastRefused()
      reads this`proc, this`reqs
    {
      proc.Some? && Bounded(proc.value) && reqs != []
      && AnswerTo(proc.value, |reqs| - 1, reqs[|reqs| - 1]).status != 0
    }

    /** One framed exchange. When it answers, and nothing part-written is in
        the way, it has read one whole reply: to this request or to an earlier
        one that was given up. */
    method CallLocked(cmd: Word, pixels: seq<Octet>, rect: Rect) returns (r: Result<seq<Octet>, CallError>)
      requires Valid() && proc.Some?
      requires cmd == PING || cmd == INFO || cmd == INFER
      requires cmd != INFER ==> pixels == []
      requires Int32Rect(rect) && PREFIX + |pixels| < 0x1_0000_0000
      modifies this
      ensures Valid()
      ensures proc == old(proc) && live == old(live) && failCount == old(failCount) && retryAfter == old(retryAfter)
      ensures reqId == if cmd == INFER then NextId(old(reqId)) else old(reqId)
      ensures started == old(started)
      ensures cmd == INFER ==> lastReqId == Some(reqId)
      ensures r.Err? ==> IsPipeError(r.error)
      ensures old(torn) ==> torn
      ensures cmd != INFER ==> torn == old(torn) && (old(Ready()) ==> Ready())
      ensures !torn ==> old(done) <= done && (reqs == old(reqs) || reqs == old(reqs) + [RequestFor(cmd, reqId, rect, pixels)])
      ensures r.Ok? && !old(torn) ==>
                !torn && reqs == old(reqs) + [RequestFor(cmd, reqId, rect, pixels)]
                && old(done) < done && JustRead(r.value)
      ensures r.Err? && !r.error.TimedOut? && !r.error.PipeFailed? && !old(torn) && old(done) == |old(reqs)| ==>
                reqs == old(reqs) + [RequestFor(cmd, reqId, rect, pixels)] && LastRefused()
      ensures old(Granted(cmd, pixels, rect)) ==>
                r == Result.Ok(old(Answering(cmd, pixels, rect)).body) && Aligned() && !torn
                && Readies(script) + CallSize(cmd, pixels, old(Answering(cmd, pixels, rect))) >= Readies(old(script))
    {
      hide JustRead, LastRefused, Readies;
      hide Honest, Serve, Replies, Encode, EncodeAll, AnswerTo, Offset, Recent, NextId;
      var sending := SendRequest(cmd, pixels, rect);
      if sending.Err? {
        return Err(sending.error);
      }
      r := ReadReply();
    }

    /** Header and payload. On success one more request has been sent; a failed
        INFO or PING has sent nothing; a failed INFER may leave part of one. */
    method SendRequest(cmd: Word, pixels: seq<Octet>, rect: Rect) returns (r: Result<(), CallError>)
      requires Valid() && proc.Some?
      requires cmd == PING || cmd == INFO || cmd == INFER
      requires cmd != INFER ==> pixels == []
      requires Int32Rect(rect) && PREFIX + |pixels| < 0x1_0000_0000
      modifies this`reqId, this`lastReqId, this`sent, this`script, this`reqs, this`drawn, this`torn
      ensures Valid()
      ensures reqId == if cmd == INFER then NextId(old(reqId)) else old(reqId)
      ensures cmd == INFER ==> lastReqId == Some(reqId)
      ensures old(torn) ==> torn
      ensures torn && cmd != INFER ==> old(torn)
      ensures r.Ok? ==> torn == old(torn)
      ensures r.Ok? && !torn ==> Waiting() && reqs == old(reqs) + [RequestFor(cmd, reqId, rect, pixels)]
      ensures r.Err? ==> reqs == old(reqs) && (r.error.TimedOut? || r.error.PipeFailed?)
      ensures r.Err? ==> Readies(old(script)) < RequestSize(cmd, pixels)
      ensures r.Ok? ==> Readies(script) + RequestSize(cmd, pixels) >= Readies(old(script))
      ensures r.Ok? && !torn && old(Aligned()) ==> AtLast()
    {
      hide Honest, Serve, Replies, EncodeAll, Offset, InferPayload, Header, Recent, NextId;
      HonestIsBounded(proc.value, parse);
      var payload := [];
      if cmd == INFER {
        DrawId();
        payload := InferPayload(reqId, rect, pixels);
      }
      ghost var req := RequestFor(cmd, reqId, rect, pixels);
      assert Encode(req) == Header(cmd, |payload|) + payload;
      var sending, begun := WriteMessage(Header(cmd, |payload|), payload);
      OutGrows(old(sent));
      if sending.Err? {
        torn := torn || begun;
        return sending;
      }
      if !torn {
        AddRequest(old(sent), old(reqs), req);
        assert Recent(req, reqId, drawn) by { JustDrawn(req, old(reqId), reqId, drawn); }
        reqs := reqs + [req];
      }
      return Ok(());
    }

    method DrawId()
      requires Valid()
      modifies this`reqId, this`lastReqId, this`drawn
      ensures Valid()
      ensures reqId == NextId(old(reqId)) && lastReqId == Some(reqId) && drawn == old(drawn) + 1
    {
      hide Honest, Serve, EncodeAll, Offset, Recent, NextId;
      reqId := NextId(reqId);
      lastReqId := Some(reqId);
      drawn := drawn + 1;
      RecentStays(reqs, done, old(reqId), old(drawn), reqId, drawn);
    }

    /** `begun` when some of the message went out: the header goes whole or not
        at all, so nothing but a payload can be cut. */
    method WriteMessage(head: seq<Octet>, payload: seq<Octet>) returns (r: Result<(), CallError>, begun: bool)
      requires |head| <= PIPE_BUF
      modifies this`sent, this`script
      ensures old(sent) <= sent
      ensures r.Ok? ==> sent == old(sent) + (head + payload)
      ensures r.Err? ==> (begun ==> payload != []) && (!begun ==> sent == old(sent))
      ensures r.Err? ==> r.error.TimedOut? || r.error.PipeFailed?
      ensures r.Err? ==> Readies(old(script)) < |head| + |payload|
      ensures r.Ok? ==> Readies(script) + |head| + |payload| >= Readies(old(script))
    {
      begun := false;
      r := WriteExact(head);
      if r.Ok? && payload != [] {
        begun := true;
        r := WriteExact(payload);
      }
      assert old(sent) + head + payload == old(sent) + (head + payload);
      assert head + [] == head;
    }

    lemma OutGrows(was: seq<Octet>)
      requires proc.Some? && Bounded(proc.value) && was <= sent
      ensures |Serve(proc.value, was, 0)| <= |Out()|
    {
      hide Serve;
      assert sent == was + sent[|was|..];
      ServeGrows(proc.value, was, sent[|was|..], 0);
    }

    /** What one more whole request does to the stream. */
    lemma AddRequest(before: seq<Octet>, was: seq<Request>, req: Request)
      requires proc.Some? && Honest(proc.value, parse) && Sendable(req)
      requires (forall i :: 0 <= i < |was| ==> Sendable(was[i])) && before == EncodeAll(was)
      requires sent == before + Encode(req)
      ensures sent == EncodeAll(was + [req])
      ensures forall i :: 0 <= i <= |was| ==> Offset(proc.value, was + [req], i) == Offset(proc.value, was, i)
      ensures Offset(proc.value, was, |was|) == |Serve(proc.value, before, 0)|
    {
      hide Encode, EncodeAll, Serve, Replies, Offset;
      OneMore(proc.value, parse, was, req);
    }

    /** Header, length check, body, status check. */
    method ReadReply() returns (r: Result<seq<Octet>, CallError>)
      requires Valid() && proc.Some? && (!torn ==> Waiting())
      modifies this`taken, this`script, this`done
      ensures Valid() && old(taken) <= taken
      ensures !torn ==> old(done) <= done
      ensures r.Err? ==> IsPipeError(r.error)
      ensures r.Ok? && !torn ==> old(done) < done && JustRead(r.value)
      ensures r.Err? && !r.error.TimedOut? && !r.error.PipeFailed? && !torn && old(done) == |reqs| - 1 ==> LastRefused()
      ensures !torn && old(AtLast()) && LastAnswer().status == 0 && Readies(old(script)) >= 8 + |LastAnswer().body| ==>
                r == Result.Ok(LastAnswer().body) && Aligned()
                && Readies(script) + 8 + |LastAnswer().body| >= Readies(old(script))
    {
      hide Honest, Serve, Replies, UnLe, AnswerTo, Offset, LastRefused, EncodeAll, Recent, Readies;
      HonestIsBounded(proc.value, parse);
      if !torn && AtLast() { LastReplyIs(); }
      var head := ReadExact(8);
      if head.Err? {
        return Err(head.error);
      }
      r := ReadRest(UnLe(head.value[0..4]), UnLe(head.value[4..8]), old(taken));
    }

    /** What is read from `pos` on is eight header bytes, just read, of the
        reply sought or of an unread one before it. */
    ghost predicate HeaderRead(pos: nat, status: Word, length: Word)
      requires proc.Some? && Bounded(proc.value)
      reads this`proc, this`sent, this`taken, this`reqs, this`done, this`torn
    {
      && pos + 8 == taken <= |Out()|
      && status == UnLe(Out()[pos..taken][0..4]) && length == UnLe(Out()[pos..taken][4..8])
      && (!torn ==> SentAll() && done < |reqs|
                    && Offset(proc.value, reqs, done) <= pos <= Offset(proc.value, reqs, |reqs| - 1))
    }

    /** Length check, body, status check. */
    method ReadRest(status: Word, length: Word, ghost pos: nat) returns (r: Result<seq<Octet>, CallError>)
      requires Valid() && proc.Some? && Bounded(proc.value) && HeaderRead(pos, status, length)
      modifies this`taken, this`script, this`done
      ensures Valid() && old(taken) <= taken
      ensures !torn ==> old(done) <= done
      ensures r.Err? ==> IsPipeError(r.error)
      ensures r.Ok? && !torn ==> old(done) < done && JustRead(r.value)
      ensures r.Err? && !r.error.TimedOut? && !r.error.PipeFailed? && !torn && old(done) == |reqs| - 1 ==> LastRefused()
      ensures r.Ok? ==> Readies(script) + length >= Readies(old(script))
      ensures status == 0 && length <= MAX_RESPONSE && Readies(old(script)) >= length
              && pos + 8 + length <= |Out()| ==>
                r == Result.Ok(Out()[pos + 8..pos + 8 + length]) && taken == pos + 8 + length
    {
      hide Honest, Serve, Replies, UnLe, AnswerTo, Offset, LastRefused, EncodeAll, Recent, Readies;
      if !torn {
        WholeOffset(proc.value, parse, reqs);
      }
      ghost var head := Out()[pos..taken];
      if length > MAX_RESPONSE {
        if !torn {
          FailureIsRefusal(pos, head);
        }
        return Err(Desynchronised(length));
      }
      var body := [];
      if length > 0 {
        var got := ReadExact(length);
        if got.Err? {
          return Err(got.error);
        }
        body := got.value;
      }
      assert body == Out()[pos + 8..taken];
      if status != 0 {
        if !torn {
          FailureIsRefusal(pos, head);
        }
        return Err(DaemonError(status));
      }
      if !torn {
        done := FinishReply(pos, head, body);
      }
      return Ok(body);
    }

    /** The last reply, from its header to the end of everything written. */
    lemma LastReplyIs()
      requires Valid() && proc.Some? && !torn && AtLast()
      ensures var a, out := LastAnswer(), Out();
              taken + 8 + |a.body| == |out| && |a.body| <= MAX_RESPONSE
              && UnLe(out[taken..taken + 8][0..4]) == a.status && UnLe(out[taken..taken + 8][4..8]) == |a.body|
              && out[taken + 8..taken + 8 + |a.body|] == a.body
    {
      hide Serve, Replies, UnLe, AnswerTo, Offset, EncodeAll, Recent;
      HonestIsBounded(proc.value, parse);
      WholeOffset(proc.value, parse, reqs);
      AlignedRead(proc.value, reqs, |reqs| - 1);
      assert TextReply(AnswerTo(proc.value, |reqs| - 1, reqs[|reqs| - 1]));
    }

    /** Before any unread reply, a bad header is the daemon's own refusal. */
    lemma FailureIsRefusal(pos: nat, head: seq<Octet>)
      requires proc.Some? && Honest(proc.value, parse) && done < |reqs| && Out() == Replies(proc.value, reqs, 0)
      requires pos + 8 <= |Out()| && head == Out()[pos..pos + 8]
      requires UnLe(head[0..4]) != 0 || UnLe(head[4..8]) > MAX_RESPONSE
      requires Offset(proc.value, reqs, done) <= pos <= Offset(proc.value, reqs, |reqs| - 1)
      ensures done == |reqs| - 1 ==> LastRefused()
    {
      hide Serve, Replies, UnLe, AnswerTo, Offset;
      AlignedRead(proc.value, reqs, |reqs| - 1);
      assert TextReply(AnswerTo(proc.value, |reqs| - 1, reqs[|reqs| - 1]));
    }

    /** A good header and its body are one whole reply. */
    lemma FinishReply(pos: nat, head: seq<Octet>, body: seq<Octet>) returns (next: nat)
      requires proc.Some? && Honest(proc.value, parse) && done < |reqs| && Out() == Replies(proc.value, reqs, 0)
      requires Offset(proc.value, reqs, done) <= pos <= Offset(proc.value, reqs, |reqs| - 1)
      requires pos + 8 + |body| == taken <= |Out()| && head == Out()[pos..pos + 8]
      requires LooksGood(head) && |body| == UnLe(head[4..8]) && body == Out()[pos + 8..taken]
      ensures done < next <= |reqs| && taken == Offset(proc.value, reqs, next)
      ensures AnswerTo(proc.value, next - 1, reqs[next - 1]) == Answer(0, body)
    {
      hide Honest, Serve, Replies, UnLe, AnswerTo, Offset;
      HonestIsBounded(proc.value, parse);
      var j := GoodHeaderIsAligned(proc.value, parse, reqs, done, pos);
      AlignedRead(proc.value, reqs, j);
      next := j + 1;
    }

    // ---- inference -------------------------------------------------------

    /** `body` is the daemon's answer to the request sent last, which carries
        this id, this rectangle and these pixels; nothing is left unread. */
    ghost predicate Accepted(body: seq<Octet>, pixels: seq<Octet>, rect: Rect)
      reads this`proc, this`sent, this`taken, this`reqs, this`done, this`reqId, this`torn
    {
      && JustRead(body) && Aligned() && done == |reqs| && !torn
      && reqId <= MAX_ID && reqs[|reqs| - 1] == Infer(reqId, rect, pixels)
    }

    /** The exchange of one inference, under the lock. Whatever replies to
        earlier calls are still unread, inferences of other callers included, a
        result is accepted only as the daemon's answer to the very request this
        call put on the wire: a stale INFO reply has no id, a stale inference
        another one. */
    method InferLocked(pixels: seq<Octet>, rect: Rect) returns (r: Result<seq<Octet>, CallError>)
      requires Valid()
      requires Int32Rect(rect) && PREFIX + |pixels| < 0x1_0000_0000
      modifies this
      ensures Valid()
      ensures proc == old(proc) && live == old(live) && failCount == old(failCount) && retryAfter == old(retryAfter)
      ensures proc.None? ==> r == Err(Escaped)
      ensures proc.Some? && r.Err? && r.error.Escaped? ==> old(torn)
      ensures reqId == NextId(old(reqId)) && lastReqId == Some(reqId) && started == old(started)
      ensures r.Ok? && !old(torn) && old(IdIsNew()) ==> Accepted(r.value, pixels, rect) && |reqs| == |old(reqs)| + 1
      ensures proc.Some? && r.Err? && !r.error.TimedOut? && !r.error.PipeFailed?
              && !old(torn) && old(done) == |old(reqs)| ==>
                reqs == old(reqs) + [Infer(reqId, rect, pixels)] && LastRefused()
      ensures old(Granted(INFER, pixels, rect)) ==>
                r == Result.Ok(old(Answering(INFER, pixels, rect)).body) && Aligned() && !torn
                && Readies(script) + CallSize(INFER, pixels, old(Answering(INFER, pixels, rect))) >= Readies(old(script))
    {
      hide Honest, Serve, Replies, AnswerTo, Offset, JustRead, LastRefused, EncodeAll, Recent, NextId, Readies;
      if proc.None? {
        DrawId();
        return Err(Escaped);   // there is no pipe to write to
      }
      r := CallLocked(INFER, pixels, rect);
      if r.Err? {
        return;
      }
      var verdict := ValidateResult(parse(r.value));
      if old(Granted(INFER, pixels, rect)) {
        GrantedParses(old(|reqs|), Infer(reqId, rect, pixels));
      }
      if verdict.Some? {
        if !old(torn) {
          RejectedIsStale(r.value, old(done));
          NothingEscapes(r.value);
        }
        return Err(verdict.value);
      }
      if !old(torn) && old(IdIsNew()) {
        OnlyOwnReply(r.value, old(reqs), old(done));
      }
    }

    /** The id is looked at first, then everything else. */
    method ValidateResult(result: Parsed) returns (raised: Option<CallError>)
      ensures raised.None? <==> result.Object? && result.reqId == lastReqId && result.fields.WellShaped?
      ensures raised.Some? ==>
                raised.value == (if result.NotObject? || (result.Object? && result.reqId == lastReqId && result.fields.NotNumbers?)
                                 then Escaped else Mismatch)
    {
      if result.NotJson? {
        return Some(Mismatch);
      }
      if result.NotObject? {
        return Some(Escaped);
      }
      if result.reqId != lastReqId {
        return Some(Mismatch);
      }
      match result.fields
      case WellShaped => return None;
      case Misshapen => return Some(Mismatch);
      case NotNumbers => return Some(Escaped);
    }

    /** The reply to an inference that the daemon grants passes validation. */
    lemma GrantedParses(k: nat, r: Request)
      requires proc.Some? && Honest(proc.value, parse) && r.Infer? && AnswerTo(proc.value, k, r).status == 0
      ensures parse(AnswerTo(proc.value, k, r).body) == Object(Some(r.reqId), WellShaped)
    {
    }

    /** No whole reply of an honest daemon raises anything unexpected. */
    lemma NothingEscapes(body: seq<Octet>)
      requires proc.Some? && Honest(proc.value, parse) && JustRead(body)
      ensures !parse(body).NotObject? && (parse(body).Object? && parse(body).reqId.Some? ==> parse(body).fields.WellShaped?)
    {
      hide Serve, Replies, Offset, TextReply;
    }

    /** The id tells this request's reply from every unread one before it. */
    lemma OnlyOwnReply(body: seq<Octet>, was: seq<Request>, wasDone: nat)
      requires proc.Some? && Honest(proc.value, parse) && SentAll() && JustRead(body)
      requires |reqs| == |was| + 1 && was <= reqs
      requires wasDone < done && forall i :: wasDone <= i < |was| && was[i].Infer? ==> was[i].reqId != reqId
      requires parse(body).Object? && parse(body).reqId == Some(reqId)
      ensures done == |reqs| && Aligned()
    {
      hide Serve, Replies, EncodeAll, Honest, AnswerTo;
      HonestIsBounded(proc.value, parse);
      WholeOffset(proc.value, parse, reqs);
      if done - 1 < |was| {
        assert was[done - 1] == reqs[done - 1];
        StaleIsOther(body);
      }
    }

    lemma StaleIsOther(body: seq<Octet>)
      requires proc.Some? && Honest(proc.value, parse) && JustRead(body)
      requires !reqs[done - 1].Infer? || reqs[done - 1].reqId != reqId
      ensures !parse(body).Object? || parse(body).reqId != Some(reqId)
    {
      hide Serve, Replies, Offset, TextReply;
    }

    /** Rejecting a whole reply means it was not this request's success. */
    lemma RejectedIsStale(body: seq<Octet>, wasDone: nat)
      requires proc.Some? && Honest(proc.value, parse) && JustRead(body) && wasDone < done
      requires reqs[|reqs| - 1].Infer? && parse(body) != Object(Some(reqs[|reqs| - 1].reqId), WellShaped)
      ensures wasDone < |reqs| - 1
    {
    }

    /** Tear-down, with a farewell if there is still someone to take it: the
        process and its pipes are gone, and with them whatever was unread or
        part-written. */
    method StopLocked(graceful: bool, running: bool)
      requires Valid()
      modifies this
      ensures Valid() && Ready() && proc.None? && live.None?
      ensures reqId == old(reqId) && failCount == old(failCount) && retryAfter == old(retryAfter)
      ensures Readies(script) + 8 >= Readies(old(script)) && started == old(started)
    {
      hide Readies;
      if proc.Some? && graceful && running {
        var _ := WriteExact(Header(SHUTDOWN, 0));   // whether it arrives does not matter
      }
      proc := None;
      live := None;
    }

    /** The answer to the warm-up inference of a new process. */
    ghost function WarmUp(d: Daemon): Answer
      requires Bounded(d) && reqId <= MAX_ID
      reads this`reqId
    {
      AnswerTo(d, 2, Infer(NextId(reqId), Rect(0, 0, 640, 384), probe))
    }

    /** How many bytes the handshake of a new process moves. */
    ghost function ShakeSize(d: Daemon): nat
      requires Bounded(d) && reqId <= MAX_ID
      reads this`reqId
    {
      CallSize(INFO, [], Answer(0, d.info(1))) + CallSize(INFER, probe, WarmUp(d))
    }

    /** The process describes itself as a detector of these settings should and
        runs the warm-up. */
    ghost predicate Fit(d: Daemon)
      reads this`reqId
    {
      Bounded(d) && reqId <= MAX_ID && validInfo(d.info(1)) && WarmUp(d).status == 0
    }

    /** And the system lets `spare` bytes more than a start move. */
    ghost predicate CanStart(d: Daemon, spare: nat)
      reads this`reqId, this`script
    {
      Fit(d) && Readies(script) >= CallSize(PING, [], Answer(0, PONG)) + ShakeSize(d) + spare
    }

    /** The same once it has answered PING. */
    ghost predicate CanShake(spare: nat)
      reads this`proc, this`sent, this`taken, this`reqs, this`done, this`reqId, this`torn, this`script
    {
      && proc.Some? && Fit(proc.value) && !torn && Aligned() && |reqs| == 1
      && Readies(script) >= ShakeSize(proc.value) + spare
    }

    /** A new process, and PING; then the handshake. */
    method StartLocked(settings: Settings, spawned: Daemon, ghost spare: nat) returns (r: Result<(), CallError>)
      requires Valid() && Honest(spawned, parse)
      modifies this
      ensures Valid() && failCount == old(failCount) && retryAfter == old(retryAfter)
      ensures r.Ok? ==> Ready() && proc == Some(spawned) && Aligned() && live == Some(settings)
      ensures r.Ok? ==> !torn && |reqs| == 3 && reqId == NextId(old(reqId))
      ensures r.Err? ==> !r.error.Escaped?
      ensures started == old(started) + [spawned]
      ensures old(CanStart(spawned, spare)) ==> r.Ok? && Readies(script) >= spare
    {
      StartAnswers(spawned, reqId);
      hide Honest, Serve, Replies, AnswerTo, LastRefused, JustRead, Offset, EncodeAll, Recent, NextId, Readies, Fit;
      Spawn(settings, spawned);
      ghost var can := Fit(spawned) && CanStart(spawned, spare);
      var pong := CallLocked(PING, [], Rect(0, 0, 640, 384));
      if pong.Err? || pong.value != PONG {
        return Err(Unavailable);
      }
      assert can ==> CanShake(spare);
      r := HandshakeLocked(spare);
    }

    /** The process and its pipes, nothing sent and nothing read. */
    method Spawn(settings: Settings, spawned: Daemon)
      requires Valid() && Honest(spawned, parse)
      modifies this`proc, this`sent, this`taken, this`reqs, this`done, this`drawn, this`torn, this`live, this`started
      ensures Valid() && proc == Some(spawned) && live == Some(settings) && reqs == [] && done == 0 && !torn
      ensures Bounded(spawned) && Aligned() && started == old(started) + [spawned]
    {
      hide Serve, Offset, EncodeAll, Recent;
      HonestIsBounded(spawned, parse);
      FreshChannel(spawned, parse);
      proc, sent, taken := Some(spawned), [], 0;
      started := started + [spawned];
      reqs, done, drawn, torn := [], 0, 0, false;
      live := Some(settings);
    }

    /** INFO must describe the right tensors and a warm-up inference succeed. */
    method HandshakeLocked(ghost spare: nat) returns (r: Result<(), CallError>)
      requires Valid() && proc.Some? && Ready() && !torn && |reqs| == 1
      modifies this
      ensures Valid() && proc == old(proc) && live == old(live) && started == old(started)
      ensures failCount == old(failCount) && retryAfter == old(retryAfter)
      ensures r.Ok? ==> Ready() && Aligned() && !torn && |reqs| == 3 && reqId == NextId(old(reqId))
      ensures r.Err? ==> !r.error.Escaped?
      ensures old(CanShake(spare)) ==> r.Ok? && Readies(script) >= spare
    {
      StartAnswers(proc.value, reqId) by { HonestIsBounded(proc.value, parse); }
      hide Honest, Serve, Replies, AnswerTo, LastRefused, JustRead, Offset, EncodeAll, Recent, NextId, Readies;
      var whole := Rect(0, 0, 640, 384);
      var raw := CallLocked(INFO, [], whole);
      if raw.Err? || !validInfo(raw.value) {
        return Err(Unavailable);
      }
      assert IdIsNew();
      var warm := InferLocked(probe, whole);
      if warm.Err? {
        return Err(warm.error);
      }
      return Ok(());
    }

    lemma StartAnswers(d: Daemon, id: nat)
      requires Bounded(d) && id <= MAX_ID
      ensures AnswerTo(d, 0, RequestFor(PING, id, Rect(0, 0, 640, 384), [])) == Answer(0, PONG)
      ensures AnswerTo(d, 1, RequestFor(INFO, id, Rect(0, 0, 640, 384), [])) == Answer(0, d.info(1))
    {
    }

    /** The running process is the one wanted. */
    predicate Current(settings: Settings, running: bool)
      reads this`proc, this`live
    {
      proc.Some? && running && live == Some(settings)
    }

    /** Starts the daemon, or restarts it for new settings; `spawned` is the
        process the system would start, `fallback` the bundled CPU one if an
        automatically chosen accelerator may fall back to it. */
    method EnsureStarted(settings: Settings, running: bool, now: real, spawned: Daemon, fallback: Option<Daemon>,
                         ghost spare: nat)
      returns (r: Result<(), CallError>)
      requires Valid() && Honest(spawned, parse) && (fallback.Some? ==> Honest(fallback.value, parse))
      modifies this
      ensures Valid() && (old(Ready()) ==> Ready())
      ensures r.Ok? ==> proc.Some? && live == Some(settings)
      ensures r.Err? ==> !r.error.Escaped? && (proc.None? || (proc == old(proc) && retryAfter > now))
      ensures old(Current(settings, running)) ==> r.Ok? && unchanged(this)
      ensures !old(Current(settings, running)) && old(retryAfter) > now ==> r == Err(Unavailable) && unchanged(this)
      ensures !old(Current(settings, running)) && old(retryAfter) <= now ==>
                if r.Ok? then
                  failCount == 0 && retryAfter == 0.0 && |started| > |old(started)| && proc == Some(started[|started| - 1])
                else failCount == old(failCount) + 1 && retryAfter == now + Backoff(failCount)
      ensures !old(Current(settings, running)) && old(retryAfter) <= now ==>
                started == old(started) + [spawned]
                || (fallback.Some? && started == old(started) + [spawned, fallback.value])
      ensures !old(Current(settings, running)) && old(retryAfter) <= now && r.Err? && fallback.Some? ==>
                started == old(started) + [spawned, fallback.value]
      ensures !old(Current(settings, running)) && old(retryAfter) <= now ==>
                (old(CanStart(spawned, spare + 8)) ==>
                   r.Ok? && proc == Some(spawned) && !torn && Aligned()
                   && |reqs| == 3 && reqId == NextId(old(reqId)) && Readies(script) >= spare)
    {
      hide Honest, Serve, Synced, Aligned, Readies, NextId;
      if Current(settings, running) {
        return Ok(());
      }
      if retryAfter > now {
        return Err(Unavailable);
      }
      StopLocked(true, running);
      r := StartLocked(settings, spawned, spare);
      if r.Err? {
        StopLocked(false, running);
        if fallback.Some? {
          r := StartLocked(settings, fallback.value, spare);
          if r.Err? {
            StopLocked(false, running);
          }
        }
        if r.Err? {
          NoteFailure(now);
          return;
        }
      }
      failCount, retryAfter := 0, 0.0;
    }

    method NoteFailure(now: real)
      modifies this`failCount, this`retryAfter
      ensures failCount == old(failCount) + 1 && retryAfter == now + Backoff(failCount)
      ensures retryAfter - now == if failCount == 1 then 1.0 else if failCount == 2 then 5.0 else 30.0
    {
      failCount := failCount + 1;
      retryAfter := now + Backoff(failCount);
    }

    /** A new process's answer to its first frame, after the warm-up. */
    ghost function FirstAnswer(d: Daemon, pixels: seq<Octet>, rect: Rect): Answer
      requires Honest(d, parse) && reqId <= MAX_ID
      reads this`reqId
    {
      AnswerTo(d, 3, Infer(NextId(NextId(reqId)), rect, pixels))
    }

    /** One frame: three turns of the lock, start, exchange and, after a
        failure, stop, with other threads' diagnostics, stops and kills in
        between. Even diagnostics that run after a failed exchange, on whatever
        it left in the pipe, do no harm: the process is killed before this
        caller's next exchange. */
    method InferFrame(pixels: seq<Octet>, rect: Rect, settings: Settings, running: bool, now: real,
                      spawned: Daemon, fallback: Option<Daemon>, before: seq<Other>, between: seq<Other>)
      returns (r: Result<seq<Octet>, CallError>)
      requires Valid() && Honest(spawned, parse) && (fallback.Some? ==> Honest(fallback.value, parse))
      requires Int32Rect(rect) && PREFIX + |pixels| < 0x1_0000_0000
      modifies this
      ensures Valid() && (old(Ready()) ==> Ready())
      ensures old(Ready()) && r.Ok? ==> Accepted(r.value, pixels, rect)
      ensures old(Ready()) && r.Err? ==> proc.None? || (proc == old(proc) && retryAfter > now)
      ensures old(Ready()) && r.Err? && r.error.Escaped? ==> before != []
      ensures if r.Ok? then failCount == 0 && retryAfter == 0.0 else r.error.Escaped? || retryAfter > now
      ensures before == [] && old(Current(settings, running)) && old(Granted(INFER, pixels, rect)) ==>
                r == Result.Ok(old(Answering(INFER, pixels, rect)).body)
      ensures before == [] && !old(Current(settings, running)) && old(retryAfter) <= now
              && old(FirstAnswer(spawned, pixels, rect)).status == 0
              && old(CanStart(spawned, CallSize(INFER, pixels, FirstAnswer(spawned, pixels, rect)) + 8)) ==>
                r == Result.Ok(old(FirstAnswer(spawned, pixels, rect)).body)
    {
      hide Honest, Serve, Replies, AnswerTo, JustRead, LastRefused, Synced, SentAll, Offset, Aligned, Readies, NextId;
      HonestIsBounded(spawned, parse);
      ghost var first := FirstAnswer(spawned, pixels, rect);
      var started := EnsureStarted(settings, running, now, spawned, fallback, CallSize(INFER, pixels, first));
      if started.Err? {
        return Err(started.error);
      }
      OtherThreads(before);
      r := Exchange(pixels, rect, running, now, between);
    }

    /** The second and third turns: the exchange and, after a failure, the stop. */
    method Exchange(pixels: seq<Octet>, rect: Rect, running: bool, now: real, between: seq<Other>)
      returns (r: Result<seq<Octet>, CallError>)
      requires Valid() && Int32Rect(rect) && PREFIX + |pixels| < 0x1_0000_0000
      modifies this
      ensures Valid() && (old(Ready()) ==> Ready())
      ensures old(Ready()) && r.Ok? ==> Accepted(r.value, pixels, rect)
      ensures r.Err? && !r.error.Escaped? ==> proc.None?
      ensures old(Ready()) && r.Err? && r.error.Escaped? ==> old(proc).None? && proc.None?
      ensures if r.Ok? then failCount == 0 && retryAfter == 0.0 else r.error.Escaped? || retryAfter > now
      ensures old(Granted(INFER, pixels, rect)) ==> r == Result.Ok(old(Answering(INFER, pixels, rect)).body)
    {
      hide Honest, Serve, Replies, AnswerTo, JustRead, LastRefused, Synced, SentAll, Offset, Aligned, Readies, NextId;
      r := InferLocked(pixels, rect);
      if r.Err? {
        if r.error.Escaped? {
          return;   // nothing is stopped: only with no process does a frame get here
        }
        NoteFailure(now);
        OtherThreads(between);
        StopLocked(false, running);
        return;
      }
      failCount, retryAfter := 0, 0.0;
    }

    /** What other threads do while this one does not hold the lock. They may
        take the process away, but they start none. */
    method OtherThreads(others: seq<Other>)
      requires Valid()
      modifies this
      ensures Valid() && (old(Ready()) ==> Ready())
      ensures proc.None? || (proc == old(proc) && live == old(live))
      ensures others == [] ==> unchanged(this)
      ensures failCount == old(failCount) && retryAfter == old(retryAfter)
    {
      hide Valid, Ready;
      for k := 0 to |others|
        invariant Valid() && (old(Ready()) ==> Ready())
        invariant proc.None? || (proc == old(proc) && live == old(live))
        invariant k == 0 ==> unchanged(this)
        invariant failCount == old(failCount) && retryAfter == old(retryAfter)
      {
        match others[k]
        case Asks(running) => var _ := InfoCall(running);
        case Stops(graceful, running) => StopLocked(graceful, running);
        case Kills => Kill();
      }
    }

    /** Without the lock, and without forgetting the settings. */
    method Kill()
      requires Valid()
      modifies this`proc
      ensures Valid() && Ready() && proc.None?
    {
      proc := None;
    }

    /** Diagnostics. A failure is data: the process is not restarted, and what
        it still writes stays in the pipe. */
    method InfoCall(running: bool) returns (r: Result<Parsed, CallError>)
      requires Valid()
      modifies this
      ensures Valid() && (old(Ready()) ==> Ready())
      ensures proc == old(proc) && live == old(live) && failCount == old(failCount) && retryAfter == old(retryAfter)
      ensures reqId == old(reqId) && torn == old(torn)
      ensures proc.None? || !running ==> r == Ok(Object(None, Misshapen))
    {
      hide Valid;
      if proc.None? || !running {
        return Ok(Object(None, Misshapen));
      }
      var raw := CallLocked(INFO, [], Rect(0, 0, 640, 384));
      if raw.Err? {
        return Err(raw.error);
      }
      return Ok(parse(raw.value));
    }
  }

  lemma JustDrawn(req: Request, was: nat, now: nat, drawn: nat)
    requires was <= MAX_ID && now <= MAX_ID
    requires req.Infer? ==> req.reqId == now == NextId(was) && drawn > 0
    ensures Recent(req, now, drawn)
  {
    hide NextId;
    if req.Infer? {
      IdsComeRound(now, was);
    }
  }

  /** Drawing an id ages the others by at most one. */
  lemma RecentStays(reqs: seq<Request>, done: nat, was: nat, wasDrawn: nat, now: nat, drawn: nat)
    requires was <= MAX_ID && now <= MAX_ID
    requires (now == was && drawn == wasDrawn) || (now == NextId(was) && drawn == wasDrawn + 1)
    ensures (forall i :: done <= i < |reqs| ==> Recent(reqs[i], was, wasDrawn)) ==>
              forall i :: done <= i < |reqs| ==> Recent(reqs[i], now, drawn)
  {
    hide NextId, Age;
    if forall i :: done <= i < |reqs| ==> Recent(reqs[i], was, wasDrawn) {
      forall i | done <= i < |reqs| ensures Recent(reqs[i], now, drawn) {
        assert Recent(reqs[i], was, wasDrawn);
        if reqs[i].Infer? {
          IdsComeRound(reqs[i].reqId, was);
        }
      }
    }
  }
}
