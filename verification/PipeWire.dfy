/** The framed pipe between the client and the detector daemon: what the
    daemon's resident loop answers to the bytes it has been sent. */
module PipeWire {
  import opened Geometry

  type Octet = b: int | 0 <= b < 256

  type Word = n: int | 0 <= n < 0x1_0000_0000

  const PING: Word := 1
  const INFER: Word := 2
  const INFO: Word := 3
  const SHUTDOWN: Word := 4

  const PREFIX := 20   // request id and content rectangle

  /** Little-endian uint32. */
  function Le(n: Word): (r: seq<Octet>)
    ensures |r| == 4
  {
    [n % 256, n / 256 % 256, n / 65536 % 256, n / 16777216]
  }

  function UnLe(b: seq<Octet>): Word
    requires |b| == 4
  {
    Weigh(b[0], b[1], b[2], b[3])
  }

  function Weigh(a: int, b: int, c: int, d: int): int { a + 256 * b + 65536 * c + 16777216 * d }

  lemma LeRoundTrip(n: Word)
    ensures UnLe(Le(n)) == n
  {
    var a, b, c := n / 256, n / 65536, n / 16777216;
    assert n == 256 * a + n % 256;
    assert a == 256 * b + a % 256;
    assert b == 256 * c + b % 256;
  }

  /** The least significant byte comes first. */
  lemma LeBytes(n: Word)
    ensures Le(n)[0] == n % 256 && Le(n)[1] == n / 256 % 256
    ensures Le(n)[2] == n / 65536 % 256 && Le(n)[3] == n / 16777216 % 256
  {
  }

  /** Two's complement, both ways. */
  lemma SignedMeans(v: int)
    requires -0x8000_0000 <= v < 0x8000_0000
    ensures Signed(Unsigned(v)) == v && (Unsigned(v) - v) % 0x1_0000_0000 == 0
  {
  }

  function Signed(n: Word): int { if n < 0x8000_0000 then n else n - 0x1_0000_0000 }

  function Unsigned(v: int): Word
    requires -0x8000_0000 <= v < 0x8000_0000
  {
    if v < 0 then v + 0x1_0000_0000 else v
  }

  datatype Rect = Rect(x: int, y: int, w: int, h: int)

  predicate Int32Rect(r: Rect) {
    -0x8000_0000 <= r.x < 0x8000_0000 && -0x8000_0000 <= r.y < 0x8000_0000
    && -0x8000_0000 <= r.w < 0x8000_0000 && -0x8000_0000 <= r.h < 0x8000_0000
  }

  // ---- messages ----------------------------------------------------------

  datatype Request =
    | Ping
    | Info
    | Infer(reqId: Word, rect: Rect, pixels: seq<Octet>)

  predicate Sendable(r: Request) {
    r.Infer? ==> Int32Rect(r.rect) && PREFIX + |r.pixels| < 0x1_0000_0000
  }

  function InferPayload(reqId: Word, rect: Rect, pixels: seq<Octet>): (p: seq<Octet>)
    requires Int32Rect(rect)
    ensures |p| == PREFIX + |pixels|
  {
    Le(reqId) + (Le(Unsigned(rect.x)) + Le(Unsigned(rect.y)) + Le(Unsigned(rect.w)) + Le(Unsigned(rect.h)))
    + pixels
  }

  function Header(a: Word, b: Word): (h: seq<Octet>)
    ensures |h| == 8
  {
    Le(a) + Le(b)
  }

  function Encode(r: Request): seq<Octet>
    requires Sendable(r)
  {
    match r
    case Ping => Header(PING, 0)
    case Info => Header(INFO, 0)
    case Infer(id, rect, pixels) => Header(INFER, PREFIX + |pixels|) + InferPayload(id, rect, pixels)
  }

  /** Where everything stands in an inference request, byte by byte. */
  lemma InferLayout(id: Word, rect: Rect, pixels: seq<Octet>)
    requires Int32Rect(rect) && PREFIX + |pixels| < 0x1_0000_0000
    ensures var m := Encode(Infer(id, rect, pixels));
            && |m| == 28 + |pixels|
            && m[0..4] == [2, 0, 0, 0] && m[4..8] == Le(20 + |pixels|) && m[8..12] == Le(id)
            && m[12..16] == Le(Unsigned(rect.x)) && m[16..20] == Le(Unsigned(rect.y))
            && m[20..24] == Le(Unsigned(rect.w)) && m[24..28] == Le(Unsigned(rect.h))
            && m[28..] == pixels
    ensures Encode(Ping) == [1, 0, 0, 0, 0, 0, 0, 0] && Encode(Info) == [3, 0, 0, 0, 0, 0, 0, 0]
  {
    assert Le(INFER) == [2, 0, 0, 0];
    hide Le, Unsigned;
    Sliced(Le(INFER), Le(20 + |pixels|), Le(id), Le(Unsigned(rect.x)), Le(Unsigned(rect.y)), Le(Unsigned(rect.w)),
           Le(Unsigned(rect.h)), pixels);
  }

  lemma Sliced(a: seq<Octet>, b: seq<Octet>, c: seq<Octet>, d: seq<Octet>, e: seq<Octet>, f: seq<Octet>, g: seq<Octet>,
               rest: seq<Octet>)
    requires |a| == |b| == |c| == |d| == |e| == |f| == |g| == 4
    ensures var m := a + b + (c + (d + e + f + g) + rest);
            && |m| == 28 + |rest| && m[0..4] == a && m[4..8] == b && m[8..12] == c
            && m[12..16] == d && m[16..20] == e && m[20..24] == f && m[24..28] == g && m[28..] == rest
  {
  }

  datatype Answer = Answer(status: Word, body: seq<Octet>)

  predicate Framable(a: Answer) { |a.body| < 0x1_0000_0000 }

  function Reply(a: Answer): seq<Octet>
    requires Framable(a)
  {
    Header(a.status, |a.body|) + a.body
  }

  // ---- the daemon --------------------------------------------------------

  /** What one daemon process says, request by request; inference is opaque. */
  datatype Daemon = Daemon(
    inBytes: nat, procWidth: int, procHeight: int,
    info: nat -> seq<Octet>,
    complaint: nat -> seq<Octet>,
    outcome: (nat, Request) -> Answer)

  /** The daemon's own buffers bound every text it sends. */
  ghost predicate Bounded(d: Daemon) {
    && PREFIX + d.inBytes < 0x1_0000_0000
    && (forall k :: |d.info(k)| <= 1023 && |d.complaint(k)| <= 1023)
    && (forall k, r :: Framable(d.outcome(k, r)))
  }

  const PONG: seq<Octet> := [112, 111, 110, 103]
  const BYE: seq<Octet> := [98, 121, 101]

  predicate InCanvas(d: Daemon, r: Rect) { ValidContentRect(r.x, r.y, r.w, r.h, d.procWidth, d.procHeight) }

  /** The answer to the k-th request. */
  function AnswerTo(d: Daemon, k: nat, r: Request): (a: Answer)
    requires Bounded(d)
    ensures Framable(a)
  {
    match r
    case Ping => Answer(0, PONG)
    case Info => Answer(0, d.info(k))
    case Infer(id, rect, pixels) =>
      if |pixels| != d.inBytes || !InCanvas(d, rect) then Answer(2, d.complaint(k))
      else d.outcome(k, r)
  }

  /** The resident loop: everything written for everything read so far. A read
      that cannot be satisfied yet blocks, so it ends the output. */
  function Serve(d: Daemon, input: seq<Octet>, k: nat): seq<Octet>
    requires Bounded(d)
    decreases |input|
  {
    if |input| < 8 then []
    else
      var cmd, len, rest := UnLe(input[0..4]), UnLe(input[4..8]), input[8..];
      if cmd == PING then
        if |rest| < len then [] else Reply(Answer(0, PONG)) + Serve(d, rest[len..], k + 1)
      else if cmd == SHUTDOWN then Reply(Answer(0, BYE))
      else if cmd == INFO then Reply(Answer(0, d.info(k))) + Serve(d, rest, k + 1)
      else if cmd != INFER then Reply(Answer(1, d.complaint(k))) + Serve(d, rest, k + 1)
      else if len != PREFIX + d.inBytes then
        Reply(Answer(2, d.complaint(k))) + if |rest| < len then [] else Serve(d, rest[len..], k + 1)
      else if |rest| < len then []
      else Reply(AnswerTo(d, k, DecodeInfer(rest[..len]))) + Serve(d, rest[len..], k + 1)
  }

  function DecodeInfer(payload: seq<Octet>): Request
    requires |payload| >= PREFIX
  {
    Infer(UnLe(payload[0..4]),
          Rect(Signed(UnLe(payload[4..8])), Signed(UnLe(payload[8..12])),
               Signed(UnLe(payload[12..16])), Signed(UnLe(payload[16..20]))),
          payload[20..])
  }

  // ---- lockstep ----------------------------------------------------------

  function EncodeAll(reqs: seq<Request>): seq<Octet>
    requires forall i :: 0 <= i < |reqs| ==> Sendable(reqs[i])
  {
    if reqs == [] then [] else Encode(reqs[0]) + EncodeAll(reqs[1..])
  }

  function Replies(d: Daemon, reqs: seq<Request>, k: nat): seq<Octet>
    requires Bounded(d)
  {
    if reqs == [] then [] else Reply(AnswerTo(d, k, reqs[0])) + Replies(d, reqs[1..], k + 1)
  }

  lemma HeaderDecodes(a: Word, b: Word, tail: seq<Octet>)
    ensures var s := Header(a, b) + tail;
            UnLe(s[0..4]) == a && UnLe(s[4..8]) == b && s[8..] == tail
  {
    hide Le, UnLe;
    LeRoundTrip(a);
    LeRoundTrip(b);
    var s := Header(a, b) + tail;
    assert s[0..4] == Le(a) && s[4..8] == Le(b);
  }

  lemma InferDecodes(id: Word, rect: Rect, pixels: seq<Octet>)
    requires Int32Rect(rect)
    ensures DecodeInfer(InferPayload(id, rect, pixels)) == Infer(id, rect, pixels)
  {
    hide Le, UnLe;
    var p := InferPayload(id, rect, pixels);
    assert p[0..4] == Le(id) && p[20..] == pixels;
    assert p[4..8] == Le(Unsigned(rect.x)) && p[8..12] == Le(Unsigned(rect.y));
    assert p[12..16] == Le(Unsigned(rect.w)) && p[16..20] == Le(Unsigned(rect.h));
    LeRoundTrip(id);
    LeRoundTrip(Unsigned(rect.x));
    LeRoundTrip(Unsigned(rect.y));
    LeRoundTrip(Unsigned(rect.w));
    LeRoundTrip(Unsigned(rect.h));
  }

  /** The daemon consumes exactly one encoded request per turn, whether it can
      serve it or has to refuse it. */
  lemma ServeOne(d: Daemon, r: Request, rest: seq<Octet>, k: nat)
    requires Bounded(d) && Sendable(r)
    ensures Serve(d, Encode(r) + rest, k) == Reply(AnswerTo(d, k, r)) + Serve(d, rest, k + 1)
  {
    hide Le, UnLe, Header, Reply, DecodeInfer, InferPayload;
    match r
    case Ping =>
      HeaderDecodes(PING, 0, rest);
      assert rest[0..] == rest;
    case Info =>
      HeaderDecodes(INFO, 0, rest);
    case Infer(id, rect, pixels) =>
      var payload := InferPayload(id, rect, pixels);
      assert Encode(r) + rest == Header(INFER, PREFIX + |pixels|) + (payload + rest);
      HeaderDecodes(INFER, PREFIX + |pixels|, payload + rest);
      var len := PREFIX + |pixels|;
      assert (payload + rest)[..len] == payload && (payload + rest)[len..] == rest;
      InferDecodes(id, rect, pixels);
  }

  /** The other requests: a farewell ends the output, and an unknown command is
      refused by its header alone. */
  lemma ServeOther(d: Daemon, cmd: Word, len: Word, rest: seq<Octet>, k: nat)
    requires Bounded(d) && cmd !in {PING, INFER, INFO}
    ensures Serve(d, Header(cmd, len) + rest, k)
         == if cmd == SHUTDOWN then Reply(Answer(0, BYE)) else Reply(Answer(1, d.complaint(k))) + Serve(d, rest, k + 1)
  {
    hide Le, UnLe, Header, Reply;
    HeaderDecodes(cmd, len, rest);
  }

  /** Lockstep: to the client's own requests the daemon writes one reply each,
      in order, and nothing else. */
  lemma {:induction false} Lockstep(d: Daemon, reqs: seq<Request>, k: nat)
    requires Bounded(d) && forall i :: 0 <= i < |reqs| ==> Sendable(reqs[i])
    ensures Serve(d, EncodeAll(reqs), k) == Replies(d, reqs, k)
  {
    if reqs != [] {
      ServeOne(d, reqs[0], EncodeAll(reqs[1..]), k);
      Lockstep(d, reqs[1..], k + 1);
    }
  }

  lemma {:induction false} EncodeAllAppend(a: seq<Request>, r: Request)
    requires Sendable(r) && forall i :: 0 <= i < |a| ==> Sendable(a[i])
    ensures EncodeAll(a + [r]) == EncodeAll(a) + Encode(r)
  {
    hide Encode;
    if a == [] {
      assert a + [r] == [r] && EncodeAll([r][1..]) == [];
    } else {
      assert (a + [r])[1..] == a[1..] + [r];
      EncodeAllAppend(a[1..], r);
    }
  }

  lemma {:induction false} RepliesSplit(d: Daemon, a: seq<Request>, b: seq<Request>, k: nat)
    requires Bounded(d)
    ensures Replies(d, a + b, k) == Replies(d, a, k) + Replies(d, b, k + |a|)
  {
    hide Reply, AnswerTo;
    if a == [] {
      assert a + b == b;
    } else {
      assert (a + b)[1..] == a[1..] + b;
      RepliesSplit(d, a[1..], b, k + 1);
    }
  }

  /** More input only adds output. */
  lemma {:induction false} ServeGrows(d: Daemon, a: seq<Octet>, b: seq<Octet>, k: nat)
    requires Bounded(d)
    ensures Serve(d, a, k) <= Serve(d, a + b, k)
    decreases |a|
  {
    if |a| >= 8 {
      hide UnLe, Reply, AnswerTo, DecodeInfer;
      var s, len := a + b, UnLe(a[4..8]);
      assert s[0..4] == a[0..4] && s[4..8] == a[4..8] && s[8..] == a[8..] + b;
      ServeGrows(d, a[8..], b, k + 1);
      if |a[8..]| >= len {
        assert s[8..][..len] == a[8..][..len] && s[8..][len..] == a[8..][len..] + b;
        ServeGrows(d, a[8..][len..], b, k + 1);
      }
    }
  }

  // ---- reading from the wrong place --------------------------------------

  const MAX_RESPONSE := 0x10_0000

  /** A reply made of text: a small status and a body without NUL bytes, which
      every reply of the daemon is, JSON and diagnostics alike. */
  predicate TextReply(a: Answer) {
    a.status < 256 && 2 <= |a.body| <= MAX_RESPONSE && forall i :: 0 <= i < |a.body| ==> a.body[i] != 0
  }

  /** What the client does with eight header bytes: neither error nor oversize. */
  predicate LooksGood(h: seq<Octet>)
    requires |h| == 8
  {
    UnLe(h[0..4]) == 0 && UnLe(h[4..8]) <= MAX_RESPONSE
  }

  /** Some byte of the length is not zero, and no byte of the body is. */
  lemma ReplyBytes(a: Answer, tail: seq<Octet>)
    requires TextReply(a)
    ensures var s := Reply(a) + tail;
            (s[4] != 0 || s[5] != 0 || s[6] != 0) && forall i :: 8 <= i < 8 + |a.body| ==> s[i] != 0
  {
    var n, s := |a.body|, Reply(a) + tail;
    LengthHasABit(n);
    assert s[4] == Le(n)[0] && s[5] == Le(n)[1] && s[6] == Le(n)[2];
    hide Le;
    forall i | 8 <= i < 8 + n ensures s[i] != 0 {
      assert s[i] == a.body[i - 8];
    }
  }

  /** Misalignment always shows: eight bytes read from inside a text reply,
      wherever they end, announce a non-zero status or an oversized body. */
  lemma MisalignedHeader(a: Answer, tail: seq<Octet>, at: nat)
    requires TextReply(a) && 1 <= at < 8 + |a.body|
    requires at + 8 <= |Reply(a) + tail|
    ensures !LooksGood((Reply(a) + tail)[at..at + 8])
  {
    ReplyBytes(a, tail);
    hide Reply;
    ShiftedWindow(Reply(a) + tail, at, |a.body|);
  }

  lemma ShiftedWindow(s: seq<Octet>, at: nat, n: nat)
    requires 1 <= at < 8 + n && at + 8 <= |s| && n >= 2
    requires s[4] != 0 || s[5] != 0 || s[6] != 0
    requires forall i :: 8 <= i < 8 + n && i < |s| ==> s[i] != 0
    ensures !LooksGood(s[at..at + 8])
  {
    hide LooksGood;
    var h := s[at..at + 8];
    GoodBytes(h);
    if at <= 2 {
      assert h[7] == s[at + 7];
    } else if at <= 4 {
      assert h[4 - at] == s[4] && h[5 - at] == s[5] && h[6 - at] == s[6];
    } else if at <= 8 {
      assert h[8 - at] == s[8];
    } else {
      assert h[0] == s[at];
    }
  }

  lemma GoodBytes(h: seq<Octet>)
    requires |h| == 8
    ensures LooksGood(h) ==> h[0] == h[1] == h[2] == h[3] == h[7] == 0
  {
    HeaderWords(h);
  }

  lemma LengthHasABit(n: nat)
    requires 0 < n <= MAX_RESPONSE
    ensures Le(n)[0] != 0 || Le(n)[1] != 0 || Le(n)[2] != 0
  {
    assert n == 65536 * (n / 65536) + 256 * (n / 256 % 256) + n % 256;
  }

  lemma HeaderWords(h: seq<Octet>)
    requires |h| == 8
    ensures UnLe(h[0..4]) == Weigh(h[0], h[1], h[2], h[3])
    ensures UnLe(h[4..8]) == Weigh(h[4], h[5], h[6], h[7])
  {
  }
}
