/** The annotated live view's writer and its round trip through the parser. */
module MjpegWriter {
  import opened Bytes
  import opened HeaderBlock
  import opened MultipartSpec
  import opened MultipartConfluence
  import opened MultipartWire

  const BOUNDARY := "pinozcamframe"
  const TYPE_LINE := "Content-Type" + ": " + "image/jpeg"

  function LengthLine(n: nat): string { "Content-Length: " + Decimal(n) }

  /** The bytes one pass of the stream loop writes. */
  function PartBytes(jpeg: string): string {
    "--" + BOUNDARY + "\r\n" + TYPE_LINE + "\r\n"
    + "Content-Length: " + Decimal(|jpeg|) + "\r\n\r\n" + jpeg + "\r\n"
  }

  function Written(jpegs: seq<string>): string {
    if jpegs == [] then "" else PartBytes(jpegs[0]) + Written(jpegs[1..])
  }

  /** The stream loop over the frames the store hands out before it has none. */
  method Stream(frames: seq<string>) returns (socket: string)
    ensures socket == Written(frames)
  {
    socket := "";
    var seen := 0;
    while seen < |frames|
      invariant 0 <= seen <= |frames|
      invariant socket + Written(frames[seen..]) == Written(frames)
    {
      var jpeg := frames[seen];
      var part := "--" + BOUNDARY + "\r\n" + TYPE_LINE + "\r\n"
      + "Content-Length: " + Decimal(|jpeg|) + "\r\n\r\n" + jpeg + "\r\n";
      WrittenNext(socket, frames, seen);
      socket := socket + part;
      seen := seen + 1;
    }
  }

  lemma WrittenNext(socket: string, frames: seq<string>, seen: nat)
    requires seen < |frames|
    ensures socket + PartBytes(frames[seen]) + Written(frames[seen + 1..])
         == socket + Written(frames[seen..])
  {
    assert frames[seen..][1..] == frames[seen + 1..];
  }

  /** What the limits must leave room for; the defaults do, for every body
      they allow (DefaultsHaveRoom). */
  predicate RoomFor(cfg: Config, jpegs: seq<string>) {
    cfg.delim == "--" + BOUNDARY && |cfg.delim| + 1 <= cfg.maxGap
    && |TYPE_LINE| <= cfg.maxHeaderLine
    && forall i :: 0 <= i < |jpegs| ==>
         |jpegs[i]| <= cfg.maxPart && |Decimal(|jpegs[i]|)| <= MAX_INT_DIGITS
         && |LengthLine(|jpegs[i]|)| <= cfg.maxHeaderLine
         && |TYPE_LINE| + |LengthLine(|jpegs[i]|)| + 5 <= cfg.maxHeadersTotal
  }

  function DefaultConfig(): Config {
    Config(NormalizeDelimiter(BOUNDARY), 8 * 1024, 64 * 1024, 64 * 1024, 16 * 1024 * 1024)
  }

  function Power10(k: nat): nat { if k == 0 then 1 else 10 * Power10(k - 1) }

  lemma {:induction false} DecimalLength(n: nat, k: nat)
    requires 1 <= k && n < Power10(k)
    ensures |Decimal(n)| <= k
  {
    if n >= 10 {
      DecimalLength(n / 10, k - 1);
    }
  }

  lemma DefaultsHaveRoom(jpegs: seq<string>)
    requires forall i :: 0 <= i < |jpegs| ==> |jpegs[i]| <= 16 * 1024 * 1024
    ensures RoomFor(DefaultConfig(), jpegs)
  {
    assert Power10(8) == 100_000_000 by {
      assert Power10(4) == 10_000;
    }
    forall i | 0 <= i < |jpegs| ensures |Decimal(|jpegs[i]|)| <= 8 {
      DecimalLength(|jpegs[i]|, 8);
    }
    assert BOUNDARY[0] != '-';
  }

  // ---- the written header block ------------------------------------------

  function FrameOf(jpeg: string): Frame {
    Frame(TYPE_LINE + "\r\n" + LengthLine(|jpeg|), jpeg)
  }

  function FramesOf(jpegs: seq<string>): seq<Frame> {
    seq(|jpegs|, i requires 0 <= i < |jpegs| => FrameOf(jpegs[i]))
  }

  lemma LinesAreClean(n: nat)
    ensures OneLine(TYPE_LINE) && OneLine(LengthLine(n))
  {
  }

  lemma TwoLinesHaveNoTerminator(l1: string, l2: string)
    requires OneLine(l1) && OneLine(l2) && l2 != ""
    ensures HeaderTerminator(l1 + "\r\n" + l2 + "\r\n\r").None?
  {
    var s := l1 + "\r\n" + l2 + "\r\n\r";
    forall j | 0 <= j < |s| ensures !OccursAt(s, "\r\n\r\n", j) && !OccursAt(s, "\n\n", j) {
      if j + 2 <= |s| {
        assert s[j..j + 2][0] == s[j] && s[j..j + 2][1] == s[j + 1];
      }
      if j + 4 <= |s| {
        assert s[j..j + 4][0] == s[j] && s[j..j + 4][2] == s[j + 2] && s[j..j + 4][3] == s[j + 3];
      }
    }
    hide OccursAt;
    FindNone(s, "\r\n\r\n", 0);
    FindNone(s, "\n\n", 0);
  }

  lemma TypeLineParses(h: HeaderMap)
    ensures AddLine(h, TYPE_LINE) == h["content-type" := "image/jpeg"]
  {
    ParsesTo(TYPE_LINE, "Content-Type", "image/jpeg", h);
    assert Lower("Content-Type") == "content-type";
  }

  lemma LengthLineParses(h: HeaderMap, n: nat)
    ensures AddLine(h, LengthLine(n)) == h["content-length" := Decimal(n)]
  {
    var d := Decimal(n);
    assert IsDigit(d[0]) && IsDigit(d[|d| - 1]);
    assert LengthLine(n) == "Content-Length" + ": " + d;
    ParsesTo(LengthLine(n), "Content-Length", d, h);
    assert Lower("Content-Length") == "content-length";
  }

  lemma TwoLines(l1: string, l2: string, maxLine: int)
    requires |l1| <= maxLine && |l2| <= maxLine
    ensures AddLines(map[], [l1, l2], maxLine) == Some(AddLine(AddLine(map[], l1), l2))
  {
    assert [l1, l2][1..] == [l2] && [l2][1..] == [];
    assert AddLines(AddLine(map[], l1), [l2], maxLine) == Some(AddLine(AddLine(map[], l1), l2));
  }

  lemma BlockParses(n: nat, maxLine: int)
    requires |TYPE_LINE| <= maxLine && |LengthLine(n)| <= maxLine
    ensures Parse(TYPE_LINE + "\r\n" + LengthLine(n), maxLine)
         == Some(map["content-type" := "image/jpeg", "content-length" := Decimal(n)])
  {
    var l1, l2 := TYPE_LINE, LengthLine(n);
    assert SplitLines(l1 + "\r\n" + l2) == [l1, l2] by {
      LinesAreClean(n);
      SplitFirst(l1, l2);
      SplitFirst(l2, "");
    }
    TwoLines(l1, l2, maxLine);
    TypeLineParses(map[]);
    LengthLineParses(map["content-type" := "image/jpeg"], n);
  }

  lemma WrittenPartIsSized(cfg: Config, jpegs: seq<string>, i: nat)
    requires RoomFor(cfg, jpegs) && i < |jpegs|
    ensures Sized(cfg, FrameOf(jpegs[i]))
    ensures HeadersOf(cfg, FrameOf(jpegs[i]))
         == map["content-type" := "image/jpeg", "content-length" := Decimal(|jpegs[i]|)]
  {
    var n := |jpegs[i]|;
    LinesAreClean(n);
    BlockParses(n, cfg.maxHeaderLine);
    TwoLinesHaveNoTerminator(TYPE_LINE, LengthLine(n));
    IntOfDecimal(n);
  }

  // ---- the stream is the wire --------------------------------------------

  lemma PartIsFrame(cfg: Config, jpeg: string)
    requires cfg.delim == "--" + BOUNDARY
    ensures PartBytes(jpeg) == Opening(cfg, FrameOf(jpeg)) + jpeg + "\r\n"
  {
    var head := cfg.delim + "\r\n";
    assert head + TYPE_LINE + "\r\n" + "Content-Length: " + Decimal(|jpeg|)
        == head + (TYPE_LINE + "\r\n" + LengthLine(|jpeg|));
  }

  lemma {:induction false} WrittenIsWire(cfg: Config, gap: string, jpegs: seq<string>)
    requires cfg.delim == "--" + BOUNDARY
    ensures Wire(cfg, gap, FramesOf(jpegs)) == gap + Written(jpegs)
    decreases |jpegs|
  {
    if jpegs != [] {
      var rest, opening := jpegs[1..], Opening(cfg, FrameOf(jpegs[0]));
      WrittenIsWire(cfg, "\r\n", rest);
      assert FramesOf(jpegs)[1..] == FramesOf(rest);
      PartIsFrame(cfg, jpegs[0]);
      assert gap + opening + jpegs[0] + ("\r\n" + Written(rest))
          == gap + (opening + jpegs[0] + "\r\n" + Written(rest));
    }
  }

  /** Where the body of the k-th part ends in the stream (its CRLF excluded). */
  function EndOf(jpegs: seq<string>, k: nat): int
    requires k <= |jpegs|
  {
    |Written(jpegs[..k])| - 2
  }

  /** `n` bytes into a stream that starts at `at` hold exactly k bodies. */
  predicate HoldsExactly(jpegs: seq<string>, at: nat, n: int, k: nat) {
    k <= |jpegs|
    && (k > 0 ==> at + EndOf(jpegs, k) <= n)
    && (k < |jpegs| ==> n < at + EndOf(jpegs, k + 1))
  }

  lemma EndOfRest(jpegs: seq<string>, k: nat)
    requires k < |jpegs|
    ensures EndOf(jpegs, k + 1) == |PartBytes(jpegs[0])| + EndOf(jpegs[1..], k)
  {
    assert jpegs[..k + 1][1..] == jpegs[1..][..k];
  }

  lemma HoldsOneMore(jpegs: seq<string>, at: nat, n: int, k: nat)
    requires jpegs != []
    requires at + |PartBytes(jpegs[0])| - 2 <= n
    requires HoldsExactly(jpegs[1..], 2, n - at - |PartBytes(jpegs[0])| + 2, k)
    ensures HoldsExactly(jpegs, at, n, k + 1)
  {
    EndOfRest(jpegs, k);
    if k < |jpegs| - 1 {
      EndOfRest(jpegs, k + 1);
    }
  }

  /** The count of complete bodies is the one the offsets say. */
  lemma {:induction false} CompleteByOffsets(cfg: Config, gap: string, jpegs: seq<string>, n: nat)
    requires RoomFor(cfg, jpegs)
    ensures HoldsExactly(jpegs, |gap|, n, Complete(cfg, gap, FramesOf(jpegs), n))
    decreases |jpegs|
  {
    if jpegs != [] {
      var rest, f, frames := jpegs[1..], FrameOf(jpegs[0]), FramesOf(jpegs);
      WrittenPartIsSized(cfg, jpegs, 0);
      PartIsFrame(cfg, jpegs[0]);
      assert RoomFor(cfg, rest);
      hide RoomFor, FrameOf, Opening, PartBytes, Sized, HeadersOf;
      assert frames[0] == f && frames[1..] == FramesOf(rest);
      var left := n - |gap| - |Opening(cfg, f)| - |jpegs[0]|;
      assert Complete(cfg, gap, frames, n) == CompleteFrom(cfg, frames, left);
      if left >= 0 {
        CompleteByOffsets(cfg, "\r\n", rest, left);
        HoldsOneMore(jpegs, |gap|, n, Complete(cfg, "\r\n", FramesOf(rest), left));
      } else {
        EndOfRest(jpegs, 0);
      }
    }
  }

  /** Main result: any list of frames, any prefix of what `Stream` writes for
      it, in any chunks. The parser raises nothing and returns, in order and
      unchanged, exactly the frames whose last byte has arrived. */
  lemma StreamRoundTrip(cfg: Config, jpegs: seq<string>, chunks: seq<string>) returns (k: nat)
    requires RoomFor(cfg, jpegs) && Join(chunks) <= Written(jpegs)
    ensures HoldsExactly(jpegs, 0, |Join(chunks)|, k)
    ensures var o := FeedAll(cfg, START, chunks);
            o.error.None? && |o.parts| == k
            && forall i :: 0 <= i < k ==>
                 o.parts[i].body == jpegs[i]
                 && o.parts[i].headers
                    == map["content-type" := "image/jpeg", "content-length" := Decimal(|jpegs[i]|)]
  {
    var frames := FramesOf(jpegs);
    forall i | 0 <= i < |jpegs| ensures Sized(cfg, frames[i]) {
      WrittenPartIsSized(cfg, jpegs, i);
    }
    WrittenIsWire(cfg, "", jpegs);
    PrefixParses(cfg, frames, chunks);
    k := Complete(cfg, "", frames, |Join(chunks)|);
    CompleteByOffsets(cfg, "", jpegs, |Join(chunks)|);
    forall i | 0 <= i < k
      ensures HeadersOf(cfg, frames[i])
           == map["content-type" := "image/jpeg", "content-length" := Decimal(|jpegs[i]|)]
    {
      WrittenPartIsSized(cfg, jpegs, i);
    }
  }
}
