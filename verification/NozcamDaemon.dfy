/** The detector daemon's resident loop, proved to say what `Serve` says. */
module NozcamDaemon {
  import opened Bytes
  import opened PipeWire

  const UNKNOWN: Word := 1
  const REFUSED: Word := 2

  /** What one read or write call will do: move some bytes, or fail. */
  datatype Move = Moves(n: nat) | Fails

  class Resident {
    const d: Daemon
    var stdin: seq<Octet>    // sent by the peer and not read yet; then it closes
    var stdout: seq<Octet>
    var served: nat
    var moves: seq<Move>     // what the system calls will do

    ghost predicate Valid() { Bounded(d) }

    /** No system call will fail. */
    ghost predicate Reliable()
      reads this`moves
    {
      forall i :: 0 <= i < |moves| ==> moves[i].Moves?
    }

    constructor (d: Daemon, stdin: seq<Octet>, moves: seq<Move>)
      requires Bounded(d)
      ensures Valid() && this.d == d && this.stdin == stdin && stdout == [] && served == 0 && this.moves == moves
    {
      this.d, this.stdin, this.stdout, this.served, this.moves := d, stdin, [], 0, moves;
    }

    /** What one system call moves: at least a byte, at most `most`. */
    method Moved(most: nat) returns (n: Option<nat>)
      requires most > 0
      modifies this`moves
      ensures n.Some? ==> 0 < n.value <= most
      ensures old(Reliable()) ==> n.Some? && Reliable()
    {
      if moves == [] {
        return Some(most);
      }
      var m := moves[0];
      moves := moves[1..];
      match m
      case Fails => return None;
      case Moves(k) => return Some(if k == 0 then 1 else if k < most then k else most);
    }

    method ReadExact(n: nat) returns (data: Option<seq<Octet>>)
      modifies this`stdin, this`moves
      ensures data.Some? ==> n <= |old(stdin)| && data.value == old(stdin)[..n] && stdin == old(stdin)[n..]
      ensures old(Reliable()) ==> Reliable() && (data.None? ==> n > |old(stdin)|)
    {
      var got := [];
      while |got| < n
        invariant |got| <= n && got + stdin == old(stdin)
        invariant old(Reliable()) ==> Reliable()
        decreases n - |got|
      {
        if stdin == [] {
          return None;
        }
        var left := n - |got|;
        var size := Moved(if left < |stdin| then left else |stdin|);
        if size.None? {
          return None;
        }
        assert got + stdin == got + stdin[..size.value] + stdin[size.value..];
        got, stdin := got + stdin[..size.value], stdin[size.value..];
      }
      return Some(got);
    }

    /** Discards n bytes through a fixed buffer. */
    method DrainBounded(n: nat) returns (ok: bool)
      modifies this`stdin, this`moves
      ensures ok ==> n <= |old(stdin)| && stdin == old(stdin)[n..]
      ensures old(Reliable()) ==> Reliable() && (!ok ==> n > |old(stdin)|)
    {
      var left := n;
      while left > 0
        invariant 0 <= left <= n && n - left <= |old(stdin)| && stdin == old(stdin)[n - left..]
        invariant old(Reliable()) ==> Reliable()
      {
        var chunk := ReadExact(if left < 65536 then left else 65536);
        if chunk.None? {
          return false;
        }
        left := left - |chunk.value|;
      }
      return true;
    }

    method WriteExact(data: seq<Octet>) returns (ok: bool)
      modifies this`stdout, this`moves
      ensures old(stdout) <= stdout <= old(stdout) + data && (ok ==> stdout == old(stdout) + data)
      ensures old(Reliable()) ==> Reliable() && ok
    {
      var done := 0;
      while done < |data|
        invariant 0 <= done <= |data| && stdout == old(stdout) + data[..done]
        invariant old(Reliable()) ==> Reliable()
      {
        var size := Moved(|data| - done);
        if size.None? {
          return false;
        }
        assert data[..done] + data[done..done + size.value] == data[..done + size.value];
        stdout := stdout + data[done..done + size.value];
        done := done + size.value;
      }
      assert data[..|data|] == data;
      return true;
    }

    method SendFrame(status: Word, body: seq<Octet>) returns (ok: bool)
      requires |body| < 0x1_0000_0000
      modifies this`stdout, this`moves
      ensures var reply := Reply(Answer(status, body));
              old(stdout) <= stdout <= old(stdout) + reply && (ok ==> stdout == old(stdout) + reply)
      ensures old(Reliable()) ==> Reliable() && ok
    {
      ghost var head := Header(status, |body|);
      assert old(stdout) + head + body == old(stdout) + (head + body);
      hide Header;
      ok := WriteExact(Header(status, |body|));
      if ok && body != [] {
        ok := WriteExact(body);
      }
    }

    /** After a turn that began with `total` still to be said: all of it is said
        or still to come, or the loop has ended having said a beginning. */
    ghost predicate Said(total: seq<Octet>, again: bool)
      requires Valid()
      reads this`stdin, this`stdout, this`served
    {
      if again then stdout + Serve(d, stdin, served) == total else stdout <= total
    }

    /** One turn of the loop: a request answered or refused, or the end. */
    method Turn() returns (again: bool)
      requires Valid()
      modifies this
      ensures Said(old(stdout) + Serve(d, old(stdin), old(served)), again)
      ensures old(Reliable()) ==> Reliable() && (!again ==> stdout == old(stdout) + Serve(d, old(stdin), old(served)))
      ensures again ==> |stdin| < |old(stdin)|
    {
      hide UnLe, Le, Reply, AnswerTo, DecodeInfer, AfterHeader;
      ghost var input := stdin;
      var hdr := ReadExact(8);
      if hdr.None? {
        return false;
      }
      assert hdr.value[0..4] == input[0..4] && hdr.value[4..8] == input[4..8];
      ServeIs(d, input, served);
      hide Serve;
      again := Dispatch(UnLe(hdr.value[0..4]), UnLe(hdr.value[4..8]));
    }

    /** The rest of a turn, its header read. */
    method Dispatch(cmd: Word, len: Word) returns (again: bool)
      requires Valid()
      modifies this
      ensures Said(old(stdout) + AfterHeader(d, old(stdin), cmd, len, old(served)), again)
      ensures old(Reliable()) ==>
                Reliable() && (!again ==> stdout == old(stdout) + AfterHeader(d, old(stdin), cmd, len, old(served)))
      ensures again ==> |stdin| <= |old(stdin)|
    {
      hide Reply, AnswerTo, DecodeInfer, Serve, AfterInfer;
      var ok: bool;
      if cmd == PING {
        var drained := DrainBounded(len);   // nothing to drain when len is 0
        if !drained {
          return false;
        }
        ok := SendFrame(0, PONG);
      } else if cmd == SHUTDOWN {
        ok := SendFrame(0, BYE);
        return false;
      } else if cmd == INFO {
        ok := SendFrame(0, d.info(served));
      } else if cmd != INFER {
        ok := SendFrame(UNKNOWN, d.complaint(served));
      } else {
        again := InferTurn(len);
        return;
      }
      if !ok {
        return false;
      }
      served := served + 1;
      again := true;
    }

    /** The rest of an INFER turn, its header read. */
    method InferTurn(len: Word) returns (again: bool)
      requires Valid()
      modifies this
      ensures Said(old(stdout) + AfterInfer(d, old(stdin), len, old(served)), again)
      ensures old(Reliable()) ==>
                Reliable() && (!again ==> stdout == old(stdout) + AfterInfer(d, old(stdin), len, old(served)))
      ensures again ==> |stdin| <= |old(stdin)|
    {
      hide UnLe, Le, Reply, AnswerTo, DecodeInfer, Serve;
      if len != PREFIX + d.inBytes {
        var sent := SendFrame(REFUSED, d.complaint(served));
        if !sent {
          return false;
        }
        var drained := DrainBounded(len);
        if !drained {
          return false;
        }
        served := served + 1;
        return true;
      }
      ghost var input := stdin;
      var payload := ReadPayload(len);
      if payload.None? {
        return false;
      }
      var r := DecodeInfer(payload.value);
      AnswerIs(d, served, payload.value);
      var ok: bool;
      if !InCanvas(d, r.rect) {
        ok := SendFrame(REFUSED, d.complaint(served));
      } else {
        var o := d.outcome(served, r);
        ok := SendFrame(o.status, o.body);
      }
      if !ok {
        return false;
      }
      served := served + 1;
      return true;
    }

    /** Request id, rectangle and pixels, read one after the other. */
    method ReadPayload(len: Word) returns (payload: Option<seq<Octet>>)
      requires len == PREFIX + d.inBytes
      modifies this`stdin, this`moves
      ensures payload.Some? ==> len <= |old(stdin)| && payload.value == old(stdin)[..len] && stdin == old(stdin)[len..]
      ensures old(Reliable()) ==> Reliable() && (payload.None? ==> len > |old(stdin)|)
    {
      var id := ReadExact(4);
      if id.None? {
        return None;
      }
      var rect := ReadExact(16);
      if rect.None? {
        return None;
      }
      var pixels := ReadExact(d.inBytes);
      if pixels.None? {
        return None;
      }
      assert old(stdin)[..len] == id.value + rect.value + pixels.value;
      return Some(id.value + rect.value + pixels.value);
    }

    /** The loop, until the peer closes, shuts it down or a call fails: a
        beginning of what the specification says for the bytes received, and
        all of it unless a call failed. */
    method Loop()
      requires Valid()
      modifies this
      ensures stdout <= old(stdout) + Serve(d, old(stdin), old(served))
      ensures old(Reliable()) ==> stdout == old(stdout) + Serve(d, old(stdin), old(served))
    {
      hide Serve;
      ghost var total := stdout + Serve(d, stdin, served);
      var again := true;
      while again
        invariant Said(total, again)
        invariant old(Reliable()) ==> Reliable() && (!again ==> stdout == total)
        decreases again, |stdin|
      {
        again := Turn();
      }
    }
  }

  lemma AnswerIs(d: Daemon, k: nat, payload: seq<Octet>)
    requires Bounded(d) && |payload| == PREFIX + d.inBytes
    ensures var r := DecodeInfer(payload);
            r.Infer? && AnswerTo(d, k, r) == if InCanvas(d, r.rect) then d.outcome(k, r) else Answer(2, d.complaint(k))
    ensures Framable(d.outcome(k, DecodeInfer(payload)))
  {
  }

  /** What the daemon says from a header on. */
  ghost function AfterHeader(d: Daemon, rest: seq<Octet>, cmd: Word, len: Word, k: nat): seq<Octet>
    requires Bounded(d)
  {
    if cmd == PING then if |rest| < len then [] else Reply(Answer(0, PONG)) + Serve(d, rest[len..], k + 1)
    else if cmd == SHUTDOWN then Reply(Answer(0, BYE))
    else if cmd == INFO then Reply(Answer(0, d.info(k))) + Serve(d, rest, k + 1)
    else if cmd != INFER then Reply(Answer(UNKNOWN, d.complaint(k))) + Serve(d, rest, k + 1)
    else AfterInfer(d, rest, len, k)
  }

  lemma ServeIs(d: Daemon, input: seq<Octet>, k: nat)
    requires Bounded(d) && |input| >= 8
    ensures Serve(d, input, k) == AfterHeader(d, input[8..], UnLe(input[0..4]), UnLe(input[4..8]), k)
  {
    hide UnLe, Reply, AnswerTo, DecodeInfer;
  }

  /** What the daemon says from an INFER header on. */
  ghost function AfterInfer(d: Daemon, rest: seq<Octet>, len: Word, k: nat): seq<Octet>
    requires Bounded(d)
  {
    if len != PREFIX + d.inBytes then
      Reply(Answer(2, d.complaint(k))) + if |rest| < len then [] else Serve(d, rest[len..], k + 1)
    else if |rest| < len then []
    else Reply(AnswerTo(d, k, DecodeInfer(rest[..len]))) + Serve(d, rest[len..], k + 1)
  }
}
