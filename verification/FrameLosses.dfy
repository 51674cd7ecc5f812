/** How frames leave the candidate buffer, and which one a take hands out, in
    terms of sharpness, time and age alone. */
module FrameLosses {
  import opened Bytes
  import opened FrameBuffering

  predicate Young(cfg: Config, c: Candidate, now: real) { now - c.capturedAt <= cfg.maxAge }

  /** A frame as good as another: measured if the other is and no less sharp,
      and no earlier if there is nothing to choose between them. */
  predicate NoWorse(a: Candidate, b: Candidate) {
    match (a.score, b.score)
    case (Measured(x), Measured(y)) => x > y || (x == y && a.capturedAt >= b.capturedAt)
    case (Measured(_), Unmeasured) => true
    case (Unmeasured, Measured(_)) => false
    case (Unmeasured, Unmeasured) => a.capturedAt >= b.capturedAt
  }

  lemma NoWorseIsNotLess(a: Candidate, b: Candidate)
    ensures NoWorse(a, b) <==> !Less(a, b)
  {
  }

  lemma {:induction false} FreshCounts(items: seq<Candidate>, cutoff: real, c: Candidate)
    ensures multiset(Fresh(items, cutoff))[c] == if c.capturedAt >= cutoff then multiset(items)[c] else 0
  {
    if items != [] {
      FreshCounts(items[1..], cutoff, c);
      assert items == [items[0]] + items[1..];
    }
  }

  /** Expiry removes exactly the frames that are too old, every one of them,
      and counts them. */
  lemma ExpireMeans(cfg: Config, s: State, now: real)
    ensures var t := Expire(cfg, s, now);
            && (forall c :: multiset(t.items)[c] == if Young(cfg, c, now) then multiset(s.items)[c] else 0)
            && t.counts.expired - s.counts.expired == |s.items| - |t.items|
            && t == s.(items := t.items, counts := s.counts.(expired := t.counts.expired))
  {
    hide Fresh;
    FreshMeans(s.items, now - cfg.maxAge);
    forall c ensures multiset(Fresh(s.items, now - cfg.maxAge))[c] == if Young(cfg, c, now) then multiset(s.items)[c] else 0 {
      FreshCounts(s.items, now - cfg.maxAge, c);
    }
  }

  /** When a take returns, and what: the best of the young frames if there are
      any; otherwise nothing at a closed buffer or past the deadline, and else
      it waits. */
  lemma TakeAnswers(cfg: Config, s: State, now: real, late: bool)
    ensures var r := Take(cfg, s, now, late).1;
            && (r.Taken? <==> exists c :: c in s.items && Young(cfg, c, now))
            && (r.Taken? ==> r.frame in s.items && Young(cfg, r.frame, now)
                             && forall c :: c in s.items && Young(cfg, c, now) ==> NoWorse(r.frame, c))
            && (r.Nothing? <==> !r.Taken? && (s.closed || late))
            && Take(cfg, s, now, late).0.counts.starved - s.counts.starved == (if r.Nothing? && !s.closed then 1 else 0)
  {
    hide Best, Less, NoWorse;
    var e := Expire(cfg, s, now);
    FreshMeans(s.items, now - cfg.maxAge);
    if e.items != [] {
      BestMeans(e.items);
      assert e.items[0] in e.items;
      forall c | c in e.items ensures NoWorse(e.items[Best(e.items)], c) {
        NoWorseIsNotLess(e.items[Best(e.items)], c);
      }
    }
  }

  /** A take removes the frame it returns, once, and the old ones. */
  lemma TakeRemoves(cfg: Config, s: State, now: real, late: bool, c: Candidate)
    ensures var (t, r) := Take(cfg, s, now, late);
            multiset(t.items)[c] + (if r == Taken(c) then 1 else 0)
            == if Young(cfg, c, now) then multiset(s.items)[c] else 0
  {
    hide Best, Fresh;
    var e := Expire(cfg, s, now);
    FreshCounts(s.items, now - cfg.maxAge, c);
    if e.items != [] {
      RemoveMultiset(e.items, Best(e.items));
    }
  }

  /** The only ways out: an outright discard, age, being taken, or being no
      better than a full buffer of others when a new frame comes. */
  lemma LostBecause(cfg: Config, s: State, op: Op, c: Candidate)
    requires |s.items| <= cfg.capacity && c in s.items && c !in Step(cfg, s, op).items
    ensures Discards(op)
            || ((op.TakeOp? || op.LookOp? || op.PutOp?) && !Young(cfg, c, op.now))
            || (op.TakeOp? && Take(cfg, s, op.now, op.late).1 == Taken(c))
            || (op.PutOp? && Accepts(s, op.epoch) && |Step(cfg, s, op).items| == cfg.capacity
                && forall k :: k in Step(cfg, s, op).items ==> NoWorse(k, c))
  {
    hide Best, Fresh, Insert;
    match op
    case PutOp(f, epoch, now) =>
      if Accepts(s, epoch) && Young(cfg, c, now) {
        FreshCounts(s.items, now - cfg.maxAge, c);
        FreshMeans(s.items, now - cfg.maxAge);
        PushedOut(cfg, Expire(cfg, s, now), f, c);
      }
    case TakeOp(now, late) => TakeRemoves(cfg, s, now, late, c);
    case LookOp(now) => FreshCounts(s.items, now - cfg.maxAge, c);
    case _ =>
  }

  lemma PushedOut(cfg: Config, s: State, f: Candidate, c: Candidate)
    requires |s.items| <= cfg.capacity && c in s.items && c !in Insert(cfg, s, f).items
    ensures |Insert(cfg, s, f).items| == cfg.capacity
    ensures forall k :: k in Insert(cfg, s, f).items ==> NoWorse(k, c)
  {
    hide Insert, Worst, Less, NoWorse;
    InsertItems(cfg, s, f);
    var items := s.items + [f];
    assert c in items;
    WorstMeans(items);
    var w := Worst(items);
    RemovedSize(items, w);
    RemoveMultiset(items, w);
    assert multiset(items)[c] > 0 && multiset(RemoveAt(items, w))[c] == 0;
    assert items[w] == c;
    forall k | k in RemoveAt(items, w) ensures NoWorse(k, c) {
      assert k in multiset(items);
      NoWorseIsNotLess(k, c);
    }
  }

  /** An accepted frame is held, or was no better than a full buffer. */
  lemma AcceptedIsHeld(cfg: Config, s: State, f: Candidate, epoch: Option<nat>, now: real)
    requires |s.items| <= cfg.capacity && !s.closed && (epoch.None? || epoch.value == s.epoch)
    ensures var t := Put(cfg, s, f, epoch, now);
            f in t.items || (|t.items| == cfg.capacity && forall k :: k in t.items ==> NoWorse(k, f))
  {
    hide Fresh, Insert, Worst, Less, NoWorse;
    var e := Expire(cfg, s, now);
    FreshMeans(s.items, now - cfg.maxAge);
    InsertItems(cfg, e, f);
    var items := e.items + [f];
    assert f in items;
    if |items| > cfg.capacity {
      WorstMeans(items);
      var w := Worst(items);
      RemovedSize(items, w);
      RemoveMultiset(items, w);
      if f !in RemoveAt(items, w) {
        assert items[w] == f;
        forall k | k in RemoveAt(items, w) ensures NoWorse(k, f) {
          assert k in multiset(items);
          NoWorseIsNotLess(k, f);
        }
      }
    }
  }

  /** Each frame put is counted, and once more if it was measured. */
  lemma AcceptedIsCounted(cfg: Config, s: State, f: Candidate, epoch: Option<nat>, now: real)
    requires !s.closed && (epoch.None? || epoch.value == s.epoch)
    ensures var n, m := s.counts, Put(cfg, s, f, epoch, now).counts;
            && m.produced == n.produced + 1 && m.staleEpoch == n.staleEpoch
            && m.measured == n.measured + if f.score.Measured? then 1 else 0
  {
    hide Evict, Fresh;
    var e := Expire(cfg, s, now);
    var n := e.counts.(produced := e.counts.produced + 1,
                       measured := e.counts.measured + if f.score.Measured? then 1 else 0);
    EvictMeans(cfg, e.(items := e.items + [f], counts := n));
  }

  /** A refused frame changes nothing held. */
  lemma RefusedChangesNothing(cfg: Config, s: State, f: Candidate, epoch: Option<nat>, now: real)
    requires s.closed || (epoch.Some? && epoch.value != s.epoch)
    ensures var t := Put(cfg, s, f, epoch, now);
            t.items == s.items && t.epoch == s.epoch && t.closed == s.closed
            && t.counts.staleEpoch == s.counts.staleEpoch + if s.closed then 0 else 1
  {
  }

  /** The four outright discards: all leave the buffer empty, a bump alone moves
      the epoch, closing refuses what comes, and reopening accepts it again with
      the counters at zero. */
  lemma OutrightDiscards(s: State)
    ensures Bump(s).items == [] && Bump(s).epoch == s.epoch + 1 && Bump(s).closed == s.closed && Bump(s).counts == s.counts
    ensures Discard(s).items == [] && Discard(s).epoch == s.epoch && Discard(s).closed == s.closed
    ensures Close(s).items == [] && Close(s).epoch == s.epoch && Close(s).closed && Close(s).counts == s.counts
    ensures Reopen(s).items == [] && Reopen(s).epoch == s.epoch && !Reopen(s).closed && Reopen(s).counts == ZERO
  {
  }
}
