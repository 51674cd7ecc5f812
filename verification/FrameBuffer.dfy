/** The bounded candidate buffer between the sampler and the detector. */
module FrameBuffering {
  import opened Bytes

  /** `UNMEASURED` is minus infinity: below every measured sharpness. */
  datatype Score = Unmeasured | Measured(value: real)

  datatype Candidate = Candidate(image: int, score: Score, capturedAt: real)

  datatype Counts = Counts(produced: nat, measured: nat, taken: nat, expired: nat,
                           evicted: nat, starved: nat, staleEpoch: nat)

  const ZERO := Counts(0, 0, 0, 0, 0, 0, 0)

  /** `discarded` is not in the program: it counts what bump, clear, close and
      reopen throw away, so that every frame is accounted for. */
  datatype State = State(items: seq<Candidate>, epoch: nat, closed: bool, counts: Counts, discarded: nat)

  datatype Config = Config(capacity: nat, maxAge: real)

  const EMPTY := State([], 0, false, ZERO, 0)

  // ---- order by (score, captured_at) -------------------------------------

  predicate ScoreLess(a: Score, b: Score) {
    match (a, b)
    case (Unmeasured, Measured(_)) => true
    case (Measured(x), Measured(y)) => x < y
    case _ => false
  }

  predicate Less(a: Candidate, b: Candidate) {
    ScoreLess(a.score, b.score) || (a.score == b.score && a.capturedAt < b.capturedAt)
  }

  /** `min(items, key=...)`: the first of the least. */
  function Worst(items: seq<Candidate>): (i: nat)
    requires items != []
    ensures i < |items|
  {
    if |items| == 1 then 0
    else
      var j := 1 + Worst(items[1..]);
      if Less(items[j], items[0]) then j else 0
  }

  /** `max(items, key=...)`: the first of the greatest. */
  function Best(items: seq<Candidate>): (i: nat)
    requires items != []
    ensures i < |items|
  {
    if |items| == 1 then 0
    else
      var j := 1 + Best(items[1..]);
      if Less(items[0], items[j]) then j else 0
  }

  function RemoveAt(items: seq<Candidate>, i: nat): seq<Candidate>
    requires i < |items|
  {
    items[..i] + items[i + 1..]
  }

  /** `items.remove(x)`: the first element equal to x goes. */
  function IndexOf(items: seq<Candidate>, c: Candidate): (i: nat)
    requires c in items
    ensures i < |items| && items[i] == c && forall j :: 0 <= j < i ==> items[j] != c
  {
    if items[0] == c then 0 else 1 + IndexOf(items[1..], c)
  }

  lemma {:induction false} WorstMeans(items: seq<Candidate>)
    requires items != []
    ensures forall j :: 0 <= j < |items| ==> !Less(items[j], items[Worst(items)])
    ensures IndexOf(items, items[Worst(items)]) == Worst(items)
  {
    if |items| > 1 {
      var rest := items[1..];
      WorstMeans(rest);
      assert items == [items[0]] + rest;
    }
  }

  lemma {:induction false} BestMeans(items: seq<Candidate>)
    requires items != []
    ensures forall j :: 0 <= j < |items| ==> !Less(items[Best(items)], items[j])
    ensures IndexOf(items, items[Best(items)]) == Best(items)
  {
    if |items| > 1 {
      var rest := items[1..];
      BestMeans(rest);
      assert items == [items[0]] + rest;
    }
  }

  // ---- the operations ----------------------------------------------------

  function Fresh(items: seq<Candidate>, cutoff: real): seq<Candidate> {
    if items == [] then []
    else if items[0].capturedAt >= cutoff then [items[0]] + Fresh(items[1..], cutoff)
    else Fresh(items[1..], cutoff)
  }

  lemma {:induction false} FreshMeans(items: seq<Candidate>, cutoff: real)
    ensures |Fresh(items, cutoff)| <= |items|
    ensures forall c :: c in Fresh(items, cutoff) <==> c in items && c.capturedAt >= cutoff
    ensures (forall c :: c in items ==> c.capturedAt >= cutoff) ==> Fresh(items, cutoff) == items
  {
    if items != [] {
      FreshMeans(items[1..], cutoff);
      assert items == [items[0]] + items[1..];
    }
  }

  function Expire(cfg: Config, s: State, now: real): State {
    var young := Fresh(s.items, now - cfg.maxAge);
    FreshMeans(s.items, now - cfg.maxAge);
    s.(items := young, counts := s.counts.(expired := s.counts.expired + (|s.items| - |young|)))
  }

  function Evict(cfg: Config, s: State): State
    decreases |s.items|
  {
    if |s.items| <= cfg.capacity then s
    else
      Evict(cfg, s.(items := RemoveAt(s.items, Worst(s.items)),
                    counts := s.counts.(evicted := s.counts.evicted + 1)))
  }

  function Insert(cfg: Config, s: State, c: Candidate): State {
    var n := s.counts.(produced := s.counts.produced + 1,
                       measured := s.counts.measured + if c.score.Measured? then 1 else 0);
    Evict(cfg, s.(items := s.items + [c], counts := n))
  }

  predicate Accepts(s: State, epoch: Option<nat>) {
    !s.closed && (epoch.None? || epoch.value == s.epoch)
  }

  function Put(cfg: Config, s: State, c: Candidate, epoch: Option<nat>, now: real): State {
    if s.closed then s
    else if !Accepts(s, epoch) then s.(counts := s.counts.(staleEpoch := s.counts.staleEpoch + 1))
    else Insert(cfg, Expire(cfg, s, now), c)
  }

  datatype TakeResult = Taken(frame: Candidate) | Nothing | Waiting

  /** One turn of `take` under the lock; `late` when its deadline has passed. */
  function Take(cfg: Config, s: State, now: real, late: bool): (State, TakeResult) {
    var e := Expire(cfg, s, now);
    if e.items != [] then
      var i := Best(e.items);
      (e.(items := RemoveAt(e.items, i), counts := e.counts.(taken := e.counts.taken + 1)), Taken(e.items[i]))
    else if e.closed then (e, Nothing)
    else if late then (e.(counts := e.counts.(starved := e.counts.starved + 1)), Nothing)
    else (e, Waiting)
  }

  function Discard(s: State): State { s.(items := [], discarded := s.discarded + |s.items|) }

  function Bump(s: State): State { Discard(s).(epoch := s.epoch + 1) }

  function Close(s: State): State { Discard(s).(closed := true) }

  function Reopen(s: State): State { State([], s.epoch, false, ZERO, 0) }

  // ---- runs --------------------------------------------------------------

  datatype Op =
    | PutOp(frame: Candidate, epoch: Option<nat>, now: real)
    | TakeOp(now: real, late: bool)
    | LookOp(now: real)          // should_measure, depth: they expire too
    | BumpOp
    | ClearOp
    | CloseOp
    | ReopenOp

  function Step(cfg: Config, s: State, op: Op): State {
    match op
    case PutOp(c, e, now) => Put(cfg, s, c, e, now)
    case TakeOp(now, late) => Take(cfg, s, now, late).0
    case LookOp(now) => Expire(cfg, s, now)
    case BumpOp => Bump(s)
    case ClearOp => Discard(s)
    case CloseOp => Close(s)
    case ReopenOp => Reopen(s)
  }

  /** The state after the first n operations of an interleaving. */
  function After(cfg: Config, ops: seq<Op>, n: nat): State
    requires n <= |ops|
  {
    if n == 0 then EMPTY else Step(cfg, After(cfg, ops, n - 1), ops[n - 1])
  }

  lemma {:induction false} EvictMeans(cfg: Config, s: State)
    ensures var t := Evict(cfg, s);
            t == s.(items := t.items, counts := s.counts.(evicted := t.counts.evicted))
            && |t.items| + t.counts.evicted == |s.items| + s.counts.evicted
            && |t.items| == (if |s.items| <= cfg.capacity then |s.items| else cfg.capacity)
            && forall c :: c in t.items ==> c in s.items
    decreases |s.items|
  {
    if |s.items| > cfg.capacity {
      EvictMeans(cfg, s.(items := RemoveAt(s.items, Worst(s.items)),
                         counts := s.counts.(evicted := s.counts.evicted + 1)));
    }
  }

  lemma InsertMeans(cfg: Config, s: State, c: Candidate)
    ensures var t := Insert(cfg, s, c);
            t.epoch == s.epoch && t.closed == s.closed && t.discarded == s.discarded
            && t.counts.produced == s.counts.produced + 1
            && t.counts.taken == s.counts.taken && t.counts.expired == s.counts.expired
            && |t.items| + t.counts.evicted == |s.items| + 1 + s.counts.evicted
            && |t.items| == (if |s.items| + 1 <= cfg.capacity then |s.items| + 1 else cfg.capacity)
            && forall x :: x in t.items ==> x in s.items || x == c
  {
    var n := s.counts.(produced := s.counts.produced + 1,
                       measured := s.counts.measured + if c.score.Measured? then 1 else 0);
    EvictMeans(cfg, s.(items := s.items + [c], counts := n));
  }

  predicate Accounted(cfg: Config, s: State) {
    |s.items| <= cfg.capacity
    && s.counts.produced
       == s.counts.taken + s.counts.expired + s.counts.evicted + |s.items| + s.discarded
  }

  lemma StepAccounts(cfg: Config, s: State, op: Op)
    requires Accounted(cfg, s)
    ensures Accounted(cfg, Step(cfg, s, op))
  {
    hide Evict, Fresh, Best, Insert;
    match op
    case PutOp(c, e, now) =>
      if Accepts(s, e) {
        FreshMeans(s.items, now - cfg.maxAge);
        InsertMeans(cfg, Expire(cfg, s, now), c);
      }
    case TakeOp(now, late) => FreshMeans(s.items, now - cfg.maxAge);
    case LookOp(now) => FreshMeans(s.items, now - cfg.maxAge);
    case _ =>
  }

  /** Conservation, over every interleaving: each frame produced since the last
      reopen was taken, expired, evicted, thrown away, or is still held, and
      at most `capacity` are held. */
  lemma {:induction false} Conservation(cfg: Config, ops: seq<Op>, n: nat)
    requires n <= |ops|
    ensures Accounted(cfg, After(cfg, ops, n))
  {
    if n > 0 {
      Conservation(cfg, ops, n - 1);
      StepAccounts(cfg, After(cfg, ops, n - 1), ops[n - 1]);
    }
  }

  predicate Discards(op: Op) { op.BumpOp? || op.ClearOp? || op.CloseOp? || op.ReopenOp? }

  /** c was accepted at step p and nothing was thrown away since. */
  predicate BroughtIn(cfg: Config, ops: seq<Op>, n: nat, p: nat, c: Candidate)
    requires n <= |ops|
  {
    p < n && ops[p].PutOp? && ops[p].frame == c && Accepts(After(cfg, ops, p), ops[p].epoch)
    && forall q :: p < q < n ==> !Discards(ops[q])
  }

  lemma StepItems(cfg: Config, s: State, op: Op, c: Candidate)
    requires c in Step(cfg, s, op).items
    ensures !Discards(op)
    ensures c in s.items || (op.PutOp? && op.frame == c && Accepts(s, op.epoch))
  {
    hide Evict, Fresh, Best, Insert;
    match op
    case PutOp(f, e, now) =>
      if Accepts(s, e) {
        FreshMeans(s.items, now - cfg.maxAge);
        InsertMeans(cfg, Expire(cfg, s, now), f);
      }
    case TakeOp(now, late) => FreshMeans(s.items, now - cfg.maxAge);
    case LookOp(now) => FreshMeans(s.items, now - cfg.maxAge);
    case _ =>
  }

  lemma {:induction false} HeldWasBroughtIn(cfg: Config, ops: seq<Op>, n: nat, c: Candidate) returns (p: nat)
    requires n <= |ops| && c in After(cfg, ops, n).items
    ensures BroughtIn(cfg, ops, n, p, c)
  {
    var s := After(cfg, ops, n - 1);
    StepItems(cfg, s, ops[n - 1], c);
    if c in s.items {
      p := HeldWasBroughtIn(cfg, ops, n - 1, c);
    } else {
      p := n - 1;
    }
  }

  lemma {:induction false} EpochGrows(cfg: Config, ops: seq<Op>, r: nat, n: nat)
    requires r <= n <= |ops|
    ensures After(cfg, ops, r).epoch <= After(cfg, ops, n).epoch
    ensures (exists b :: r <= b < n && ops[b].BumpOp?) ==> After(cfg, ops, r).epoch < After(cfg, ops, n).epoch
  {
    if r < n {
      EpochGrows(cfg, ops, r, n - 1);
      EpochStep(cfg, After(cfg, ops, n - 1), ops[n - 1]);
    }
  }

  lemma EpochStep(cfg: Config, s: State, op: Op)
    ensures Step(cfg, s, op).epoch == if op.BumpOp? then s.epoch + 1 else s.epoch
  {
    hide Evict, Fresh, Best, Insert;
    if op.PutOp? && Accepts(s, op.epoch) {
      InsertMeans(cfg, Expire(cfg, s, op.now), op.frame);
    }
  }

  /** Every frame a take returns is young enough, was accepted by some put, and
      if that put carried an epoch read at step r, nothing has bumped the epoch
      since: a frame begun before a bump is never scored after it. */
  lemma TakenIsCurrent(cfg: Config, ops: seq<Op>, t: nat) returns (p: nat)
    requires t < |ops| && ops[t].TakeOp?
    requires Take(cfg, After(cfg, ops, t), ops[t].now, ops[t].late).1.Taken?
    ensures var c := Take(cfg, After(cfg, ops, t), ops[t].now, ops[t].late).1.frame;
            c.capturedAt >= ops[t].now - cfg.maxAge && BroughtIn(cfg, ops, t, p, c)
    ensures ops[p].epoch.Some? ==>
              forall r :: 0 <= r <= p && After(cfg, ops, r).epoch == ops[p].epoch.value ==>
                forall b :: r <= b < t ==> !ops[b].BumpOp?
  {
    var s, op := After(cfg, ops, t), ops[t];
    TakenIsHeld(cfg, s, op.now, op.late);
    hide Take, Step, Accepts;
    p := HeldWasBroughtIn(cfg, ops, t, Take(cfg, s, op.now, op.late).1.frame);
    if ops[p].epoch.Some? {
      EpochOfPut(cfg, ops, t, p);
    }
  }

  lemma TakenIsHeld(cfg: Config, s: State, now: real, late: bool)
    requires Take(cfg, s, now, late).1.Taken?
    ensures var c := Take(cfg, s, now, late).1.frame;
            c in s.items && c.capturedAt >= now - cfg.maxAge
  {
    FreshMeans(s.items, now - cfg.maxAge);
  }

  lemma EpochOfPut(cfg: Config, ops: seq<Op>, t: nat, p: nat)
    requires t <= |ops| && p < t && ops[p].PutOp? && ops[p].epoch.Some?
    requires Accepts(After(cfg, ops, p), ops[p].epoch) && forall q :: p < q < t ==> !Discards(ops[q])
    ensures forall r :: 0 <= r <= p && After(cfg, ops, r).epoch == ops[p].epoch.value ==>
              forall b :: r <= b < t ==> !ops[b].BumpOp?
  {
    hide After;
    forall r, b | 0 <= r <= p && After(cfg, ops, r).epoch == ops[p].epoch.value && r <= b < t
      ensures !ops[b].BumpOp?
    {
      EpochGrows(cfg, ops, r, p);
    }
  }

  // ---- streaming top-k ---------------------------------------------------

  /** Only the sampler is at work: puts, accepted or refused, and looks. */
  predicate Sampling(op: Op) { op.PutOp? || op.LookOp? }

  predicate AcceptedAt(cfg: Config, ops: seq<Op>, k: nat)
    requires k < |ops|
  {
    ops[k].PutOp? && Accepts(After(cfg, ops, k), ops[k].epoch)
  }

  /** If step k looks at the ages at all, nothing held is too old. */
  predicate NoExpiry(cfg: Config, ops: seq<Op>, k: nat)
    requires k < |ops| && Sampling(ops[k])
  {
    ops[k].LookOp? || AcceptedAt(cfg, ops, k) ==>
      forall c :: c in After(cfg, ops, k).items ==> c.capturedAt >= ops[k].now - cfg.maxAge
  }

  /** From step m to n only the sampler is at work, and nothing expires. */
  predicate SamplesFreshly(cfg: Config, ops: seq<Op>, m: nat, n: nat)
    requires m <= n <= |ops|
  {
    forall k :: m <= k < n ==> Sampling(ops[k]) && NoExpiry(cfg, ops, k)
  }

  /** The frames accepted by steps m to n. */
  function AcceptedFrames(cfg: Config, ops: seq<Op>, m: nat, n: nat): seq<Candidate>
    requires m <= n <= |ops|
  {
    if m == n then []
    else AcceptedFrames(cfg, ops, m, n - 1) + if AcceptedAt(cfg, ops, n - 1) then [ops[n - 1].frame] else []
  }

  /** `kept` are the greatest of all the frames, `lost` the rest. */
  predicate IsTop(capacity: nat, all: seq<Candidate>, kept: seq<Candidate>, lost: multiset<Candidate>) {
    multiset(all) == multiset(kept) + lost
    && |kept| == (if |all| <= capacity then |all| else capacity)
    && forall k, x :: k in kept && x in lost ==> !Less(k, x)
  }

  lemma LessTransitive(a: Candidate, b: Candidate, c: Candidate)
    requires !Less(b, a) && !Less(c, b)
    ensures !Less(c, a)
  {
  }

  lemma RemovedSize(items: seq<Candidate>, i: nat)
    requires i < |items|
    ensures |RemoveAt(items, i)| == |items| - 1
  {
  }

  lemma RemoveMultiset(items: seq<Candidate>, i: nat)
    requires i < |items|
    ensures multiset(items) == multiset(RemoveAt(items, i)) + multiset{items[i]}
  {
    assert items == items[..i] + [items[i]] + items[i + 1..];
  }

  lemma EvictOne(cfg: Config, s: State)
    requires |s.items| == cfg.capacity + 1
    ensures Evict(cfg, s).items == RemoveAt(s.items, Worst(s.items))
  {
    hide Worst;
    var t := s.(items := RemoveAt(s.items, Worst(s.items)),
                counts := s.counts.(evicted := s.counts.evicted + 1));
    assert Evict(cfg, t) == t;
  }

  lemma ExpiresNothing(cfg: Config, s: State, now: real)
    requires forall x :: x in s.items ==> x.capturedAt >= now - cfg.maxAge
    ensures Expire(cfg, s, now) == s
  {
    hide Fresh;
    FreshMeans(s.items, now - cfg.maxAge);
  }

  lemma InsertKeepsTop(cfg: Config, s: State, c: Candidate, all: seq<Candidate>, lost: multiset<Candidate>)
    returns (gone: multiset<Candidate>)
    requires cfg.capacity >= 1 && IsTop(cfg.capacity, all, s.items, lost)
    ensures IsTop(cfg.capacity, all + [c], Insert(cfg, s, c).items, gone)
  {
    hide Less, Worst, RemoveAt, IsTop, Insert;
    assert |s.items| <= cfg.capacity by { TopSize(cfg.capacity, all, s.items, lost); }
    InsertItems(cfg, s, c);
    var items := s.items + [c];
    if |items| <= cfg.capacity {
      gone := lost;
      NothingLost(cfg.capacity, s.items, c, all, lost);
    } else {
      gone := lost + multiset{items[Worst(items)]};
      LeastLost(cfg.capacity, s.items, c, all, lost);
    }
  }

  lemma TopSize(capacity: nat, all: seq<Candidate>, kept: seq<Candidate>, lost: multiset<Candidate>)
    requires IsTop(capacity, all, kept, lost)
    ensures |kept| <= capacity
  {
  }

  lemma InsertItems(cfg: Config, s: State, c: Candidate)
    requires |s.items| <= cfg.capacity
    ensures var items := s.items + [c];
            Insert(cfg, s, c).items == if |items| <= cfg.capacity then items else RemoveAt(items, Worst(items))
  {
    hide Worst, RemoveAt;
    var n := s.counts.(produced := s.counts.produced + 1,
                       measured := s.counts.measured + if c.score.Measured? then 1 else 0);
    var t := s.(items := s.items + [c], counts := n);
    if |t.items| == cfg.capacity + 1 {
      EvictOne(cfg, t);
    }
  }

  lemma NothingLost(capacity: nat, held: seq<Candidate>, c: Candidate, all: seq<Candidate>,
                    lost: multiset<Candidate>)
    requires IsTop(capacity, all, held, lost) && |held| < capacity
    ensures IsTop(capacity, all + [c], held + [c], lost)
  {
    assert multiset(all + [c]) == multiset(all) + multiset{c};
    assert multiset(held + [c]) == multiset(held) + multiset{c};
    assert |multiset(all)| == |multiset(held)| + |lost|;
    assert |lost| == 0 && lost == multiset{};
  }

  lemma LeastLost(capacity: nat, held: seq<Candidate>, c: Candidate, all: seq<Candidate>,
                  lost: multiset<Candidate>)
    requires IsTop(capacity, all, held, lost) && |held| == capacity >= 1
    ensures var items := held + [c];
            IsTop(capacity, all + [c], RemoveAt(items, Worst(items)), lost + multiset{items[Worst(items)]})
  {
    hide Less, Worst;
    var items := held + [c];
    var i := Worst(items);
    assert multiset(all + [c]) == multiset(all) + multiset{c};
    assert multiset(items) == multiset(held) + multiset{c};
    LeastGoes(held, c, lost, items);
    RemoveMultiset(items, i);
    Regroup(multiset(all), multiset(held), lost, multiset{c}, multiset(items),
            multiset(RemoveAt(items, i)), multiset{items[i]});
    assert |multiset(all)| == |multiset(held)| + |lost|;
  }

  lemma Regroup(all: multiset<Candidate>, held: multiset<Candidate>, lost: multiset<Candidate>,
                c: multiset<Candidate>, items: multiset<Candidate>, kept: multiset<Candidate>,
                w: multiset<Candidate>)
    requires all == held + lost && items == held + c && items == kept + w
    ensures all + c == kept + (lost + w)
  {
    forall x: Candidate ensures (all + c)[x] == (kept + (lost + w))[x] {
      assert items[x] == held[x] + c[x] == kept[x] + w[x];
    }
  }

  lemma LeastGoes(held: seq<Candidate>, c: Candidate, lost: multiset<Candidate>, items: seq<Candidate>)
    requires items == held + [c] && held != []
    requires forall a, b :: a in held && b in lost ==> !Less(a, b)
    ensures forall k, x :: k in RemoveAt(items, Worst(items)) && x in lost + multiset{items[Worst(items)]} ==>
              !Less(k, x)
  {
    hide Less, Worst;
    WorstMeans(items);
    var i := Worst(items);
    forall k, x | k in RemoveAt(items, i) && x in lost + multiset{items[i]} ensures !Less(k, x) {
      assert k in items;
      if x != items[i] {
        TopOverLost(held, lost, c, items, i, k, x);
      }
    }
  }

  /** The new frame may push out an old one, but nothing kept falls below what
      was lost before. */
  lemma TopOverLost(held: seq<Candidate>, lost: multiset<Candidate>, c: Candidate, items: seq<Candidate>,
                    i: nat, k: Candidate, x: Candidate)
    requires items == held + [c] && held != [] && i < |items|
    requires forall j :: 0 <= j < |items| ==> !Less(items[j], items[i])
    requires forall a, b :: a in held && b in lost ==> !Less(a, b)
    requires k in RemoveAt(items, i) && x in lost
    ensures !Less(k, x)
  {
    if k !in held {
      assert k == c && i < |held|;
      LessTransitive(x, held[i], c);
    }
  }

  /** Streaming top-k: from any point where the buffer is empty, through any
      accepted and refused puts and looks that expire nothing, the buffer holds
      the `capacity` greatest by (score, captured_at) of everything accepted. */
  lemma {:induction false} StreamingTopK(cfg: Config, ops: seq<Op>, m: nat, n: nat) returns (lost: multiset<Candidate>)
    requires cfg.capacity >= 1 && m <= n <= |ops| && After(cfg, ops, m).items == []
    requires SamplesFreshly(cfg, ops, m, n)
    ensures IsTop(cfg.capacity, AcceptedFrames(cfg, ops, m, n), After(cfg, ops, n).items, lost)
    decreases n
  {
    hide IsTop, Step, Accepts;
    if m == n {
      lost := multiset{};
      NothingYet(cfg.capacity);
    } else {
      assert NoExpiry(cfg, ops, n - 1);
      assert SamplesFreshly(cfg, ops, m, n - 1);
      hide SamplesFreshly;
      lost := StreamingTopK(cfg, ops, m, n - 1);
      lost := SamplingStep(cfg, After(cfg, ops, n - 1), ops[n - 1], AcceptedFrames(cfg, ops, m, n - 1), lost);
    }
  }

  lemma NothingYet(capacity: nat)
    ensures IsTop(capacity, [], [], multiset{})
  {
  }

  lemma SamplingStep(cfg: Config, s: State, op: Op, all: seq<Candidate>, lost: multiset<Candidate>)
    returns (gone: multiset<Candidate>)
    requires cfg.capacity >= 1 && Sampling(op) && IsTop(cfg.capacity, all, s.items, lost)
    requires op.LookOp? || Accepts(s, op.epoch) ==> forall c :: c in s.items ==> c.capturedAt >= op.now - cfg.maxAge
    ensures IsTop(cfg.capacity, all + if op.PutOp? && Accepts(s, op.epoch) then [op.frame] else [],
                  Step(cfg, s, op).items, gone)
  {
    hide IsTop, Insert, Expire;
    gone := lost;
    assert all + [] == all;
    if op.LookOp? || Accepts(s, op.epoch) {
      ExpiresNothing(cfg, s, op.now);
    }
    if op.PutOp? && Accepts(s, op.epoch) {
      gone := InsertKeepsTop(cfg, s, op.frame, all, lost);
    }
  }

  /** What successive takes return while nothing expires. */
  function Drain(items: seq<Candidate>): seq<Candidate>
    decreases |items|
  {
    if items == [] then [] else [items[Best(items)]] + Drain(RemoveAt(items, Best(items)))
  }

  /** Takes hand out exactly what was held, greatest first. */
  lemma {:induction false} DrainDescends(items: seq<Candidate>)
    ensures multiset(Drain(items)) == multiset(items)
    ensures forall i, j :: 0 <= i < j < |Drain(items)| ==> !Less(Drain(items)[i], Drain(items)[j])
    decreases |items|
  {
    if items != [] {
      hide Best, RemoveAt, Less;
      var i := Best(items);
      RemovedSize(items, i);
      RemoveMultiset(items, i);
      DrainDescends(RemoveAt(items, i));
      BestFirst(items, RemoveAt(items, i), Drain(RemoveAt(items, i)));
    }
  }

  /** The best put before what is drained from the others. */
  lemma BestFirst(items: seq<Candidate>, rest: seq<Candidate>, tail: seq<Candidate>)
    requires items != [] && multiset(items) == multiset(rest) + multiset{items[Best(items)]}
    requires multiset(tail) == multiset(rest)
    requires forall i, j :: 0 <= i < j < |tail| ==> !Less(tail[i], tail[j])
    ensures var all := [items[Best(items)]] + tail;
            multiset(all) == multiset(items) && forall i, j :: 0 <= i < j < |all| ==> !Less(all[i], all[j])
  {
    hide Best, Less;
    BestMeans(items);
    var all := [items[Best(items)]] + tail;
    forall j | 0 <= j < |tail| ensures !Less(all[0], tail[j]) {
      assert tail[j] in multiset(tail);
      assert tail[j] in multiset(items);
    }
  }

  /** A take without expiry is the head of the drain. */
  lemma TakeIsDrainHead(cfg: Config, s: State, now: real, late: bool)
    requires s.items != [] && forall c :: c in s.items ==> c.capturedAt >= now - cfg.maxAge
    ensures Take(cfg, s, now, late).1 == Taken(Drain(s.items)[0])
    ensures Drain(Take(cfg, s, now, late).0.items) == Drain(s.items)[1..]
  {
    hide Best, RemoveAt, Expire;
    ExpiresNothing(cfg, s, now);
  }

  /** Unmeasured frames are told apart by recency alone, and lose to any
      measured one. */
  lemma UnmeasuredByRecency(a: Candidate, b: Candidate)
    requires a.score.Unmeasured?
    ensures Less(a, b) <==> b.score.Measured? || a.capturedAt < b.capturedAt
  {
  }

  // ---- the object --------------------------------------------------------

  method YoungEnough(items: seq<Candidate>, cutoff: real) returns (young: seq<Candidate>)
    ensures young == Fresh(items, cutoff)
  {
    young := [];
    for k := 0 to |items|
      invariant young + Fresh(items[k..], cutoff) == Fresh(items, cutoff)
    {
      assert items[k..][1..] == items[k + 1..];
      if items[k].capturedAt >= cutoff {
        young := young + [items[k]];
      }
    }
  }

  class FrameBuffer {
    const cfg: Config
    const measureFromDepth: int
    var items: seq<Candidate>
    var epoch: nat
    var closed: bool
    var counts: Counts
    ghost var discarded: nat

    ghost function View(): State
      reads this
    {
      State(items, epoch, closed, counts, discarded)
    }

    constructor (capacity: int, maxAge: real, measureFromDepth: int)
      ensures View() == EMPTY && cfg.capacity >= 1 && cfg.maxAge == maxAge
      ensures cfg.capacity == if capacity < 1 then 1 else capacity
    {
      cfg := Config(if capacity < 1 then 1 else capacity, maxAge);
      this.measureFromDepth := measureFromDepth;
      items, epoch, closed, counts, discarded := [], 0, false, ZERO, 0;
    }

    method BumpEpoch() returns (e: nat)
      modifies this
      ensures View() == Bump(old(View())) && e == epoch
    {
      epoch := epoch + 1;
      discarded := discarded + |items|;
      items := [];
      e := epoch;
    }

    method ExpireLocked(now: real)
      modifies this
      ensures View() == Expire(cfg, old(View()), now)
    {
      if items == [] {
        return;
      }
      var young := YoungEnough(items, now - cfg.maxAge);
      FreshMeans(items, now - cfg.maxAge);
      counts := counts.(expired := counts.expired + (|items| - |young|));
      items := young;
    }

    method PutFrame(image: int, score: Score, capturedAt: real, epochRead: Option<nat>, now: real)
      returns (accepted: bool)
      modifies this
      ensures View() == Put(cfg, old(View()), Candidate(image, score, capturedAt), epochRead, now)
      ensures accepted == Accepts(old(View()), epochRead)
    {
      if closed {
        return false;
      }
      if epochRead.Some? && epochRead.value != epoch {
        counts := counts.(staleEpoch := counts.staleEpoch + 1);
        return false;
      }
      hide Evict, Worst, Fresh, Expire;
      ExpireLocked(now);
      ghost var before := View();
      var c := Candidate(image, score, capturedAt);
      items := items + [c];
      counts := counts.(produced := counts.produced + 1);
      if score != Unmeasured {
        counts := counts.(measured := counts.measured + 1);
      }
      assert View() == before.(items := before.items + [c], counts := counts);
      EvictAll();
      return true;
    }

    /** The eviction loop of `put`. */
    method EvictAll()
      modifies this
      ensures View() == Evict(cfg, old(View()))
    {
      hide Worst, RemoveAt;
      while |items| > cfg.capacity
        invariant Evict(cfg, View()) == Evict(cfg, old(View()))
        decreases |items|
      {
        var worst := items[Worst(items)];
        WorstMeans(items);
        RemovedSize(items, IndexOf(items, worst));
        items := RemoveAt(items, IndexOf(items, worst));
        counts := counts.(evicted := counts.evicted + 1);
      }
    }

    /** One turn of the wait loop of `take`, under the lock. */
    method TakeOnce(now: real, late: bool) returns (r: TakeResult)
      modifies this
      ensures (View(), r) == Take(cfg, old(View()), now, late)
    {
      ExpireLocked(now);
      if items != [] {
        var best := items[Best(items)];
        BestMeans(items);
        items := RemoveAt(items, IndexOf(items, best));
        counts := counts.(taken := counts.taken + 1);
        return Taken(best);
      }
      if closed {
        return Nothing;
      }
      if late {
        counts := counts.(starved := counts.starved + 1);
        return Nothing;
      }
      return Waiting;
    }

    method ShouldMeasure(now: real) returns (b: bool)
      modifies this
      ensures View() == Expire(cfg, old(View()), now) && b == (|items| >= measureFromDepth)
    {
      ExpireLocked(now);
      b := |items| >= measureFromDepth;
    }

    method Clear()
      modifies this
      ensures View() == Discard(old(View()))
    {
      discarded := discarded + |items|;
      items := [];
    }

    method CloseBuffer()
      modifies this
      ensures View() == Close(old(View()))
    {
      closed := true;
      discarded := discarded + |items|;
      items := [];
    }

    method ReopenBuffer()
      modifies this
      ensures View() == Reopen(old(View()))
    {
      closed := false;
      items := [];
      counts := ZERO;
      discarded := 0;
    }
  }
}
