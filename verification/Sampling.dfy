/** Samplers, buffers and the detector together: which frames are judged under
    which criteria, over every interleaving and across replaced buffers. */
module Sampling {
  import opened Bytes
  import Detection
  import FrameBuffering

  /** How far a sampler thread is with its frame. A thread of the run before may
      still be at work. */
  datatype Grab =
    | Idle
    | Fetched                         // has a frame's bytes
    | Holding(buffer: nat)            // and has read which buffer is in use
    | Begun(buffer: nat, epoch: nat)  // and that buffer's epoch

  datatype Buffer = Buffer(cfg: FrameBuffering.Config, state: FrameBuffering.State)

  /** The buffer in use is the last one; samplers may hold earlier ones. */
  datatype State = State(buffers: seq<Buffer>, grabs: map<nat, Grab>, det: Detection.State)

  datatype Op =
    | Fetch(thread: nat)
    | Hold(thread: nat)
    | ReadEpoch(thread: nat)
    | Look(thread: nat, now: real)
    | Offer(thread: nat, frame: FrameBuffering.Candidate, now: real)
    | Begin(anew: bool)
    | SetUp(settings: Detection.Settings)
    | Rebuild(settings: Detection.Settings)                    // a refresh, first half
    | Apply(generation: nat, settings: Detection.Settings)     // a refresh, second half
    | Judge(now: real, late: bool, verdict: Detection.Event)
    | Shut

  function GrabOf(s: State, t: nat): Grab { if t in s.grabs then s.grabs[t] else Idle }

  function NewBuffer(d: Detection.Settings): Buffer {
    Buffer(FrameBuffering.Config(if d.bufferCapacity < 1 then 1 else d.bufferCapacity, d.bufferMaxAge), FrameBuffering.EMPTY)
  }

  function Last(s: State): (b: nat)
    requires s.buffers != []
  {
    |s.buffers| - 1
  }

  function Put(s: State, b: nat, state: FrameBuffering.State): State
    requires b < |s.buffers|
  {
    s.(buffers := s.buffers[b := s.buffers[b].(state := state)])
  }

  function Bumped(s: State): State {
    if s.buffers == [] then s else Put(s, Last(s), FrameBuffering.Bump(s.buffers[Last(s)].state))
  }

  /** New criteria, or a fresh start: what was sampled before must not be judged
      after. */
  predicate Changes(s: State, op: Op) {
    (op.Apply? && op.generation != s.det.generation && Detection.CriteriaChanged(s.det, op.settings))
    || (op.Begin? && op.anew && !s.det.running)
  }

  /** What the consumer gets when it comes to judge. */
  function Taking(s: State, op: Op): (FrameBuffering.State, FrameBuffering.TakeResult)
    requires op.Judge? && s.buffers != []
  {
    FrameBuffering.Take(s.buffers[Last(s)].cfg, s.buffers[Last(s)].state, op.now, op.late)
  }

  function Step(s: State, op: Op): State {
    match op
    case Fetch(t) => s.(grabs := s.grabs[t := Fetched])
    case Hold(t) =>
      if GrabOf(s, t).Fetched? && s.buffers != [] then s.(grabs := s.grabs[t := Holding(Last(s))]) else s
    case ReadEpoch(t) =>
      var g := GrabOf(s, t);
      if g.Holding? && g.buffer < |s.buffers|
      then s.(grabs := s.grabs[t := Begun(g.buffer, s.buffers[g.buffer].state.epoch)]) else s
    case Look(t, now) =>
      var g := GrabOf(s, t);
      if g.Begun? && g.buffer < |s.buffers|
      then Put(s, g.buffer, FrameBuffering.Expire(s.buffers[g.buffer].cfg, s.buffers[g.buffer].state, now)) else s
    case Offer(t, c, now) =>
      var g := GrabOf(s, t);
      if g.Begun? && g.buffer < |s.buffers|
      then
        var b := s.buffers[g.buffer];
        Put(s, g.buffer, FrameBuffering.Put(b.cfg, b.state, c, Some(g.epoch), now)).(grabs := s.grabs[t := Idle])
      else s
    case Begin(anew) =>
      (if Changes(s, op) then Bumped(s) else s).(det := Detection.Step(s.det, Detection.Start(anew)))
    case SetUp(d) => s.(buffers := s.buffers + [NewBuffer(d)])
    case Rebuild(d) =>
      if s.buffers != [] && (s.buffers[Last(s)].cfg.capacity != d.bufferCapacity
                             || s.buffers[Last(s)].cfg.maxAge != d.bufferMaxAge)
      then s.(buffers := s.buffers + [NewBuffer(d)]) else s
    case Apply(g, d) =>
      (if Changes(s, op) then Bumped(s) else s).(det := Detection.Step(s.det, Detection.Refresh(g, d)))
    case Judge(_, _, verdict) =>
      if s.buffers == [] then s
      else
        var (b, r) := Taking(s, op);
        var t := Put(s, Last(s), b);
        if r.Taken? && verdict.Frame? then t.(det := Detection.Step(s.det, verdict)) else t
    case Shut =>
      if s.buffers == [] then s else Put(s, Last(s), FrameBuffering.Close(s.buffers[Last(s)].state))
  }

  /** The state after the first n operations, from a detector never started. */
  function After(det: Detection.State, ops: seq<Op>, n: nat): State
    requires n <= |ops|
  {
    if n == 0 then State([], map[], det) else Step(After(det, ops, n - 1), ops[n - 1])
  }

  // ---- one step ----------------------------------------------------------

  /** The put that an offer makes to buffer b, accepted. */
  predicate Accepted(s: State, op: Op, b: nat)
    requires b < |s.buffers|
  {
    op.Offer? && GrabOf(s, op.thread).Begun? && GrabOf(s, op.thread).buffer == b
    && FrameBuffering.Accepts(s.buffers[b].state, Some(GrabOf(s, op.thread).epoch))
  }

  /** One step and one buffer: the epoch moves just at a change made while the
      buffer is in use, and then nothing stays in it. */
  lemma StepBuffer(s: State, op: Op, b: nat)
    requires b < |s.buffers|
    ensures |s.buffers| <= |Step(s, op).buffers|
    ensures var was, now := s.buffers[b].state, Step(s, op).buffers[b].state;
            && now.epoch == (if Changes(s, op) && b == Last(s) then was.epoch + 1 else was.epoch)
            && (Changes(s, op) && b == Last(s) ==> now.items == [])
            && forall c :: c in now.items ==> c in was.items || (Accepted(s, op, b) && op.frame == c)
  {
    hide FrameBuffering.Expire, FrameBuffering.Insert, FrameBuffering.Best, Detection.Step, Detection.CriteriaChanged;
    var cfg, was := s.buffers[b].cfg, s.buffers[b].state;
    match op
    case Look(t, now) => Expired(cfg, was, now);
    case Offer(t, c, now) =>
      if Accepted(s, op, b) { PutIn(cfg, was, c, Some(GrabOf(s, t).epoch), now); }
    case Judge(now, late, _) => TakenFrom(cfg, was, now, late);
    case _ =>
  }

  lemma Expired(cfg: FrameBuffering.Config, s: FrameBuffering.State, now: real)
    ensures var t := FrameBuffering.Expire(cfg, s, now);
            t.epoch == s.epoch && t.closed == s.closed && forall c :: c in t.items ==> c in s.items
  {
    FrameBuffering.FreshMeans(s.items, now - cfg.maxAge);
  }

  lemma PutIn(cfg: FrameBuffering.Config, s: FrameBuffering.State, c: FrameBuffering.Candidate, epoch: Option<nat>, now: real)
    ensures var t := FrameBuffering.Put(cfg, s, c, epoch, now);
            t.epoch == s.epoch
            && forall x :: x in t.items ==> x in s.items || (FrameBuffering.Accepts(s, epoch) && x == c)
  {
    Expired(cfg, s, now);
    FrameBuffering.InsertMeans(cfg, FrameBuffering.Expire(cfg, s, now), c);
    hide FrameBuffering.Expire, FrameBuffering.Insert;
  }

  lemma TakenFrom(cfg: FrameBuffering.Config, s: FrameBuffering.State, now: real, late: bool)
    ensures var (t, r) := FrameBuffering.Take(cfg, s, now, late);
            t.epoch == s.epoch && (forall c :: c in t.items ==> c in s.items) && (r.Taken? ==> r.frame in s.items)
  {
    Expired(cfg, s, now);
    hide FrameBuffering.Expire, FrameBuffering.Best;
  }

  // ---- runs --------------------------------------------------------------

  /** Over steps r to n: buffers are only added, a buffer's epoch never falls,
      and a change made while it is in use raises it. */
  lemma {:induction false} EpochGrows(det: Detection.State, ops: seq<Op>, r: nat, n: nat, b: nat)
    requires r <= n <= |ops| && b < |After(det, ops, r).buffers|
    ensures |After(det, ops, r).buffers| <= |After(det, ops, n).buffers|
    ensures After(det, ops, r).buffers[b].state.epoch <= After(det, ops, n).buffers[b].state.epoch
    ensures forall k :: r <= k < n && Changes(After(det, ops, k), ops[k]) && |After(det, ops, k).buffers| == b + 1 ==>
              After(det, ops, r).buffers[b].state.epoch < After(det, ops, n).buffers[b].state.epoch
    decreases n
  {
    hide Step, Changes;
    if r < n {
      EpochGrows(det, ops, r, n - 1, b);
      StepBuffer(After(det, ops, n - 1), ops[n - 1], b);
    }
  }

  /** A frame held in a buffer was offered to it, with an epoch that was then
      current, by a sampler that had begun on this buffer. */
  lemma {:induction false} HeldWasOffered(det: Detection.State, ops: seq<Op>, n: nat, b: nat, c: FrameBuffering.Candidate)
    returns (p: nat)
    requires n <= |ops| && b < |After(det, ops, n).buffers| && c in After(det, ops, n).buffers[b].state.items
    ensures p < n && b < |After(det, ops, p).buffers| && Accepted(After(det, ops, p), ops[p], b) && ops[p].frame == c
    ensures forall k :: p < k < n && |After(det, ops, k).buffers| == b + 1 ==> !Changes(After(det, ops, k), ops[k])
  {
    hide Step, Changes, Accepted;
    var s, op := After(det, ops, n - 1), ops[n - 1];
    if b < |s.buffers| {
      StepBuffer(s, op, b);
      if c in s.buffers[b].state.items {
        p := HeldWasOffered(det, ops, n - 1, b, c);
      } else {
        p := n - 1;
      }
    } else {
      NewIsEmpty(s, op, b);
    }
  }

  lemma NewIsEmpty(s: State, op: Op, b: nat)
    requires |s.buffers| <= b < |Step(s, op).buffers|
    ensures Step(s, op).buffers[b].state.items == []
  {
    hide FrameBuffering.Expire, FrameBuffering.Put, FrameBuffering.Take, Detection.Step, Changes;
  }

  /** A sampler that has begun read its buffer's epoch at one step, having read
      which buffer was in use at an earlier one, and is still on that frame. */
  predicate BeganAt(det: Detection.State, ops: seq<Op>, n: nat, t: nat, h: nat, r: nat)
    requires n <= |ops|
  {
    var g := GrabOf(After(det, ops, n), t);
    && g.Begun? && h < r < n && ops[h] == Hold(t) && ops[r] == ReadEpoch(t)
    && |After(det, ops, h).buffers| == g.buffer + 1
    && g.buffer < |After(det, ops, r).buffers| && After(det, ops, r).buffers[g.buffer].state.epoch == g.epoch
    && GrabOf(After(det, ops, r), t) == Holding(g.buffer)
    && forall k :: r < k <= n ==> GrabOf(After(det, ops, k), t) == g
  }

  lemma {:induction false} GrabBegan(det: Detection.State, ops: seq<Op>, n: nat, t: nat) returns (h: nat, r: nat)
    requires n <= |ops| && GrabOf(After(det, ops, n), t).Begun?
    ensures BeganAt(det, ops, n, t, h, r)
  {
    var s, op := After(det, ops, n - 1), ops[n - 1];
    StepGrab(s, op, t);
    hide Step;
    if GrabOf(s, t) == GrabOf(Step(s, op), t) {
      h, r := GrabBegan(det, ops, n - 1, t);
    } else {
      r := n - 1;
      h := GrabHeld(det, ops, n - 1, t);
    }
  }

  lemma {:induction false} GrabHeld(det: Detection.State, ops: seq<Op>, n: nat, t: nat) returns (h: nat)
    requires n <= |ops| && GrabOf(After(det, ops, n), t).Holding?
    ensures h < n && ops[h] == Hold(t) && |After(det, ops, h).buffers| == GrabOf(After(det, ops, n), t).buffer + 1
  {
    var s, op := After(det, ops, n - 1), ops[n - 1];
    StepGrab(s, op, t);
    hide Step;
    if GrabOf(s, t) == GrabOf(Step(s, op), t) {
      h := GrabHeld(det, ops, n - 1, t);
    } else {
      h := n - 1;
    }
  }

  lemma StepGrab(s: State, op: Op, t: nat)
    ensures var was, now := GrabOf(s, t), GrabOf(Step(s, op), t);
            now == was
            || now.Idle? || now.Fetched?
            || (now.Holding? && op == Hold(t) && s.buffers != [] && now.buffer == Last(s))
            || (now.Begun? && op == ReadEpoch(t) && was == Holding(now.buffer) && now.buffer < |s.buffers|
                && now.epoch == s.buffers[now.buffer].state.epoch)
  {
    hide FrameBuffering.Expire, FrameBuffering.Put, FrameBuffering.Take, FrameBuffering.Bump, FrameBuffering.Close,
         Detection.Step, Changes, NewBuffer;
  }

  // ---- what is judged ----------------------------------------------------

  /** Step t judges frame c. */
  predicate Judges(det: Detection.State, ops: seq<Op>, t: nat, c: FrameBuffering.Candidate)
    requires t < |ops|
  {
    ops[t].Judge? && After(det, ops, t).buffers != [] && Taking(After(det, ops, t), ops[t]).1 == FrameBuffering.Taken(c)
  }

  /** No criteria change and no fresh start from step r up to step t. */
  predicate Undisturbed(det: Detection.State, ops: seq<Op>, r: nat, t: nat)
    requires r <= t <= |ops|
  {
    forall k :: r <= k < t ==> !Changes(After(det, ops, k), ops[k])
  }

  /** Every frame that is judged was offered by a sampler whose epoch read, at
      step r, came after every criteria change and fresh start up to then, and
      which read the buffer in use, at step h, after every replacement. */
  lemma JudgedIsCurrent(det: Detection.State, ops: seq<Op>, t: nat, c: FrameBuffering.Candidate)
    returns (h: nat, r: nat, p: nat)
    requires t < |ops| && Judges(det, ops, t, c)
    ensures h < r < p < t && ops[p].Offer? && ops[p].frame == c
    ensures BeganAt(det, ops, p, ops[p].thread, h, r)
    ensures Undisturbed(det, ops, r, t)
    ensures forall k :: h <= k <= t ==> |After(det, ops, k).buffers| == |After(det, ops, t).buffers|
  {
    var s := After(det, ops, t);
    var b := Last(s);
    TakenFrom(s.buffers[b].cfg, s.buffers[b].state, ops[t].now, ops[t].late);
    hide Step, Changes, Taking, After, FrameBuffering.Take;
    p := HeldWasOffered(det, ops, t, b, c);
    var thread := ops[p].thread;
    h, r := GrabBegan(det, ops, p, thread);
    SameBuffer(det, ops, h, t, b);
    NoChangeSince(det, ops, r, p, t, b);
  }

  /** Accepted at p with the epoch of step r: no change between, nor at p. */
  lemma NoChangeSince(det: Detection.State, ops: seq<Op>, r: nat, p: nat, t: nat, b: nat)
    requires r < p < t <= |ops| && forall k :: r <= k <= t ==> |After(det, ops, k).buffers| == b + 1
    requires Accepted(After(det, ops, p), ops[p], b)
    requires After(det, ops, r).buffers[b].state.epoch == GrabOf(After(det, ops, p), ops[p].thread).epoch
    requires forall k :: p < k < t ==> !Changes(After(det, ops, k), ops[k])
    ensures Undisturbed(det, ops, r, t)
  {
    hide Step, Changes, After;
    EpochGrows(det, ops, r, p, b);
    AcceptIsNoChange(After(det, ops, p), ops[p], b);
  }

  lemma AcceptIsNoChange(s: State, op: Op, b: nat)
    requires b < |s.buffers| && Accepted(s, op, b)
    ensures !Changes(s, op)
  {
  }

  lemma {:induction false} SameBuffer(det: Detection.State, ops: seq<Op>, h: nat, t: nat, b: nat)
    requires h <= t <= |ops| && |After(det, ops, h).buffers| == b + 1 == |After(det, ops, t).buffers|
    ensures forall k :: h <= k <= t ==> |After(det, ops, k).buffers| == b + 1
  {
    hide Step;
    forall k | h <= k <= t ensures |After(det, ops, k).buffers| == b + 1 {
      EpochGrows(det, ops, h, k, b);
      EpochGrows(det, ops, k, t, b);
    }
  }

  predicate SameCriteria(a: Detection.State, b: Detection.State) {
    a.sensitivity == b.sensitivity && a.threshold == b.threshold && a.window.countTime == b.window.countTime
  }

  lemma StepKeepsCriteria(s: State, op: Op)
    requires !Changes(s, op)
    ensures SameCriteria(s.det, Step(s, op).det)
  {
    hide FrameBuffering.Expire, FrameBuffering.Put, FrameBuffering.Take, FrameBuffering.Bump, FrameBuffering.Close;
    if op.Judge? && op.verdict.Frame? {
      ScoredKeepsCount(s.det, op.verdict);
      hide Detection.Scored;
    }
  }

  lemma ScoredKeepsCount(s: Detection.State, e: Detection.Event)
    requires e.Frame?
    ensures Detection.Scored(s, e).0.countTime == s.window.countTime
  {
  }

  lemma {:induction false} CriteriaStay(det: Detection.State, ops: seq<Op>, r: nat, t: nat)
    requires r <= t <= |ops| && Undisturbed(det, ops, r, t)
    ensures SameCriteria(After(det, ops, r).det, After(det, ops, t).det)
  {
    hide Step, Changes;
    if r < t {
      CriteriaStay(det, ops, r, t - 1);
      StepKeepsCriteria(After(det, ops, t - 1), ops[t - 1]);
    }
  }

  /** So a frame is judged by the criteria in force when its epoch was read. */
  lemma JudgedByItsCriteria(det: Detection.State, ops: seq<Op>, t: nat, c: FrameBuffering.Candidate) returns (r: nat, p: nat)
    requires t < |ops| && Judges(det, ops, t, c)
    ensures r < p < t && ops[p].Offer? && ops[p].frame == c && ops[r] == ReadEpoch(ops[p].thread)
    ensures SameCriteria(After(det, ops, r).det, After(det, ops, t).det)
  {
    hide Judges;
    var h: nat;
    h, r, p := JudgedIsCurrent(det, ops, t, c);
    CriteriaStay(det, ops, r, t);
  }

  // ---- what is not retired -----------------------------------------------

  /** The epoch is read after the frame is fetched. So a frame that a sampler
      has in hand when the criteria change, and no epoch for yet, is offered
      with the new epoch and judged. */
  function FetchedBefore(d: Detection.Settings, g: nat, changed: Detection.Settings, c: FrameBuffering.Candidate,
                         verdict: Detection.Event): seq<Op>
  {
    [SetUp(d), Fetch(0), Apply(g, changed), Hold(0), ReadEpoch(0), Offer(0, c, c.capturedAt),
     Judge(c.capturedAt, false, verdict)]
  }

  lemma FetchedBeforeIsJudged(det: Detection.State, d: Detection.Settings, g: nat, changed: Detection.Settings,
                              c: FrameBuffering.Candidate, verdict: Detection.Event)
    requires g != det.generation && Detection.CriteriaChanged(det, changed) && d.bufferMaxAge >= 0.0
    ensures var ops := FetchedBefore(d, g, changed, c, verdict);
            ops[1] == Fetch(0) && Changes(After(det, ops, 2), ops[2]) && Judges(det, ops, 6, c)
  {
    var ops, b, ch := FetchedBefore(d, g, changed, c, verdict), NewBuffer(d), FrameBuffering.Bump(NewBuffer(d).state);
    var s1 := After(det, ops, 1);
    assert After(det, ops, 0) == State([], map[], det);
    assert s1.buffers == [b] && s1.det == det;
    OfferedIsTaken(b.cfg, ch, c);
    hide Step, Changes, FrameBuffering.Put, FrameBuffering.Take, NewBuffer, After;
    FetchAndApply(s1, g, changed);
    SixSteps(det, ops);
    GrabAndOffer(Step(Step(s1, Fetch(0)), Apply(g, changed)), c);
  }

  lemma FetchAndApply(s: State, g: nat, changed: Detection.Settings)
    requires |s.buffers| == 1 && g != s.det.generation && Detection.CriteriaChanged(s.det, changed)
    ensures var t, b := Step(Step(s, Fetch(0)), Apply(g, changed)), s.buffers[0];
            t.buffers == [b.(state := FrameBuffering.Bump(b.state))] && GrabOf(t, 0).Fetched?
            && Changes(Step(s, Fetch(0)), Apply(g, changed))
  {
    hide Detection.Step, Detection.CriteriaChanged, FrameBuffering.Bump;
  }

  /** A fetched frame goes through to the buffer in use. */
  lemma GrabAndOffer(s: State, c: FrameBuffering.Candidate)
    requires |s.buffers| == 1 && GrabOf(s, 0).Fetched?
    ensures var t := Step(Step(Step(s, Hold(0)), ReadEpoch(0)), Offer(0, c, c.capturedAt));
            var b := s.buffers[0];
            t.buffers == [b.(state := FrameBuffering.Put(b.cfg, b.state, c, Some(b.state.epoch), c.capturedAt))]
  {
    hide FrameBuffering.Put;
    var s1 := Step(s, Hold(0));
    var s2 := Step(s1, ReadEpoch(0));
    assert s1.grabs[0] == Holding(0) && s1.buffers == s.buffers;
    assert s2.grabs[0] == Begun(0, s.buffers[0].state.epoch) && s2.buffers == s.buffers;
  }

  lemma SixSteps(det: Detection.State, ops: seq<Op>)
    requires |ops| == 7
    ensures After(det, ops, 2) == Step(After(det, ops, 1), ops[1])
    ensures After(det, ops, 6)
         == Step(Step(Step(Step(Step(After(det, ops, 1), ops[1]), ops[2]), ops[3]), ops[4]), ops[5])
  {
    hide Step;
    assert After(det, ops, 3) == Step(After(det, ops, 2), ops[2]);
    assert After(det, ops, 5) == Step(After(det, ops, 4), ops[4]);
  }

  lemma OfferedIsTaken(cfg: FrameBuffering.Config, s: FrameBuffering.State, c: FrameBuffering.Candidate)
    requires s.items == [] && !s.closed && cfg.capacity >= 1 && cfg.maxAge >= 0.0
    ensures FrameBuffering.Take(cfg, FrameBuffering.Put(cfg, s, c, Some(s.epoch), c.capturedAt), c.capturedAt, false).1
         == FrameBuffering.Taken(c)
  {
    assert [] + [c] == [c] && [c][1..] == [];
  }
}
