/** The detector's decisions: scoring a frame, applying settings, starting. */
module Detection {
  import opened Bytes
  import Episodes
  import Windowing
  import FrameBuffering

  /** The settings a running detector applies. */
  datatype Settings = Settings(imgSensitivity: real, scoresThreshold: real, countTime: real, failureRatio: real,
                               bufferCapacity: int, bufferMaxAge: real)

  // ---- the detector as a transition system -------------------------------

  datatype State = State(latch: Episodes.Latch, window: Windowing.Window, sensitivity: real,
                         threshold: real, generation: int, running: bool)

  datatype Event =
    | Frame(pctArea: real, addedAt: real, decidedAt: real, stopped: bool, want: int, handling: Episodes.Handling)
    | Refresh(generation: nat, settings: Settings)
    | Start(anew: bool)
    | Stop

  /** Alarming is the area against the sensitivity, strictly. */
  predicate Alarming(s: State, e: Event)
    requires e.Frame?
  {
    e.pctArea > s.sensitivity
  }

  predicate CriteriaChanged(s: State, d: Settings) {
    s.sensitivity != d.imgSensitivity || s.threshold != d.scoresThreshold || s.window.countTime != d.countTime
  }

  function Scored(s: State, e: Event): (Windowing.Window, bool)
    requires e.Frame?
  {
    Windowing.Decide(Windowing.Add(s.window, Alarming(s, e), e.addedAt), e.decidedAt)
  }

  function Step(s: State, e: Event): State {
    match e
    case Frame(_, _, _, stopped, want, h) =>
      if stopped then s
      else
        var (w, met) := Scored(s, e);
        s.(window := w, latch := Episodes.Step(s.latch, Episodes.Verdict(met, want, h)))
    case Refresh(g, d) =>
      if g == s.generation then s
      else
        var w := s.window.(failureRatio := d.failureRatio);
        if CriteriaChanged(s, d) then
          s.(generation := g, sensitivity := d.imgSensitivity, threshold := d.scoresThreshold,
             window := Windowing.Reset(w.(countTime := d.countTime)), latch := None)
        else s.(generation := g, window := w)
    case Start(anew) =>
      if s.running then s
      else if anew then s.(running := true, latch := None, window := Windowing.Reset(s.window))
      else s.(running := true)
    case Stop => s.(running := false)
  }

  function After(s: State, events: seq<Event>): State {
    if events == [] then s else Step(After(s, events[..|events| - 1]), events[|events| - 1])
  }

  // ---- episodes of a run -------------------------------------------------

  /** What an event does to the episode, if anything. */
  function OpsOf(s: State, e: Event): seq<Episodes.Op> {
    match e
    case Frame(_, _, _, stopped, want, h) =>
      if stopped then [] else [Episodes.Verdict(Scored(s, e).1, want, h)]
    case Refresh(g, d) => if g != s.generation && CriteriaChanged(s, d) then [Episodes.Rearm] else []
    case Start(anew) => if !s.running && anew then [Episodes.Rearm] else []
    case Stop => []
  }

  function Trace(s: State, events: seq<Event>): seq<Episodes.Op> {
    if events == [] then []
    else
      var n := |events| - 1;
      Trace(s, events[..n]) + OpsOf(After(s, events[..n]), events[n])
  }

  lemma {:induction false} LatchOfPrefix(a: seq<Episodes.Op>, b: seq<Episodes.Op>, n: nat)
    requires n <= |a|
    ensures Episodes.After(a + b, n) == Episodes.After(a, n)
  {
    if n > 0 {
      LatchOfPrefix(a, b, n - 1);
    }
  }

  /** The detector refines the episode machine: over any run of frames, saved
      settings, starts, resumes and stops, its latch is the episode's latch on
      the trace, so the episode's theorems hold of every detector run. */
  lemma {:induction false} LatchIsEpisode(s: State, events: seq<Event>)
    requires s.latch == None
    ensures After(s, events).latch == Episodes.After(Trace(s, events), |Trace(s, events)|)
    decreases |events|
  {
    if events != [] {
      hide Step, OpsOf, Episodes.Step;
      var n := |events| - 1;
      var before, ops := After(s, events[..n]), Trace(s, events[..n]);
      LatchIsEpisode(s, events[..n]);
      StepIsOp(before, events[n]);
      var next := OpsOf(before, events[n]);
      LatchOfPrefix(ops, next, |ops|);
      if next == [] {
        assert ops + next == ops;
      } else {
        assert (ops + next)[|ops|] == next[0];
      }
    }
  }

  lemma StepIsOp(s: State, e: Event)
    ensures |OpsOf(s, e)| <= 1
    ensures Step(s, e).latch == if OpsOf(s, e) == [] then s.latch else Episodes.Step(s.latch, OpsOf(s, e)[0])
  {
    hide Scored;
  }

  // ---- the detector's commands -------------------------------------------

  /** The command, if any, that scoring this frame makes the printer carry out. */
  function Carried(s: State, e: Event): Option<int>
    requires e.Frame?
  {
    if !e.stopped && Episodes.Fires(s.latch, Episodes.Verdict(Scored(s, e).1, e.want, e.handling))
    then Episodes.OnFailure(e.handling).performed
    else None
  }

  /** Where event n's operation, if it has one, stands in the trace. */
  function Position(s: State, events: seq<Event>, n: nat): nat
    requires n <= |events|
  {
    |Trace(s, events[..n])|
  }

  lemma {:induction false} TraceGrows(s: State, events: seq<Event>, n: nat)
    requires n <= |events|
    ensures Trace(s, events[..n]) <= Trace(s, events)
    ensures n < |events| ==>
              Trace(s, events[..n + 1]) == Trace(s, events[..n]) + OpsOf(After(s, events[..n]), events[n])
    decreases |events|
  {
    hide OpsOf, After;
    if n == |events| {
      assert events[..n] == events;
    } else {
      var m := |events| - 1;
      assert events[..n + 1][..n] == events[..n] && events[..n + 1][n] == events[n];
      if n < m {
        TraceGrows(s, events[..m], n);
        assert events[..m][..n] == events[..n];
      }
    }
  }

  /** The printer receives at every frame exactly the command the episode
      machine performs at that frame's position. */
  lemma CarriedIsPerformed(s: State, events: seq<Event>, n: nat)
    requires s.latch == None && n < |events| && events[n].Frame? && !events[n].stopped
    ensures var ops, p := Trace(s, events), Position(s, events, n);
            p < |ops| && ops[..p + 1] == Trace(s, events[..n + 1])
            && Episodes.PerformedAt(ops, p) == Carried(After(s, events[..n]), events[n])
  {
    hide Trace, After, Scored, Carried, Episodes.After, Episodes.PerformedAt;
    var ops, before, p := Trace(s, events), Trace(s, events[..n]), Position(s, events, n);
    TraceGrows(s, events, n);
    TraceGrows(s, events, n + 1);
    LatchIsEpisode(s, events[..n]);
    var e, at := events[n], After(s, events[..n]);
    assert OpsOf(at, e) == [Episodes.Verdict(Scored(at, e).1, e.want, e.handling)];
    hide OpsOf;
    assert ops == before + ops[p..];
    LatchOfPrefix(before, ops[p..], p);
    assert ops[p] == Trace(s, events[..n + 1])[p];
    PerformedIsCarried(at, e, ops, p);
  }

  lemma PerformedIsCarried(s: State, e: Event, ops: seq<Episodes.Op>, p: nat)
    requires e.Frame? && !e.stopped && p < |ops|
    requires Episodes.After(ops, p) == s.latch && ops[p] == Episodes.Verdict(Scored(s, e).1, e.want, e.handling)
    ensures Episodes.PerformedAt(ops, p) == Carried(s, e)
  {
    hide Scored, Episodes.After;
  }

  /** No event from a to b ends an episode. */
  predicate NoEnd(s: State, events: seq<Event>, a: nat, b: nat)
    requires a <= b <= |events|
  {
    forall k :: a <= k < b ==>
      forall op :: op in OpsOf(After(s, events[..k]), events[k]) ==> !Episodes.EndsEpisode(op)
  }

  lemma {:induction false} NoEndInTrace(s: State, events: seq<Event>, a: nat, b: nat)
    requires a <= b <= |events| && NoEnd(s, events, a, b)
    ensures Position(s, events, a) <= Position(s, events, b) <= |Trace(s, events)|
    ensures forall p :: Position(s, events, a) <= p < Position(s, events, b) ==>
              !Episodes.EndsEpisode(Trace(s, events)[p])
    decreases b
  {
    hide Trace, OpsOf, After, Episodes.EndsEpisode;
    TraceGrows(s, events, b);
    if a < b {
      NoEndInTrace(s, events, a, b - 1);
      TraceGrows(s, events, b - 1);
      LastOpsGoOn(s, events, a, b);
      hide NoEnd;
      TailGoesOn(Trace(s, events), Trace(s, events[..b - 1]), OpsOf(After(s, events[..b - 1]), events[b - 1]));
    }
  }

  lemma LastOpsGoOn(s: State, events: seq<Event>, a: nat, b: nat)
    requires a < b <= |events| && NoEnd(s, events, a, b)
    ensures NoEnd(s, events, a, b - 1)
    ensures forall op :: op in OpsOf(After(s, events[..b - 1]), events[b - 1]) ==> !Episodes.EndsEpisode(op)
  {
    hide OpsOf, After, Episodes.EndsEpisode;
  }

  lemma TailGoesOn(ops: seq<Episodes.Op>, was: seq<Episodes.Op>, next: seq<Episodes.Op>)
    requires was + next <= ops && forall op :: op in next ==> !Episodes.EndsEpisode(op)
    ensures forall p :: |was| <= p < |was| + |next| ==> !Episodes.EndsEpisode(ops[p])
  {
    hide Episodes.EndsEpisode;
    forall p | |was| <= p < |was| + |next| ensures !Episodes.EndsEpisode(ops[p]) {
      assert ops[p] == (was + next)[p] == next[p - |was|];
      assert next[p - |was|] in next;
    }
  }

  /** The pairs of reads that a run's frames meet. */
  predicate ReadsWithin(events: seq<Event>, pairs: Episodes.Reads) {
    forall k :: 0 <= k < |events| && events[k].Frame? ==> pairs(events[k].want, events[k].handling.action)
  }

  lemma {:induction false} TraceWithin(s: State, events: seq<Event>, pairs: Episodes.Reads)
    requires ReadsWithin(events, pairs)
    ensures Episodes.Within(Trace(s, events), pairs)
    decreases |events|
  {
    hide Scored, After;
    if events != [] {
      TraceWithin(s, events[..|events| - 1], pairs);
    }
  }

  /** The episode's main result, of the detector itself: unless a save slips
      between the two reads of the action, the commands the printer receives
      between two ends of an episode strictly increase, in every run. */
  lemma DetectorCommandsIncrease(s: State, events: seq<Event>, pairs: Episodes.Reads, i: nat, j: nat)
    requires s.latch == None && ReadsWithin(events, pairs) && Episodes.StrictlyMonotone(pairs)
    requires i < j < |events| && events[i].Frame? && events[j].Frame? && NoEnd(s, events, i + 1, j)
    requires Carried(After(s, events[..i]), events[i]).Some? && Carried(After(s, events[..j]), events[j]).Some?
    ensures Carried(After(s, events[..i]), events[i]).value < Carried(After(s, events[..j]), events[j]).value
  {
    hide Trace, After, OpsOf, Scored, NoEnd;
    CarriedIsPerformed(s, events, i);
    CarriedIsPerformed(s, events, j);
    assert Position(s, events, i + 1) == Position(s, events, i) + 1;
    NoEndInTrace(s, events, i + 1, j);
    TraceWithin(s, events, pairs);
    Episodes.MonotoneReadsAreSafe(Trace(s, events), pairs);
    assert Episodes.SameEpisode(Trace(s, events), Position(s, events, i), Position(s, events, j));
  }

  // ---- the criterion over a run ------------------------------------------

  /** The frames judged since the window was last reset, each alarming if its
      area exceeds the sensitivity in force. */
  function Ticks(s: State, events: seq<Event>): seq<Windowing.Tick> {
    if events == [] then []
    else
      var n := |events| - 1;
      var before, sofar := After(s, events[..n]), Ticks(s, events[..n]);
      match events[n]
      case Frame(pctArea, addedAt, decidedAt, stopped, _, _) =>
        if stopped then sofar else sofar + [Windowing.Tick(pctArea > before.sensitivity, addedAt, decidedAt)]
      case Refresh(g, d) => if g != before.generation && CriteriaChanged(before, d) then [] else sofar
      case Start(anew) => if anew && !before.running then [] else sofar
      case Stop => sofar
  }

  /** The window is what those frames alone would have made of a new one. */
  lemma {:induction false} WindowIsTicks(s: State, events: seq<Event>)
    requires s.window == Windowing.Reset(s.window)
    ensures var w := After(s, events).window;
            w == Windowing.After(Windowing.Reset(w), Ticks(s, events))
    decreases |events|
  {
    if events != [] {
      var n := |events| - 1;
      var before, sofar := After(s, events[..n]), Ticks(s, events[..n]);
      WindowIsTicks(s, events[..n]);
      StepIsTick(before, events[n], sofar);
    }
  }

  lemma StepIsTick(s: State, e: Event, sofar: seq<Windowing.Tick>)
    requires s.window == Windowing.After(Windowing.Reset(s.window), sofar)
    ensures var w := Step(s, e).window;
            match e
            case Frame(pctArea, addedAt, decidedAt, stopped, _, _) =>
              w == Windowing.After(Windowing.Reset(w),
                                   if stopped then sofar
                                   else sofar + [Windowing.Tick(pctArea > s.sensitivity, addedAt, decidedAt)])
            case Refresh(g, d) => w == Windowing.After(Windowing.Reset(w), if g != s.generation && CriteriaChanged(s, d) then [] else sofar)
            case Start(anew) => w == Windowing.After(Windowing.Reset(w), if anew && !s.running then [] else sofar)
            case Stop => w == Windowing.After(Windowing.Reset(w), sofar)
  {
    match e
    case Frame(pctArea, addedAt, decidedAt, stopped, _, _) =>
      var t := Windowing.Tick(pctArea > s.sensitivity, addedAt, decidedAt);
      assert (sofar + [t])[..|sofar|] == sofar;
    case Refresh(g, d) => Windowing.RatioIsApart(Windowing.Reset(s.window), sofar, d.failureRatio);
    case _ =>
  }

  /** Over any run the criterion is met at a frame exactly if, since the last
      new criteria or fresh start, there were 20 frames over 30 seconds, and of
      those in the last count time the ones whose area exceeds the sensitivity
      reach the failure ratio. */
  lemma CriterionIff(s: State, events: seq<Event>)
    requires s.window == Windowing.Reset(s.window)
    requires events != [] && events[|events| - 1].Frame? && !events[|events| - 1].stopped
    requires Windowing.Clocked(Ticks(s, events))
    ensures var before := After(s, events[..|events| - 1]);
            Scored(before, events[|events| - 1]).1
            <==> Windowing.Criterion(Ticks(s, events), before.window.countTime, before.window.failureRatio)
  {
    var n := |events| - 1;
    WindowIsTicks(s, events[..n]);
    var w, ticks := After(s, events[..n]).window, Ticks(s, events);
    assert ticks[..|ticks| - 1] == Ticks(s, events[..n]);
    Windowing.MetIff(Windowing.Reset(w), ticks);
    hide Windowing.Criterion, Windowing.After;
  }

  /** Exactly when a frame makes the printer carry out a command: the criterion
      is met, the episode has not come to this level yet, and the handler finds
      a print running, reads that command and gets it through. */
  lemma CommandIff(s: State, events: seq<Event>, cmd: int)
    requires s.window == Windowing.Reset(s.window)
    requires events != [] && events[|events| - 1].Frame? && !events[|events| - 1].stopped
    requires Windowing.Clocked(Ticks(s, events))
    ensures var before, e := After(s, events[..|events| - 1]), events[|events| - 1];
            var h := e.handling;
            Carried(before, e) == Some(cmd)
            <==> Windowing.Criterion(Ticks(s, events), before.window.countTime, before.window.failureRatio)
                 && (before.latch.None? || e.want > before.latch.value)
                 && h.present && !h.raises && h.printing && h.commandWorks
                 && h.action == cmd && (cmd == Episodes.PAUSE || cmd == Episodes.CANCEL)
  {
    CriterionIff(s, events);
    var e := events[|events| - 1];
    Episodes.HandledIff(e.handling);
    hide Windowing.Criterion, Scored, Ticks, Windowing.Clocked, After;
  }

  /** A resume neither ends the episode nor touches the window; a fresh start
      does both. */
  lemma ResumeContinues(s: State)
    requires !s.running
    ensures Step(s, Start(false)) == s.(running := true) && OpsOf(s, Start(false)) == []
    ensures Step(s, Start(true)).latch == None && OpsOf(s, Start(true)) == [Episodes.Rearm]
    ensures Step(s, Start(true)).window == Windowing.Reset(s.window)
  {
  }

  /** Moving the line keeps the statistics; changing the scale discards them. */
  lemma RefreshScope(s: State, g: nat, d: Settings)
    requires g != s.generation
    ensures var t := Step(s, Refresh(g, d));
            t.sensitivity == d.imgSensitivity && t.threshold == d.scoresThreshold
            && t.window.countTime == d.countTime && t.window.failureRatio == d.failureRatio
            && (CriteriaChanged(s, d) ==> t.latch == None && t.window.entries == [] && t.window.frames == 0)
            && (!CriteriaChanged(s, d) ==> t.latch == s.latch && t.window.entries == s.window.entries
                                           && t.window.frames == s.window.frames
                                           && t.window.startedAt == s.window.startedAt)
  {
  }

  // ---- the object --------------------------------------------------------

  class Detector {
    const window: Windowing.FailureWindow
    var firedLevel: Option<int>
    var sensitivity: real
    var scoreThreshold: real
    var cfgGeneration: int
    var alive: bool
    var buffer: FrameBuffering.FrameBuffer?
    var bufferMaxAge: real

    ghost function View(): State
      reads this, window
    {
      State(firedLevel, window.View(), sensitivity, scoreThreshold, cfgGeneration, alive)
    }

    constructor (d: Settings)
      ensures View() == State(None, Windowing.Window(d.countTime, d.failureRatio, [], None, 0, 0.0),
                              d.imgSensitivity, d.scoresThreshold, -1, false)
      ensures buffer == null && fresh(window)
    {
      window := new Windowing.FailureWindow(d.countTime, d.failureRatio);
      firedLevel := None;
      sensitivity, scoreThreshold := d.imgSensitivity, d.scoresThreshold;
      cfgGeneration, alive := -1, false;
      buffer, bufferMaxAge := null, 0.0;
    }

    /** Resume keeps the window and the latch; a new print drops both, and the
        candidates of the last one. */
    method StartRun(anew: bool)
      modifies this, window, buffer
      ensures View() == Step(old(View()), Start(anew))
      ensures buffer == old(buffer)
      ensures !old(alive) && anew && buffer != null ==>
                buffer.View() == FrameBuffering.Bump(old(buffer.View()))
    {
      if alive {
        return;
      }
      if anew {
        firedLevel := None;
        window.ResetWindow();
        if buffer != null {
          var _ := buffer.BumpEpoch();
        }
      }
      alive := true;
    }

    /** Settings as of `generation`, applied once per generation. A change of
        criteria retires every candidate held or in flight. */
    method RefreshSettings(generation: nat, d: Settings)
      requires buffer != null
      modifies this, window, buffer
      ensures View() == Step(old(View()), Refresh(generation, d))
      ensures buffer != null && (buffer == old(buffer) || fresh(buffer))
      ensures generation != old(cfgGeneration) && CriteriaChanged(old(View()), d) ==>
                buffer.items == [] && (buffer == old(buffer) ==> buffer.epoch == old(buffer.epoch) + 1)
      ensures generation != old(cfgGeneration) && old(Outgrown(d)) ==>
                fresh(buffer) && buffer.items == [] && buffer.cfg.maxAge == d.bufferMaxAge
                && buffer.cfg.capacity == if d.bufferCapacity < 1 then 1 else d.bufferCapacity
      ensures generation == old(cfgGeneration) || !old(Outgrown(d)) ==> buffer == old(buffer)
    {
      if generation == cfgGeneration {
        return;
      }
      cfgGeneration := generation;
      RebuildBuffer(d);
      if d.failureRatio != window.failureRatio {
        window.failureRatio := d.failureRatio;
      }
      if sensitivity != d.imgSensitivity || scoreThreshold != d.scoresThreshold || window.countTime != d.countTime {
        ApplyCriteria(d);
      }
    }

    /** The settings ask for another capacity or age than the buffer has. */
    ghost predicate Outgrown(d: Settings)
      requires buffer != null
      reads this
    {
      buffer.cfg.capacity != d.bufferCapacity || bufferMaxAge != d.bufferMaxAge
    }

    /** A new buffer, when its dimensions changed: the candidates in the old one
        are given up. */
    method RebuildBuffer(d: Settings)
      requires buffer != null
      modifies this`buffer, this`bufferMaxAge
      ensures buffer != null && (buffer == old(buffer) || fresh(buffer))
      ensures old(Outgrown(d)) ==>
                fresh(buffer) && buffer.View() == FrameBuffering.EMPTY && bufferMaxAge == d.bufferMaxAge
                && buffer.cfg.maxAge == d.bufferMaxAge
                && buffer.cfg.capacity == if d.bufferCapacity < 1 then 1 else d.bufferCapacity
      ensures !old(Outgrown(d)) ==> buffer == old(buffer) && bufferMaxAge == old(bufferMaxAge)
    {
      if buffer.cfg.capacity != d.bufferCapacity || bufferMaxAge != d.bufferMaxAge {
        bufferMaxAge := d.bufferMaxAge;
        buffer := new FrameBuffering.FrameBuffer(d.bufferCapacity, d.bufferMaxAge, 3);
      }
    }

    /** New criteria: the statistics start again, and what was sampled under
        the old ones is retired. */
    method ApplyCriteria(d: Settings)
      requires buffer != null
      modifies this`sensitivity, this`scoreThreshold, this`firedLevel, window, buffer
      ensures sensitivity == d.imgSensitivity && scoreThreshold == d.scoresThreshold && firedLevel == None
      ensures window.View() == Windowing.Reset(old(window.View()).(countTime := d.countTime))
      ensures buffer.View() == FrameBuffering.Bump(old(buffer.View()))
    {
      sensitivity := d.imgSensitivity;
      scoreThreshold := d.scoresThreshold;
      window.countTime := d.countTime;
      window.ResetWindow();
      firedLevel := None;
      var _ := buffer.BumpEpoch();
    }

    /** One inferred frame. The level is latched only after the handler has
        reported success, at the level that was decided on. */
    method Score(pctArea: real, addedAt: real, decidedAt: real, stopped: bool, want: int,
                 handling: Episodes.Handling) returns (performed: Option<int>)
      modifies this, window
      ensures View() == Step(old(View()), Frame(pctArea, addedAt, decidedAt, stopped, want, handling))
      ensures performed
           == Carried(old(View()), Frame(pctArea, addedAt, decidedAt, stopped, want, handling))
    {
      performed := None;
      if stopped {
        return;
      }
      window.AddVerdict(pctArea > sensitivity, addedAt);
      var met, ratio := window.DecideNow(decidedAt);
      if !met {
        firedLevel := None;
      } else if firedLevel.None? || want > firedLevel.value {
        var outcome := HandleFailure(handling);
        performed := outcome.performed;
        firedLevel := if outcome.ok then Some(want) else firedLevel;
      }
    }

    /** The handler: act first, then notify, and report whether it counts. */
    method HandleFailure(h: Episodes.Handling) returns (r: Episodes.Handled)
      ensures r == Episodes.OnFailure(h)
    {
      if !h.present {
        return Episodes.Handled(true, None);
      }
      if h.raises {
        return Episodes.Handled(false, None);
      }
      if !h.printing {
        return Episodes.Handled(true, None);
      }
      var acted := false;
      if h.action == Episodes.PAUSE || h.action == Episodes.CANCEL {
        acted := h.commandWorks;
      }
      var delivered := h.delivered;
      if acted {
        return Episodes.Handled(true, Some(h.action));
      }
      if h.action != 0 {
        return Episodes.Handled(false, None);
      }
      return Episodes.Handled(delivered || !h.hasChannel, None);
    }
  }
}
