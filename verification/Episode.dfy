/** The failure episode: which action level has been carried out, and what the
    printer has been told, over whole runs of verdicts. */
module Episodes {
  import opened Bytes

  /** What one call of the failure handler meets. `action` is the setting as
      the handler reads it, a second read after the detector's own. */
  datatype Handling = Handling(
    present: bool, printing: bool, action: int, commandWorks: bool,
    delivered: bool, hasChannel: bool, raises: bool)

  const PAUSE := 1
  const CANCEL := 2

  predicate IsCommand(action: int) { action == PAUSE || action == CANCEL }

  datatype Handled = Handled(ok: bool, performed: Option<int>)

  /** `on_failure`, and what the detector makes of its answer: only an explicit
      False, or an exception, counts as not handled. */
  function OnFailure(h: Handling): Handled {
    if !h.present then Handled(true, None)
    else if h.raises then Handled(false, None)
    else if !h.printing then Handled(true, None)
    else if IsCommand(h.action) && h.commandWorks then Handled(true, Some(h.action))
    else if h.action != 0 then Handled(false, None)
    else Handled(h.delivered || !h.hasChannel, None)
  }

  datatype Op =
    | Verdict(met: bool, want: int, handling: Handling)
    | Rearm            // criteria changed, or a fresh start

  type Latch = Option<int>

  predicate Fires(latch: Latch, op: Op) {
    op.Verdict? && op.met && (latch.None? || op.want > latch.value)
  }

  function Step(latch: Latch, op: Op): Latch {
    match op
    case Rearm => None
    case Verdict(met, want, h) =>
      if !met then None
      else if Fires(latch, op) && OnFailure(h).ok then Some(want)
      else latch
  }

  function After(ops: seq<Op>, n: nat): Latch
    requires n <= |ops|
  {
    if n == 0 then None else Step(After(ops, n - 1), ops[n - 1])
  }

  predicate EndsEpisode(op: Op) { op.Rearm? || !op.met }

  /** Steps i and j lie in one episode. */
  predicate SameEpisode(ops: seq<Op>, i: nat, j: nat)
    requires i < j < |ops|
  {
    forall k :: i < k < j ==> !EndsEpisode(ops[k])
  }

  predicate FiredAt(ops: seq<Op>, i: nat)
    requires i < |ops|
  {
    Fires(After(ops, i), ops[i])
  }

  predicate HandledAt(ops: seq<Op>, i: nat)
    requires i < |ops|
  {
    FiredAt(ops, i) && OnFailure(ops[i].handling).ok
  }

  /** The command the printer carried out at step i, if any. */
  function PerformedAt(ops: seq<Op>, i: nat): Option<int>
    requires i < |ops|
  {
    if FiredAt(ops, i) then OnFailure(ops[i].handling).performed else None
  }

  lemma {:induction false} LatchHolds(ops: seq<Op>, i: nat, j: nat)
    requires i < j <= |ops| && HandledAt(ops, i)
    requires forall k :: i < k < j ==> !EndsEpisode(ops[k])
    ensures After(ops, j).Some? && After(ops, j).value >= ops[i].want
    decreases j
  {
    if j > i + 1 {
      LatchHolds(ops, i, j - 1);
    }
  }

  /** Within one episode, handled actions have strictly increasing levels, in
      every run, whatever the handler meets. */
  lemma HandledLevelsIncrease(ops: seq<Op>, i: nat, j: nat)
    requires i < j < |ops| && SameEpisode(ops, i, j)
    requires HandledAt(ops, i) && FiredAt(ops, j)
    ensures ops[i].want < ops[j].want
  {
    LatchHolds(ops, i, j);
  }

  /** A firing that was not handled leaves the latch alone, so the next met
      verdict wanting at least as much fires again. */
  lemma UnhandledTriesAgain(ops: seq<Op>, i: nat)
    requires i + 1 < |ops| && FiredAt(ops, i) && !OnFailure(ops[i].handling).ok
    requires ops[i + 1].Verdict? && ops[i + 1].met && ops[i + 1].want >= ops[i].want
    ensures After(ops, i + 1) == After(ops, i) && FiredAt(ops, i + 1)
  {
  }

  // ---- commands ----------------------------------------------------------

  /** Commands carried out in one episode have strictly increasing levels: at
      most one pause, at most one cancel, and no pause after a cancel. */
  predicate CommandsIncrease(ops: seq<Op>) {
    forall i, j :: 0 <= i < j < |ops| && SameEpisode(ops, i, j)
                   && PerformedAt(ops, i).Some? && PerformedAt(ops, j).Some? ==>
      PerformedAt(ops, i).value < PerformedAt(ops, j).value
  }

  lemma AtMostOneOfEach(ops: seq<Op>, i: nat, j: nat)
    requires CommandsIncrease(ops) && i < j < |ops| && SameEpisode(ops, i, j)
    requires PerformedAt(ops, i).Some? && PerformedAt(ops, j).Some?
    ensures PerformedAt(ops, i) == Some(PAUSE) && PerformedAt(ops, j) == Some(CANCEL)
  {
  }

  /** Which pairs (level decided on, level the handler read) can occur. */
  type Reads = (int, int) -> bool

  predicate Within(ops: seq<Op>, pairs: Reads) {
    forall i :: 0 <= i < |ops| && ops[i].Verdict? ==> pairs(ops[i].want, ops[i].handling.action)
  }

  /** A higher decision never ends in a command that is not higher. */
  ghost predicate StrictlyMonotone(pairs: Reads) {
    forall w1, a1, w2, a2 :: pairs(w1, a1) && pairs(w2, a2) && IsCommand(a1) && IsCommand(a2) && w1 < w2 ==> a1 < a2
  }

  lemma MonotoneReadsAreSafe(ops: seq<Op>, pairs: Reads)
    requires Within(ops, pairs) && StrictlyMonotone(pairs)
    ensures CommandsIncrease(ops)
  {
    forall i, j | 0 <= i < j < |ops| && SameEpisode(ops, i, j)
                  && PerformedAt(ops, i).Some? && PerformedAt(ops, j).Some?
      ensures PerformedAt(ops, i).value < PerformedAt(ops, j).value
    {
      HandledLevelsIncrease(ops, i, j);
      assert pairs(ops[i].want, ops[i].handling.action) && pairs(ops[j].want, ops[j].handling.action);
    }
  }

  function Working(action: int): Handling { Handling(true, true, action, true, true, true, false) }

  /** Two reads that are not monotone make a run that repeats or lowers a
      command within one episode. */
  lemma UnsafeRun(w1: int, a1: int, w2: int, a2: int) returns (ops: seq<Op>)
    requires IsCommand(a1) && IsCommand(a2) && w1 < w2 && !(a1 < a2)
    ensures !CommandsIncrease(ops)
    ensures forall pairs: Reads :: pairs(w1, a1) && pairs(w2, a2) ==> Within(ops, pairs)
  {
    ops := [Verdict(true, w1, Working(a1)), Verdict(true, w2, Working(a2))];
    assert After(ops, 0) == None && After(ops, 1) == Some(w1);
    assert PerformedAt(ops, 0) == Some(a1) && PerformedAt(ops, 1) == Some(a2);
    assert SameEpisode(ops, 0, 1);
  }

  /** Exactly when every run is safe: when the pairs of reads that can occur
      are strictly monotone. */
  lemma CommandsIncreaseIff(pairs: Reads)
    ensures (forall ops :: Within(ops, pairs) ==> CommandsIncrease(ops)) <==> StrictlyMonotone(pairs)
  {
    if StrictlyMonotone(pairs) {
      forall ops | Within(ops, pairs) ensures CommandsIncrease(ops) {
        MonotoneReadsAreSafe(ops, pairs);
      }
    } else {
      var w1, a1, w2, a2 :| pairs(w1, a1) && pairs(w2, a2) && IsCommand(a1) && IsCommand(a2) && w1 < w2 && !(a1 < a2);
      var ops := UnsafeRun(w1, a1, w2, a2);
      assert Within(ops, pairs);
    }
  }

  /** No save between the detector's read of the action and the handler's. */
  lemma AgreeingReadsAreSafe(ops: seq<Op>)
    requires forall i :: 0 <= i < |ops| && ops[i].Verdict? ==> ops[i].handling.action == ops[i].want
    ensures CommandsIncrease(ops)
  {
    MonotoneReadsAreSafe(ops, (w, a) => w == a);
  }

  /** A save that raises pause to cancel between the two reads: cancelled for
      a decision to pause, then cancelled again. */
  lemma RacingSaveCancelsTwice()
    ensures var ops := [Verdict(true, PAUSE, Working(CANCEL)), Verdict(true, CANCEL, Working(CANCEL))];
            SameEpisode(ops, 0, 1)
            && PerformedAt(ops, 0) == Some(CANCEL) && PerformedAt(ops, 1) == Some(CANCEL)
  {
  }

  // ---- what a latched level means for the printer ------------------------

  /** A handled firing carried out the command that was decided on exactly when
      there was a handler, a print running, and the handler read the same
      action. Otherwise it counts as handled all the same. */
  lemma HandledIsCarriedOutIff(h: Handling, want: int)
    requires IsCommand(want) && OnFailure(h).ok
    ensures OnFailure(h).performed == Some(want) <==> h.present && h.printing && h.action == want
  {
  }

  /** What counts as handled, case by case. */
  lemma HandledIff(h: Handling)
    ensures OnFailure(h).ok
       <==> !h.present
            || (!h.raises && (!h.printing
                              || (IsCommand(h.action) && h.commandWorks)
                              || (h.action == 0 && (h.delivered || !h.hasChannel))))
    ensures OnFailure(h).performed.Some?
       <==> h.present && !h.raises && h.printing && IsCommand(h.action) && h.commandWorks
    ensures OnFailure(h).performed.Some? ==> OnFailure(h).performed.value == h.action
  {
  }

  /** An alert that reached nobody is tried again at the next failing frame. */
  lemma UndeliveredAlertTriesAgain(ops: seq<Op>, i: nat)
    requires i + 1 < |ops| && FiredAt(ops, i)
    requires var h := ops[i].handling; h.present && h.printing && h.action == 0 && h.hasChannel && !h.delivered
    requires ops[i + 1].Verdict? && ops[i + 1].met && ops[i + 1].want >= ops[i].want
    ensures FiredAt(ops, i + 1)
  {
    UnhandledTriesAgain(ops, i);
  }

  /** A latch goes back to one handled firing in the running episode. */
  lemma {:induction false} LatchComesFrom(ops: seq<Op>, n: nat) returns (i: nat)
    requires n <= |ops| && After(ops, n).Some?
    ensures i < n && HandledAt(ops, i) && After(ops, n) == Some(ops[i].want)
    ensures forall k :: i < k < n ==> !EndsEpisode(ops[k]) && !HandledAt(ops, k)
  {
    if After(ops, n) != After(ops, n - 1) || HandledAt(ops, n - 1) {
      i := n - 1;
    } else {
      i := LatchComesFrom(ops, n - 1);
    }
  }

  /** What the latch tells about the printer, in every run: at a command's
      level, that command was carried out in this episode if and only if the
      firing behind the latch met a handler, a running print and equal reads. */
  lemma LatchIsCarriedOutIff(ops: seq<Op>, n: nat) returns (i: nat)
    requires n <= |ops| && After(ops, n).Some? && IsCommand(After(ops, n).value)
    ensures i < n && HandledAt(ops, i) && ops[i].want == After(ops, n).value
    ensures forall k :: i < k < n ==> !EndsEpisode(ops[k])
    ensures var h := ops[i].handling;
            PerformedAt(ops, i) == After(ops, n) <==> h.present && h.printing && h.action == ops[i].want
  {
    i := LatchComesFrom(ops, n);
    HandledIsCarriedOutIff(ops[i].handling, ops[i].want);
  }

  /** A pause decided on, read by the handler as "alert only", and alerted. */
  function Misread(): Op { Verdict(true, PAUSE, Handling(true, true, 0, true, true, true, false)) }

  /** Then the latch stands at the pause, the printer is told nothing, and as
      long as the failure lasts no further decision to pause fires. */
  lemma {:induction false} MisreadPauseIsLost(later: seq<Op>, i: nat)
    requires i <= |later|
    requires forall k :: 0 <= k < |later| ==> later[k].Verdict? && later[k].met && later[k].want <= PAUSE
    ensures var ops := [Misread()] + later;
            After(ops, i + 1) == Some(PAUSE) && PerformedAt(ops, i) == None && (i > 0 ==> !FiredAt(ops, i))
  {
    var ops := [Misread()] + later;
    if i > 0 {
      MisreadPauseIsLost(later, i - 1);
      assert ops[i] == later[i - 1];
    } else {
      assert After(ops, 0) == None;
    }
  }
}
