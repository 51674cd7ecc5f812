/** The failure criterion: a duty cycle over a sliding window of verdicts. */
module Windowing {
  import opened Bytes

  const INIT_MIN_FRAMES := 20
  const INIT_MIN_SECONDS := 30.0

  datatype Entry = Entry(at: real, alarming: bool)

  datatype Window = Window(countTime: real, failureRatio: real, entries: seq<Entry>,
                           startedAt: Option<real>, frames: nat, lastRatio: real)

  function Reset(w: Window): Window {
    w.(entries := [], startedAt := None, frames := 0, lastRatio := 0.0)
  }

  function Prune(entries: seq<Entry>, cutoff: real): seq<Entry> {
    if entries != [] && entries[0].at < cutoff then Prune(entries[1..], cutoff) else entries
  }

  function Add(w: Window, alarming: bool, now: real): Window {
    w.(startedAt := if w.startedAt.None? then Some(now) else w.startedAt,
       frames := w.frames + 1,
       entries := Prune(w.entries + [Entry(now, alarming)], now - w.countTime))
  }

  function Alarms(entries: seq<Entry>): nat {
    if entries == [] then 0
    else (if entries[0].alarming then 1 else 0) + Alarms(entries[1..])
  }

  function Ratio(entries: seq<Entry>): real {
    if entries == [] then 0.0 else Alarms(entries) as real / |entries| as real
  }

  predicate Armed(w: Window, now: real) {
    w.startedAt.Some? && w.frames >= INIT_MIN_FRAMES && now - w.startedAt.value >= INIT_MIN_SECONDS
  }

  /** The pruned window and whether the criterion is met. */
  function Decide(w: Window, now: real): (Window, bool) {
    var entries := Prune(w.entries, now - w.countTime);
    var v := w.(entries := entries, lastRatio := Ratio(entries));
    (v, Armed(v, now) && Ratio(entries) >= w.failureRatio)
  }

  // ---- agreement with the whole history ----------------------------------

  /** One scored frame: its verdict, and the two clock reads around it. */
  datatype Tick = Tick(alarming: bool, addedAt: real, decidedAt: real)

  predicate Clocked(ticks: seq<Tick>) {
    (forall i :: 0 <= i < |ticks| ==> ticks[i].addedAt <= ticks[i].decidedAt)
    && forall i, j :: 0 <= i < j < |ticks| ==> ticks[i].decidedAt <= ticks[j].addedAt
  }

  function After(w: Window, ticks: seq<Tick>): Window {
    if ticks == [] then w
    else
      var t := ticks[|ticks| - 1];
      Decide(Add(After(w, ticks[..|ticks| - 1]), t.alarming, t.addedAt), t.decidedAt).0
  }

  function Verdicts(ticks: seq<Tick>): seq<Entry> {
    if ticks == [] then []
    else
      var t := ticks[|ticks| - 1];
      Verdicts(ticks[..|ticks| - 1]) + [Entry(t.addedAt, t.alarming)]
  }

  /** The verdicts of the last `countTime` seconds. */
  function Recent(entries: seq<Entry>, cutoff: real): seq<Entry> {
    if entries == [] then []
    else
      var n := |entries| - 1;
      if entries[n].at >= cutoff then Recent(entries[..n], cutoff) + [entries[n]]
      else Recent(entries[..n], cutoff)
  }

  predicate Ordered(entries: seq<Entry>) {
    forall i, j :: 0 <= i < j < |entries| ==> entries[i].at <= entries[j].at
  }

  lemma {:induction false} RecentOfPrefix(a: seq<Entry>, b: seq<Entry>, cutoff: real)
    ensures Recent(a + b, cutoff) == Recent(a, cutoff) + Recent(b, cutoff)
    decreases |b|
  {
    if b == [] {
      assert a + b == a;
    } else {
      var n := |b| - 1;
      assert (a + b)[..|a + b| - 1] == a + b[..n];
      RecentOfPrefix(a, b[..n], cutoff);
    }
  }

  /** Popping stale entries off the front of an ordered window is a filter. */
  lemma {:induction false} PruneIsRecent(entries: seq<Entry>, cutoff: real)
    requires Ordered(entries)
    ensures Prune(entries, cutoff) == Recent(entries, cutoff)
    decreases |entries|
  {
    if entries != [] {
      assert entries == [entries[0]] + entries[1..];
      RecentOfPrefix([entries[0]], entries[1..], cutoff);
      assert [entries[0]][..0] == [];
      if entries[0].at < cutoff {
        PruneIsRecent(entries[1..], cutoff);
      } else {
        AllRecent(entries, cutoff);
      }
    }
  }

  lemma {:induction false} AllRecent(entries: seq<Entry>, cutoff: real)
    requires forall i :: 0 <= i < |entries| ==> entries[i].at >= cutoff
    ensures Recent(entries, cutoff) == entries
    decreases |entries|
  {
    if entries != [] {
      var n := |entries| - 1;
      AllRecent(entries[..n], cutoff);
      assert entries == entries[..n] + [entries[n]];
    }
  }

  /** Filtering by an earlier cutoff first changes nothing. */
  lemma {:induction false} RecentTwice(entries: seq<Entry>, c1: real, c2: real)
    requires c1 <= c2
    ensures Recent(Recent(entries, c1), c2) == Recent(entries, c2)
    decreases |entries|
  {
    if entries != [] {
      var n := |entries| - 1;
      RecentTwice(entries[..n], c1, c2);
      if entries[n].at >= c1 {
        var r := Recent(entries[..n], c1);
        assert (r + [entries[n]])[..|r|] == r;
      }
    }
  }

  lemma {:induction false} RecentKeepsOrder(entries: seq<Entry>, cutoff: real)
    requires Ordered(entries)
    ensures Ordered(Recent(entries, cutoff))
    ensures forall e :: e in Recent(entries, cutoff) ==> e in entries
    decreases |entries|
  {
    if entries != [] {
      var n := |entries| - 1;
      var r := Recent(entries[..n], cutoff);
      RecentKeepsOrder(entries[..n], cutoff);
      forall i | 0 <= i < |r| ensures r[i].at <= entries[n].at {
        assert r[i] in entries[..n];
      }
    }
  }

  lemma {:induction false} VerdictsMean(ticks: seq<Tick>)
    ensures |Verdicts(ticks)| == |ticks|
    ensures forall i :: 0 <= i < |ticks| ==> Verdicts(ticks)[i] == Entry(ticks[i].addedAt, ticks[i].alarming)
    decreases |ticks|
  {
    if ticks != [] {
      VerdictsMean(ticks[..|ticks| - 1]);
    }
  }

  lemma VerdictsOrdered(ticks: seq<Tick>)
    requires Clocked(ticks)
    ensures Ordered(Verdicts(ticks))
  {
    VerdictsMean(ticks);
  }

  /** The streaming window agrees with the whole history since its reset: what
      it holds is the verdicts of the last `countTime`, and it has counted
      every frame from the first. */
  lemma {:induction false} WindowIsHistory(w: Window, ticks: seq<Tick>)
    requires w == Reset(w) && Clocked(ticks) && ticks != []
    ensures var v := After(w, ticks);
            v.countTime == w.countTime && v.failureRatio == w.failureRatio
            && v.entries == Recent(Verdicts(ticks), ticks[|ticks| - 1].decidedAt - w.countTime)
            && v.startedAt == Some(ticks[0].addedAt) && v.frames == |ticks|
    decreases |ticks|
  {
    hide Prune, Recent, Ratio;
    var n := |ticks| - 1;
    var t, before := ticks[n], ticks[..n];
    var e := Entry(t.addedAt, t.alarming);
    VerdictsOrdered(ticks);
    VerdictsMean(before);
    var c := t.addedAt - w.countTime;
    if n > 0 {
      WindowIsHistory(w, before);
      assert before[n - 1] == ticks[n - 1];
      OneTick(Verdicts(before), After(w, before).entries, e,
              ticks[n - 1].decidedAt - w.countTime, c, t.decidedAt - w.countTime);
    } else {
      AllRecent([], c);
      OneTick(Verdicts(before), After(w, before).entries, e, c, c, t.decidedAt - w.countTime);
    }
  }

  /** One add and one decide, against the filter of the history. */
  lemma OneTick(history: seq<Entry>, held: seq<Entry>, e: Entry, c0: real, c1: real, c2: real)
    requires Ordered(history + [e]) && held == Recent(history, c0) && c0 <= c1 <= c2
    ensures Prune(Prune(held + [e], c1), c2) == Recent(history + [e], c2)
  {
    var all := history + [e];
    assert Ordered(history) by {
      forall i, j | 0 <= i < j < |history| ensures history[i].at <= history[j].at {
        assert all[i] == history[i] && all[j] == history[j];
      }
    }
    RecentKeepsOrder(history, c0);
    assert Ordered(held + [e]) by {
      forall i | 0 <= i < |held| ensures held[i].at <= e.at {
        assert held[i] in history;
        var k :| 0 <= k < |history| && history[k] == held[i];
        assert all[k] == held[i] && all[|history|] == e;
      }
    }
    PruneIsRecent(held + [e], c1);
    RecentKeepsOrder(held + [e], c1);
    PruneIsRecent(Recent(held + [e], c1), c2);
    RecentTwice(held + [e], c1, c2);
    RecentOfPrefix(held, [e], c2);
    RecentOfPrefix(history, [e], c2);
    RecentTwice(history, c0, c2);
  }

  // ---- the criterion, by counting ----------------------------------------

  lemma {:induction false} AlarmsOfLast(a: seq<Entry>, e: Entry)
    ensures Alarms(a + [e]) == Alarms(a) + if e.alarming then 1 else 0
  {
    if a == [] {
      assert [] + [e] == [e] && [e][1..] == [];
    } else {
      assert (a + [e])[1..] == a[1..] + [e];
      AlarmsOfLast(a[1..], e);
    }
  }

  /** The verdicts counted are those that alarm. */
  lemma {:induction false} AlarmsCount(entries: seq<Entry>)
    ensures Alarms(entries) == |set i | 0 <= i < |entries| && entries[i].alarming|
    decreases |entries|
  {
    if entries != [] {
      var n := |entries| - 1;
      var before := entries[..n];
      AlarmsCount(before);
      AlarmsOfLast(before, entries[n]);
      assert entries == before + [entries[n]];
      var last: set<int> := if entries[n].alarming then {n} else {};
      assert (set i | 0 <= i < |entries| && entries[i].alarming)
          == (set i | 0 <= i < |before| && before[i].alarming) + last;
    }
  }

  /** The frames of the last so many seconds, by their place in the history. */
  function RecentTicks(ticks: seq<Tick>, cutoff: real): set<int> {
    set i | 0 <= i < |ticks| && ticks[i].addedAt >= cutoff
  }

  function RecentAlarms(ticks: seq<Tick>, cutoff: real): set<int> {
    set i | 0 <= i < |ticks| && ticks[i].addedAt >= cutoff && ticks[i].alarming
  }

  lemma {:induction false} RecentCounts(ticks: seq<Tick>, cutoff: real)
    ensures |Recent(Verdicts(ticks), cutoff)| == |RecentTicks(ticks, cutoff)|
    ensures Alarms(Recent(Verdicts(ticks), cutoff)) == |RecentAlarms(ticks, cutoff)|
    decreases |ticks|
  {
    if ticks != [] {
      var n := |ticks| - 1;
      var before, t := ticks[..n], ticks[n];
      var e := Entry(t.addedAt, t.alarming);
      RecentCounts(before, cutoff);
      RecentOfLast(Verdicts(before), e, cutoff);
      AlarmsOfLast(Recent(Verdicts(before), cutoff), e);
      SetsOfLast(ticks, cutoff);
      hide Recent, Alarms, RecentTicks, RecentAlarms;
    }
  }

  lemma RecentOfLast(entries: seq<Entry>, e: Entry, cutoff: real)
    ensures Recent(entries + [e], cutoff) == Recent(entries, cutoff) + if e.at >= cutoff then [e] else []
  {
    assert (entries + [e])[..|entries|] == entries;
  }

  lemma SetsOfLast(ticks: seq<Tick>, cutoff: real)
    requires ticks != []
    ensures var n := |ticks| - 1;
            var here := if ticks[n].addedAt >= cutoff then 1 else 0;
            |RecentTicks(ticks, cutoff)| == |RecentTicks(ticks[..n], cutoff)| + here
            && |RecentAlarms(ticks, cutoff)| == |RecentAlarms(ticks[..n], cutoff)| + if ticks[n].alarming then here else 0
  {
    var n := |ticks| - 1;
    var before, t := ticks[..n], ticks[n];
    var last: set<int> := if t.addedAt >= cutoff then {n} else {};
    assert RecentTicks(ticks, cutoff) == RecentTicks(before, cutoff) + last;
    assert RecentAlarms(ticks, cutoff) == RecentAlarms(before, cutoff) + if t.alarming then last else {};
  }

  /** At least 20 frames over at least 30 seconds since the reset, and among the
      frames of the last `countTime` the alarming ones reach the ratio. */
  predicate Criterion(ticks: seq<Tick>, countTime: real, failureRatio: real)
    requires ticks != []
  {
    var now := ticks[|ticks| - 1].decidedAt;
    && |ticks| >= 20 && now - ticks[0].addedAt >= 30.0
    && Reaches(|RecentAlarms(ticks, now - countTime)|, |RecentTicks(ticks, now - countTime)|, failureRatio)
  }

  predicate Reaches(alarms: nat, frames: nat, ratio: real) {
    if frames == 0 then ratio <= 0.0 else alarms as real >= ratio * frames as real
  }

  lemma ShareReaches(alarms: nat, frames: nat, ratio: real)
    requires frames > 0
    ensures alarms as real / frames as real >= ratio <==> alarms as real >= ratio * frames as real
  {
    var a, f := alarms as real, frames as real;
    assert a / f * f == a;
    if a / f >= ratio {
      assert (a / f - ratio) * f >= 0.0;
    } else {
      assert (ratio - a / f) * f > 0.0;
    }
  }

  /** When the criterion is met after the last tick, in terms of the history. */
  lemma {:induction false} MetIff(w: Window, ticks: seq<Tick>)
    requires w == Reset(w) && Clocked(ticks) && ticks != []
    ensures var t := ticks[|ticks| - 1];
            Decide(Add(After(w, ticks[..|ticks| - 1]), t.alarming, t.addedAt), t.decidedAt).1
            <==> Criterion(ticks, w.countTime, w.failureRatio)
  {
    hide Ratio, Recent, RecentTicks, RecentAlarms, Verdicts, Prune, Reaches;
    RatioReaches(ticks, ticks[|ticks| - 1].decidedAt - w.countTime, w.failureRatio);
    WindowIsHistory(w, ticks);
    if |ticks| > 1 {
      WindowIsHistory(w, ticks[..|ticks| - 1]);
    }
  }

  lemma RatioReaches(ticks: seq<Tick>, cutoff: real, ratio: real)
    ensures Ratio(Recent(Verdicts(ticks), cutoff)) >= ratio
       <==> Reaches(|RecentAlarms(ticks, cutoff)|, |RecentTicks(ticks, cutoff)|, ratio)
  {
    hide Recent, Alarms, Verdicts, RecentTicks, RecentAlarms;
    RecentCounts(ticks, cutoff);
    if |RecentTicks(ticks, cutoff)| > 0 {
      ShareReaches(|RecentAlarms(ticks, cutoff)|, |RecentTicks(ticks, cutoff)|, ratio);
    }
  }

  /** The ratio plays no part in what the window holds. */
  lemma {:induction false} RatioIsApart(w: Window, ticks: seq<Tick>, ratio: real)
    ensures After(w.(failureRatio := ratio), ticks) == After(w, ticks).(failureRatio := ratio)
    decreases |ticks|
  {
    if ticks != [] {
      RatioIsApart(w, ticks[..|ticks| - 1], ratio);
    }
  }

  // ---- the object --------------------------------------------------------

  class FailureWindow {
    var countTime: real
    var failureRatio: real
    var entries: seq<Entry>
    var startedAt: Option<real>
    var frames: nat
    var lastRatio: real

    function View(): Window
      reads this
    {
      Window(countTime, failureRatio, entries, startedAt, frames, lastRatio)
    }

    constructor (countTime: real, failureRatio: real)
      ensures View() == Window(countTime, failureRatio, [], None, 0, 0.0)
    {
      this.countTime, this.failureRatio := countTime, failureRatio;
      entries, startedAt, frames, lastRatio := [], None, 0, 0.0;
    }

    method ResetWindow()
      modifies this
      ensures View() == Reset(old(View()))
    {
      entries := [];
      startedAt := None;
      frames := 0;
      lastRatio := 0.0;
    }

    method AddVerdict(alarming: bool, now: real)
      modifies this
      ensures View() == Add(old(View()), alarming, now)
    {
      if startedAt.None? {
        startedAt := Some(now);
      }
      frames := frames + 1;
      entries := entries + [Entry(now, alarming)];
      PruneEntries(now);
    }

    method PruneEntries(now: real)
      modifies this`entries
      ensures entries == Prune(old(entries), now - countTime)
    {
      var cutoff := now - countTime;
      while entries != [] && entries[0].at < cutoff
        invariant Prune(entries, cutoff) == Prune(old(entries), cutoff)
        decreases |entries|
      {
        entries := entries[1..];
      }
    }

    method DecideNow(now: real) returns (met: bool, ratio: real)
      modifies this
      ensures (View(), met) == Decide(old(View()), now) && ratio == lastRatio
    {
      PruneEntries(now);
      var total := |entries|;
      ratio := 0.0;
      if total > 0 {
        var alarms := CountAlarms();
        ratio := alarms as real / total as real;
      }
      lastRatio := ratio;
      if startedAt.None? || frames < INIT_MIN_FRAMES || now - startedAt.value < INIT_MIN_SECONDS {
        return false, ratio;
      }
      return ratio >= failureRatio, ratio;
    }

    method CountAlarms() returns (n: nat)
      ensures n == Alarms(entries)
    {
      n := 0;
      for k := 0 to |entries|
        invariant n + Alarms(entries[k..]) == Alarms(entries)
      {
        assert entries[k..][1..] == entries[k + 1..];
        if entries[k].alarming {
          n := n + 1;
        }
      }
    }
  }
}
