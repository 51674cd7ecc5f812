/** Single-use confirmation tokens shared by the chat channels. */
module Confirmation {
  import opened Bytes

  const CONFIRM_TTL := 60.0

  datatype Key = Key(channel: string, action: string)

  datatype Held = Held(nonce: string, at: real, scope: nat)

  datatype State = State(tokens: map<Key, Held>, scope: nat)

  datatype Verdict = Ok | Stale | Expired

  const START := State(map[], 0)

  datatype Op =
    | NewScope
    | Issue(key: Key, nonce: string, at: real)
    | Consume(key: Key, nonce: string, at: real)
    | Pending(channel: string, at: real)
    | Drop(key: Key, which: Option<string>)

  predicate TooOld(h: Held, now: real) { now - h.at > CONFIRM_TTL }

  function Judge(s: State, key: Key, nonce: string, now: real): Verdict {
    if key !in s.tokens || nonce == "" || s.tokens[key].nonce != nonce || s.tokens[key].scope != s.scope then Stale
    else if TooOld(s.tokens[key], now) then Expired
    else Verdict.Ok
  }

  function Without(s: State, key: Key): State { s.(tokens := s.tokens - {key}) }

  function Step(s: State, op: Op): State {
    match op
    case NewScope => State(map[], s.scope + 1)
    case Issue(key, nonce, at) => s.(tokens := s.tokens[key := Held(nonce, at, s.scope)])
    case Consume(key, nonce, at) => if Judge(s, key, nonce, at).Stale? then s else Without(s, key)
    case Pending(_, now) => s.(tokens := map k | k in s.tokens && !TooOld(s.tokens[k], now) :: s.tokens[k])
    case Drop(key, which) =>
      if key in s.tokens && (which.None? || which.value == s.tokens[key].nonce) then Without(s, key) else s
  }

  function After(ops: seq<Op>, n: nat): State
    requires n <= |ops|
  {
    if n == 0 then START else Step(After(ops, n - 1), ops[n - 1])
  }

  /** What the consume at step j is told. */
  function VerdictAt(ops: seq<Op>, j: nat): Verdict
    requires j < |ops| && ops[j].Consume?
  {
    Judge(After(ops, j), ops[j].key, ops[j].nonce, ops[j].at)
  }

  // ---- in terms of the history -------------------------------------------

  /** Step k takes the token `nonce` of this key away for good: a new scope, a
      replacing offer, its use, or its withdrawal. */
  predicate Ends(ops: seq<Op>, k: nat, key: Key, nonce: string)
    requires k < |ops|
  {
    match ops[k]
    case NewScope => true
    case Issue(key', _, _) => key' == key
    case Consume(key', _, _) => key' == key && VerdictAt(ops, k).Ok?
    case Pending(_, _) => false
    case Drop(key', which) => key' == key && (which.None? || which.value == nonce)
  }

  /** The offer made at step i still stands before step n. */
  predicate Standing(ops: seq<Op>, i: nat, n: nat)
    requires i < n <= |ops| && ops[i].Issue?
  {
    forall k :: i < k < n ==> !Ends(ops, k, ops[i].key, ops[i].nonce)
  }

  /** Some clock read between i and n already found the offer too old. */
  predicate SeenTooOld(ops: seq<Op>, i: nat, n: nat)
    requires i < n <= |ops| && ops[i].Issue?
  {
    exists k :: i < k < n && (ops[k].Pending? || ops[k].Consume?) && ops[k].at - ops[i].at > CONFIRM_TTL
  }

  /** Clock reads in the order of the critical sections, as far as they matter:
      no consume sees an earlier time than a pending or consume before it. */
  predicate Clocked(ops: seq<Op>) {
    forall k, j :: 0 <= k < j < |ops| && (ops[k].Pending? || ops[k].Consume?) && ops[j].Consume? ==>
      ops[k].at <= ops[j].at
  }

  /** Every held token was offered, still stands, and carries the current scope. */
  lemma {:induction false} HeldIsStanding(ops: seq<Op>, n: nat, key: Key) returns (i: nat)
    requires n <= |ops| && key in After(ops, n).tokens
    ensures i < n && ops[i].Issue? && ops[i].key == key && Standing(ops, i, n)
    ensures After(ops, n).tokens[key] == Held(ops[i].nonce, ops[i].at, After(ops, n).scope)
  {
    var s, op := After(ops, n - 1), ops[n - 1];
    if op.Issue? && op.key == key {
      i := n - 1;
    } else {
      i := HeldIsStanding(ops, n - 1, key);
    }
  }

  /** Every standing offer is held, unless it was found too old. */
  lemma {:induction false} StandingIsHeld(ops: seq<Op>, i: nat, n: nat)
    requires i < n <= |ops| && ops[i].Issue? && Standing(ops, i, n)
    ensures SeenTooOld(ops, i, n)
            || (ops[i].key in After(ops, n).tokens
                && After(ops, n).tokens[ops[i].key] == Held(ops[i].nonce, ops[i].at, After(ops, n).scope))
    decreases n
  {
    if n > i + 1 {
      assert Standing(ops, i, n - 1);
      StandingIsHeld(ops, i, n - 1);
      var s, op := After(ops, n - 1), ops[n - 1];
      assert !Ends(ops, n - 1, ops[i].key, ops[i].nonce);
      if SeenTooOld(ops, i, n - 1) {
        var k :| i < k < n - 1 && (ops[k].Pending? || ops[k].Consume?) && ops[k].at - ops[i].at > CONFIRM_TTL;
        assert i < k < n;
      } else if op.Consume? && op.key == ops[i].key && VerdictAt(ops, n - 1).Expired? {
        assert i < n - 1 < n;
      } else if op.Pending? && ops[i].key !in After(ops, n).tokens {
        assert i < n - 1 < n;
      }
    }
  }

  predicate LiveOffer(ops: seq<Op>, i: nat, j: nat)
    requires i < j < |ops| && ops[j].Consume?
  {
    ops[i].Issue? && ops[i].key == ops[j].key && ops[i].nonce == ops[j].nonce
    && ops[j].at - ops[i].at <= CONFIRM_TTL && Standing(ops, i, j)
  }

  /** Main result: a confirmation is honoured exactly when an offer of that
      nonce for that channel and action is at most CONFIRM_TTL old and no new
      scope, newer offer, earlier use or matching withdrawal came since. What
      other channels do appears nowhere. */
  lemma ConsumeIff(ops: seq<Op>, j: nat)
    requires j < |ops| && ops[j].Consume? && Clocked(ops)
    ensures VerdictAt(ops, j).Ok? <==> ops[j].nonce != "" && exists i :: 0 <= i < j && LiveOffer(ops, i, j)
  {
    if VerdictAt(ops, j).Ok? {
      var i := HeldIsStanding(ops, j, ops[j].key);
      assert LiveOffer(ops, i, j);
    }
    if ops[j].nonce != "" && exists i :: 0 <= i < j && LiveOffer(ops, i, j) {
      var i :| 0 <= i < j && LiveOffer(ops, i, j);
      StandingIsHeld(ops, i, j);
      YoungIsNotSeenOld(ops, i, j);
    }
  }

  lemma YoungIsNotSeenOld(ops: seq<Op>, i: nat, j: nat)
    requires Clocked(ops) && i < j < |ops| && ops[j].Consume? && LiveOffer(ops, i, j)
    ensures !SeenTooOld(ops, i, j)
  {
    forall k | i < k < j && (ops[k].Pending? || ops[k].Consume?) ensures ops[k].at - ops[i].at <= CONFIRM_TTL {
      assert ops[k].at <= ops[j].at;
    }
  }

  /** What the pending check at step j answers. */
  predicate PendingAt(ops: seq<Op>, j: nat)
    requires j < |ops| && ops[j].Pending?
  {
    exists key :: key in After(ops, j + 1).tokens && key.channel == ops[j].channel
  }

  predicate YoungOffer(ops: seq<Op>, i: nat, j: nat)
    requires i < j < |ops| && ops[j].Pending?
  {
    ops[i].Issue? && ops[i].key.channel == ops[j].channel
    && ops[j].at - ops[i].at <= CONFIRM_TTL && Standing(ops, i, j)
  }

  /** A channel has something pending exactly while an offer made on it stands
      and is at most CONFIRM_TTL old. */
  lemma PendingIff(ops: seq<Op>, j: nat)
    requires j < |ops| && ops[j].Pending?
    requires forall k :: 0 <= k < j && (ops[k].Pending? || ops[k].Consume?) ==> ops[k].at <= ops[j].at
    ensures PendingAt(ops, j) <==> exists i :: 0 <= i < j && YoungOffer(ops, i, j)
  {
    var s, t := After(ops, j), After(ops, j + 1);
    assert t == Step(s, ops[j]);
    if key :| key in t.tokens && key.channel == ops[j].channel {
      var i := HeldIsStanding(ops, j, key);
      assert YoungOffer(ops, i, j);
    }
    if i :| 0 <= i < j && YoungOffer(ops, i, j) {
      StandingIsHeld(ops, i, j);
      assert !SeenTooOld(ops, i, j);
      assert ops[i].key in t.tokens;
    }
  }

  predicate OldOffer(ops: seq<Op>, i: nat, j: nat)
    requires i < j < |ops| && ops[j].Consume?
  {
    ops[i].Issue? && ops[i].key == ops[j].key && ops[i].nonce == ops[j].nonce
    && ops[j].at - ops[i].at > CONFIRM_TTL && Standing(ops, i, j)
  }

  /** A late confirmation is told so if its offer still stands and no clock read
      before found it old; otherwise it is stale. */
  lemma ExpiredMeans(ops: seq<Op>, j: nat)
    requires j < |ops| && ops[j].Consume?
    ensures VerdictAt(ops, j).Expired? ==> exists i :: 0 <= i < j && OldOffer(ops, i, j)
    ensures ops[j].nonce != "" && (exists i :: 0 <= i < j && OldOffer(ops, i, j) && !SeenTooOld(ops, i, j)) ==>
              VerdictAt(ops, j).Expired?
  {
    if VerdictAt(ops, j).Expired? {
      var i := HeldIsStanding(ops, j, ops[j].key);
      assert OldOffer(ops, i, j);
    }
    if ops[j].nonce != "" && exists i :: 0 <= i < j && OldOffer(ops, i, j) && !SeenTooOld(ops, i, j) {
      var i :| 0 <= i < j && OldOffer(ops, i, j) && !SeenTooOld(ops, i, j);
      StandingIsHeld(ops, i, j);
    }
  }

  predicate UniqueNonces(ops: seq<Op>) {
    forall a, b :: 0 <= a < b < |ops| && ops[a].Issue? && ops[b].Issue? ==> ops[a].nonce != ops[b].nonce
  }

  /** Each nonce confirms at most once. */
  lemma NonceWorksOnce(ops: seq<Op>, a: nat, b: nat)
    requires Clocked(ops) && UniqueNonces(ops) && a < b < |ops| && ops[a].Consume? && ops[b].Consume?
    requires VerdictAt(ops, a).Ok? && ops[a].nonce == ops[b].nonce
    ensures !VerdictAt(ops, b).Ok?
  {
    ConsumeIff(ops, a);
    var i :| 0 <= i < a && LiveOffer(ops, i, a);
    if VerdictAt(ops, b).Ok? {
      ConsumeIff(ops, b);
      var i' :| 0 <= i' < b && LiveOffer(ops, i', b);
      assert i' == i;
      assert Ends(ops, a, ops[i].key, ops[i].nonce);
    }
  }

  // ---- the handlers ------------------------------------------------------

  datatype Command = PausePrint | ResumePrint | CancelPrint

  /** `_action_state_problem`: whether the action still makes sense. */
  predicate StateAllows(action: string, state: string) {
    match action
    case "pause" => state == "PRINTING" || state == "RESUMING"
    case "resume" => state == "PAUSED" || state == "PAUSING"
    case "stop" => state == "PRINTING" || state == "PAUSED" || state == "PAUSING" || state == "RESUMING"
    case _ => true
  }

  /** What a Yes on either channel makes the printer do. */
  function OnYes(v: Verdict, action: string, state: string): Option<Command> {
    if !v.Ok? || !StateAllows(action, state) then None
    else if action == "pause" then Some(PausePrint)
    else if action == "resume" then Some(ResumePrint)
    else if action == "stop" then Some(CancelPrint)
    else None
  }

  /** The printer is commanded only for a live offer of that very action, in a
      state where the command means something, and once per nonce. */
  lemma CommandNeedsLiveOffer(ops: seq<Op>, j: nat, state: string)
    requires j < |ops| && ops[j].Consume? && Clocked(ops)
    requires OnYes(VerdictAt(ops, j), ops[j].key.action, state).Some?
    ensures exists i :: 0 <= i < j && LiveOffer(ops, i, j)
    ensures match OnYes(VerdictAt(ops, j), ops[j].key.action, state).value
            case PausePrint => ops[j].key.action == "pause" && state in ["PRINTING", "RESUMING"]
            case ResumePrint => ops[j].key.action == "resume" && state in ["PAUSED", "PAUSING"]
            case CancelPrint => ops[j].key.action == "stop" && state in ["PRINTING", "PAUSED", "PAUSING", "RESUMING"]
    ensures UniqueNonces(ops) ==>
              forall b :: j < b < |ops| && ops[b].Consume? && ops[b].nonce == ops[j].nonce ==> !VerdictAt(ops, b).Ok?
  {
    ConsumeIff(ops, j);
    if UniqueNonces(ops) {
      forall b | j < b < |ops| && ops[b].Consume? && ops[b].nonce == ops[j].nonce ensures !VerdictAt(ops, b).Ok? {
        NonceWorksOnce(ops, j, b);
      }
    }
  }

  /** The commands each action stands for, and the states it makes sense in. */
  predicate Suits(cmd: Command, action: string, state: string) {
    match cmd
    case PausePrint => action == "pause" && state in ["PRINTING", "RESUMING"]
    case ResumePrint => action == "resume" && state in ["PAUSED", "PAUSING"]
    case CancelPrint => action == "stop" && state in ["PRINTING", "PAUSED", "PAUSING", "RESUMING"]
  }

  /** Exactly when a Yes commands the printer: there is a live offer, and the
      command is the action's, in a state where it makes sense. */
  lemma CommandIff(ops: seq<Op>, j: nat, state: string, cmd: Command)
    requires j < |ops| && ops[j].Consume? && Clocked(ops)
    ensures OnYes(VerdictAt(ops, j), ops[j].key.action, state) == Some(cmd)
       <==> ops[j].nonce != "" && (exists i :: 0 <= i < j && LiveOffer(ops, i, j))
            && Suits(cmd, ops[j].key.action, state)
  {
    ConsumeIff(ops, j);
    hide LiveOffer, VerdictAt;
  }

  // ---- the object --------------------------------------------------------

  class ConfirmStore {
    var confirmTokens: map<Key, Held>
    var confirmScope: nat

    function View(): State
      reads this
    {
      State(confirmTokens, confirmScope)
    }

    constructor ()
      ensures View() == START
    {
      confirmTokens, confirmScope := map[], 0;
    }

    method NewConfirmScope()
      modifies this
      ensures View() == Step(old(View()), NewScope)
    {
      confirmScope := confirmScope + 1;
      confirmTokens := map[];
    }

    method IssueConfirm(key: Key, nonce: string, now: real)
      modifies this
      ensures View() == Step(old(View()), Issue(key, nonce, now))
    {
      confirmTokens := confirmTokens[key := Held(nonce, now, confirmScope)];
    }

    /** Check and removal in one critical section. */
    method ConsumeConfirm(key: Key, nonce: string, now: real) returns (v: Verdict)
      modifies this
      ensures View() == Step(old(View()), Consume(key, nonce, now))
      ensures v == Judge(old(View()), key, nonce, now)
    {
      if key !in confirmTokens || nonce == "" {
        return Stale;
      }
      var held := confirmTokens[key];
      if held.nonce != nonce || held.scope != confirmScope {
        return Stale;
      }
      if now - held.at > CONFIRM_TTL {
        confirmTokens := confirmTokens - {key};
        return Expired;
      }
      confirmTokens := confirmTokens - {key};
      return Verdict.Ok;
    }

    /** Drops every expired token, then looks for this channel. */
    method ConfirmPending(channel: string, now: real) returns (pending: bool)
      modifies this
      ensures View() == Step(old(View()), Pending(channel, now))
      ensures pending <==> exists k :: k in confirmTokens && k.channel == channel
    {
      var todo := confirmTokens.Keys;
      while todo != {}
        invariant todo <= old(confirmTokens).Keys && confirmScope == old(confirmScope)
        invariant confirmTokens
               == map k | k in old(confirmTokens) && (k in todo || !TooOld(old(confirmTokens)[k], now))
                      :: old(confirmTokens)[k]
        decreases |todo|
      {
        var key :| key in todo;
        if now - confirmTokens[key].at > CONFIRM_TTL {
          confirmTokens := confirmTokens - {key};
        }
        todo := todo - {key};
      }
      pending := exists k :: k in confirmTokens && k.channel == channel;
    }

    method DropConfirm(key: Key, which: Option<string>) returns (dropped: bool)
      modifies this
      ensures View() == Step(old(View()), Drop(key, which))
      ensures dropped <==> confirmTokens != old(confirmTokens)
    {
      if key in confirmTokens && (which.None? || confirmTokens[key].nonce == which.value) {
        confirmTokens := confirmTokens - {key};
        return true;
      }
      return false;
    }
  }
}
