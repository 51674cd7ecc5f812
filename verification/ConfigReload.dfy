/** The reload protocol of the settings file: stamps, content and generations
    under every interleaving of editors, reloaders, writers and the detector. */
module ConfigReload {
  import opened Bytes

  type Content = string

  /** What `_cp` holds: a whole file, a writer's parser that has not read the
      file yet, or the remains of a load that failed. */
  datatype Loaded = Whole(content: Content) | Empty | Remains

  datatype Reload = Idle | Statted(stamp: nat) | Parsed(stamp: nat, content: Content)

  datatype Writing = Resting | Replaced | Emptied | Reloaded

  /** The detector reads the generation, then the settings, not all at once:
      two reads stand for the many. */
  datatype Reading = AtRest | SawGeneration | HalfRead(first: Loaded)

  datatype State = State(
    file: Content, stamp: nat,                       // on disk
    loaded: Loaded, stored: nat, generation: nat,    // the Config object
    reloads: map<nat, Reload>, writing: Writing,     // threads inside it
    seen: int, cached: (Loaded, Loaded), reading: Reading)  // the detector

  /** Whether a text parses; everything below holds for any notion of it. */
  type Syntax = Content -> bool

  datatype Op =
    | Edit(content: Content)          // someone else saves the file
    | ReloadStat(thread: nat)
    | ReloadRead(thread: nat)
    | ReloadCommit(thread: nat)       // takes the lock
    | WriteReplace(content: Content)  // takes the lock until it is done
    | WriteEmpty                      // the new parser is in place, still empty
    | WriteFill
    | WriteStamp
    | DetectorGeneration
    | DetectorRead

  function PhaseOf(s: State, t: nat): Reload { if t in s.reloads then s.reloads[t] else Idle }

  function Enter(s: State, t: nat, r: Reload): State { s.(reloads := s.reloads[t := r]) }

  predicate Enabled(s: State, op: Op) {
    match op
    case Edit(_) => true
    case ReloadStat(t) => PhaseOf(s, t).Idle?
    case ReloadRead(t) => PhaseOf(s, t).Statted?
    case ReloadCommit(t) => PhaseOf(s, t).Parsed? && s.writing.Resting?
    case WriteReplace(_) => s.writing.Resting?
    case WriteEmpty => s.writing.Replaced?
    case WriteFill => s.writing.Emptied?
    case WriteStamp => s.writing.Reloaded?
    case DetectorGeneration => s.reading.AtRest?
    case DetectorRead => !s.reading.AtRest?
  }

  function Step(valid: Syntax, s: State, op: Op): State {
    match op
    case Edit(c) => s.(file := c, stamp := s.stamp + 1)
    case ReloadStat(t) => if s.stamp == s.stored then s else Enter(s, t, Statted(s.stamp))
    case ReloadRead(t) =>
      if PhaseOf(s, t).Statted? && valid(s.file) then Enter(s, t, Parsed(PhaseOf(s, t).stamp, s.file))
      else Enter(s, t, Idle)
    case ReloadCommit(t) =>
      if !PhaseOf(s, t).Parsed? then s
      else
        var r := PhaseOf(s, t);
        Enter(s, t, Idle).(loaded := Whole(r.content), stored := r.stamp, generation := s.generation + 1)
    case WriteReplace(c) => s.(file := c, stamp := s.stamp + 1, writing := Replaced)
    case WriteEmpty => s.(loaded := Empty, writing := Emptied)
    case WriteFill =>
      if valid(s.file) then s.(loaded := Whole(s.file), writing := Reloaded)
      else s.(loaded := Remains, writing := Resting)
    case WriteStamp => s.(stored := s.stamp, generation := s.generation + 1, writing := Resting)
    case DetectorGeneration =>
      if s.seen == s.generation then s else s.(seen := s.generation, reading := SawGeneration)
    case DetectorRead =>
      match s.reading
      case AtRest => s
      case SawGeneration => s.(reading := HalfRead(s.loaded))
      case HalfRead(first) => s.(cached := (first, s.loaded), reading := AtRest)
  }

  // ---- what every run keeps ----------------------------------------------

  /** Stamp before read: equal stamps mean equal content. */
  predicate StampTellsContent(s: State) {
    s.stored == s.stamp ==> s.loaded == Whole(s.file)
  }

  /** A writer has changed `_cp` and not yet the generation. */
  predicate MidLoad(s: State) { s.writing.Emptied? || s.writing.Reloaded? }

  /** Equal generations mean current settings, once detector and writer rest. */
  predicate GenerationTellsSettings(s: State) {
    s.seen == s.generation && s.reading.AtRest? && !MidLoad(s) ==> s.cached == (s.loaded, s.loaded)
  }

  predicate ReloadHonest(s: State, r: Reload) {
    match r
    case Idle => true
    case Statted(st) => st <= s.stamp
    case Parsed(st, c) => st <= s.stamp && (st == s.stamp ==> c == s.file)
  }

  predicate Inv(s: State) {
    && s.stored <= s.stamp && s.seen <= s.generation
    && (forall t :: t in s.reloads ==> ReloadHonest(s, s.reloads[t]))
    && (s.writing.Resting? ==> StampTellsContent(s))
    && (!s.writing.Resting? ==> s.stored < s.stamp)
    && (s.writing.Reloaded? ==> s.loaded == Whole(s.file))
    && (s.loaded.Empty? <==> s.writing.Emptied?)
    && GenerationTellsSettings(s)
    && (s.reading.HalfRead? && s.seen == s.generation && !MidLoad(s) ==> s.reading.first == s.loaded)
  }

  /** The two things the protocol cannot absorb: a foreign edit between a
      writer's load and its stamp, and a write onto a file that does not parse. */
  predicate Gentle(valid: Syntax, s: State, op: Op) {
    match op
    case Edit(_) => !s.writing.Reloaded?
    case WriteFill => valid(s.file)
    case _ => true
  }

  lemma StepKeepsInv(valid: Syntax, s: State, op: Op)
    requires Inv(s) && Enabled(s, op) && Gentle(valid, s, op)
    ensures Inv(Step(valid, s, op))
  {
  }

  /** After construction, which also stamps before it reads: an edit may have
      landed in between. */
  predicate Start(s: State) {
    s.stored <= s.stamp && StampTellsContent(s) && s.reloads == map[] && s.writing.Resting? && s.loaded.Whole?
    && s.reading.AtRest? && s.seen == -1 && s.generation == 0
  }

  function After(valid: Syntax, s: State, ops: seq<Op>): State {
    if ops == [] then s else Step(valid, After(valid, s, ops[..|ops| - 1]), ops[|ops| - 1])
  }

  predicate Run(valid: Syntax, s: State, ops: seq<Op>) {
    if ops == [] then true
    else
      var n := |ops| - 1;
      Run(valid, s, ops[..n]) && Enabled(After(valid, s, ops[..n]), ops[n])
      && Gentle(valid, After(valid, s, ops[..n]), ops[n])
  }

  /** Over every interleaving: equal stamps mean equal content, equal
      generations at rest mean the detector applies what is loaded, and a parser
      that is still empty is loaded just while a writer has yet to fill it. */
  lemma {:induction false} ProtocolSafety(valid: Syntax, s: State, ops: seq<Op>)
    requires Start(s) && Run(valid, s, ops)
    ensures Inv(After(valid, s, ops))
    ensures After(valid, s, ops).writing.Resting? ==> StampTellsContent(After(valid, s, ops))
    ensures GenerationTellsSettings(After(valid, s, ops))
    ensures After(valid, s, ops).loaded.Empty? <==> After(valid, s, ops).writing.Emptied?
    decreases |ops|
  {
    if ops != [] {
      var n := |ops| - 1;
      ProtocolSafety(valid, s, ops[..n]);
      StepKeepsInv(valid, After(valid, s, ops[..n]), ops[n]);
    }
  }

  /** No edit is lost: from any state a run can reach, once editing stops on a
      file that parses, one poll by the detector applies it. */
  lemma PollCatchesUp(valid: Syntax, s: State, t: nat) returns (final: State)
    requires Inv(s) && s.writing.Resting? && s.reading.AtRest? && PhaseOf(s, t).Idle? && valid(s.file)
    ensures final == Poll(valid, s, t)
    ensures final.file == s.file && final.loaded == Whole(s.file) && final.cached == (final.loaded, final.loaded)
  {
    final := Poll(valid, s, t);
    if s.stamp == s.stored {
      assert Step(valid, s, ReloadStat(t)) == s;
    }
  }

  /** `reload_if_changed`, then the generation check, then the settings. */
  function Poll(valid: Syntax, s: State, t: nat): State {
    var a := Step(valid, s, ReloadStat(t));
    var b := if PhaseOf(a, t).Statted? then Step(valid, a, ReloadRead(t)) else a;
    var c := if PhaseOf(b, t).Parsed? then Step(valid, b, ReloadCommit(t)) else b;
    var d := Step(valid, c, DetectorGeneration);
    if d.reading.AtRest? then d else Step(valid, Step(valid, d, DetectorRead), DetectorRead)
  }

  // ---- inside a write ----------------------------------------------------

  /** A write up to its loading the text back. */
  function WriteAndLoad(valid: Syntax, s: State, mine: Content): State {
    Step(valid, Step(valid, Step(valid, s, WriteReplace(mine)), WriteEmpty), WriteFill)
  }

  /** In the middle of a write readers outside the lock see no settings at all,
      neither the old nor the new, even when the two are the same text. A
      detector that applies them then is told to look again. */
  lemma WriteShowsEmpty(valid: Syntax, s: State, mine: Content)
    requires Inv(s) && s.writing.Resting? && s.reading.SawGeneration? && valid(mine)
    ensures var a := Step(valid, Step(valid, s, WriteReplace(mine)), WriteEmpty);
            var b := Step(valid, Step(valid, a, DetectorRead), DetectorRead);
            var c := Step(valid, Step(valid, b, WriteFill), WriteStamp);
            b.cached == (Empty, Empty) && b.reading.AtRest?
            && c.cached == (Empty, Empty) && c.loaded == Whole(mine) && c.seen < c.generation
  {
  }

  /** Steps others take before the writer's stamp: all but that stamp. */
  predicate Meanwhile(valid: Syntax, s: State, ops: seq<Op>) {
    if ops == [] then true
    else
      var n := |ops| - 1;
      Meanwhile(valid, s, ops[..n]) && Enabled(After(valid, s, ops[..n]), ops[n]) && !ops[n].WriteStamp?
  }

  /** What the last of these edits saved, or else the writer's own text. */
  function LastSaved(ops: seq<Op>, mine: Content): Content {
    if ops == [] then mine
    else if ops[|ops| - 1].Edit? then ops[|ops| - 1].content
    else LastSaved(ops[..|ops| - 1], mine)
  }

  lemma {:induction false} WhileWriting(valid: Syntax, s: State, mine: Content, ops: seq<Op>)
    requires s.writing.Reloaded? && s.file == mine && Meanwhile(valid, s, ops)
    ensures var t := After(valid, s, ops);
            t.writing.Reloaded? && t.loaded == s.loaded && t.file == LastSaved(ops, mine)
    decreases |ops|
  {
    hide Step;
    if ops != [] {
      var n := |ops| - 1;
      WhileWriting(valid, s, mine, ops[..n]);
      StepWhileWriting(valid, After(valid, s, ops[..n]), ops[n]);
    }
  }

  lemma StepWhileWriting(valid: Syntax, s: State, op: Op)
    requires s.writing.Reloaded? && Enabled(s, op) && !op.WriteStamp?
    ensures var t := Step(valid, s, op);
            t.writing.Reloaded? && t.loaded == s.loaded && t.file == if op.Edit? then op.content else s.file
  {
  }

  /** Edits by others between a writer's load and its stamp, among any other
      steps: the stamp tells the truth if and only if the last of them saved
      what the writer had written. */
  lemma EditInsideWriteIff(valid: Syntax, s: State, mine: Content, ops: seq<Op>)
    requires s.writing.Resting? && valid(mine)
    requires Meanwhile(valid, WriteAndLoad(valid, s, mine), ops)
    ensures var loaded := WriteAndLoad(valid, s, mine);
            var t := Step(valid, After(valid, loaded, ops), WriteStamp);
            t.stored == t.stamp && t.file == LastSaved(ops, mine)
            && (StampTellsContent(t) <==> LastSaved(ops, mine) == mine)
  {
    WhileWriting(valid, WriteAndLoad(valid, s, mine), mine, ops);
  }

  /** And such an edit stays lost: no poll ever sees it. */
  lemma LostEditStaysLost(valid: Syntax, s: State, t: nat)
    requires s.stored == s.stamp && PhaseOf(s, t).Idle?
    ensures Step(valid, s, ReloadStat(t)) == s
    ensures Poll(valid, s, t).loaded == s.loaded && Poll(valid, s, t).stored == s.stamp
  {
  }

  /** A settings write onto the file keeps "equal generations mean current
      settings" exactly when the written file parses. */
  lemma WriteOntoBrokenFileIff(valid: Syntax, s: State, mine: Content)
    requires Inv(s) && s.writing.Resting? && s.reading.AtRest? && s.seen == s.generation
    requires s.loaded.Whole?
    ensures var t := WriteAndLoad(valid, s, mine);
            var u := if t.writing.Reloaded? then Step(valid, t, WriteStamp) else t;
            GenerationTellsSettings(u) <==> valid(mine)
  {
  }

  // ---- the object --------------------------------------------------------

  datatype OpenError = NotFound | NotIni

  /** The Config object between two polls, called with what the file system
      answers: the stat, then a read that may already see later bytes. */
  class Config {
    const valid: Syntax
    var loaded: Loaded
    var mtime: Option<nat>
    var generation: nat

    constructor (valid: Syntax, stat: Option<nat>, read: Content)
      requires valid(read)   // Open reports a file that does not parse
      ensures loaded == Whole(read) && mtime == stat && generation == 0 && this.valid == valid
    {
      this.valid := valid;
      mtime := stat;
      loaded := Whole(read);
      generation := 0;
    }

    /** Construction: the stat comes before the read. */
    static method Open(valid: Syntax, isFile: bool, stat: Option<nat>, read: Content)
      returns (r: Result<Config, OpenError>)
      ensures !isFile ==> r == Err(NotFound)
      ensures isFile && !valid(read) ==> r == Err(NotIni)
      ensures isFile && valid(read) ==>
                r.Ok? && fresh(r.value) && r.value.valid == valid && r.value.loaded == Whole(read)
                && r.value.mtime == stat && r.value.generation == 0
    {
      if !isFile {
        return Err(NotFound);
      }
      if !valid(read) {
        return Err(NotIni);
      }
      var c := new Config(valid, stat, read);
      return Ok(c);
    }

    method ReloadIfChanged(stat: Option<nat>, read: Content) returns (changed: bool)
      modifies this
      ensures changed <==> stat.Some? && stat != old(mtime) && valid(read)
      ensures changed ==> loaded == Whole(read) && mtime == stat && generation == old(generation) + 1
      ensures !changed ==> loaded == old(loaded) && mtime == old(mtime) && generation == old(generation)
    {
      if stat.None? || stat == mtime {
        return false;
      }
      if !valid(read) {
        return false;
      }
      loaded := Whole(read);
      mtime := stat;
      generation := generation + 1;
      return true;
    }

    /** The end of `_write_options_locked`, once the edited file is in place:
        load it, then stamp it. A file that does not parse raises before the
        stamp, and leaves the object with the remains of the load. */
    method LoadWritten(read: Content, stat: Option<nat>) returns (ok: bool)
      modifies this
      ensures ok <==> valid(read)
      ensures ok ==> loaded == Whole(read) && mtime == stat && generation == old(generation) + 1
      ensures !ok ==> loaded == Remains && mtime == old(mtime) && generation == old(generation)
    {
      if !valid(read) {
        loaded := Remains;
        return false;
      }
      loaded := Whole(read);
      mtime := stat;
      generation := generation + 1;
      return true;
    }
  }

  /** An undisturbed reload does what the three protocol steps do. */
  lemma ReloadIsThreeSteps(valid: Syntax, s: State, t: nat)
    requires PhaseOf(s, t).Idle? && s.writing.Resting? && s.stamp != s.stored && valid(s.file)
    ensures var u := Step(valid, Step(valid, Step(valid, s, ReloadStat(t)), ReloadRead(t)), ReloadCommit(t));
            u.loaded == Whole(s.file) && u.stored == s.stamp && u.generation == s.generation + 1
            && PhaseOf(u, t).Idle?
  {
  }

  /** An undisturbed write does what its protocol steps do. */
  lemma WriteIsItsSteps(valid: Syntax, s: State, mine: Content)
    requires s.writing.Resting?
    ensures var t := WriteAndLoad(valid, s, mine);
            if valid(mine) then
              t.writing.Reloaded? && Step(valid, t, WriteStamp).loaded == Whole(mine)
              && Step(valid, t, WriteStamp).stored == s.stamp + 1
              && Step(valid, t, WriteStamp).generation == s.generation + 1
            else t.writing.Resting? && t.loaded == Remains && t.stored == s.stored && t.generation == s.generation
  {
  }
}
