/** The settings reader: configparser's pass over the lines of a file, with
    sections, options, values that go on over deeper-indented lines, and the
    refusals of a strict parser. Python 3.11's, with its default delimiters and
    comments; interpolation is not part of this model. */
module IniReading {
  import opened Bytes
  import opened HeaderBlock

  datatype Setting = Setting(key: string, value: string)

  // ---- one line ----------------------------------------------------------

  /** Where a key ends: the first `=` or `:`. */
  function Delimiter(s: string): Option<nat> {
    match (Find(s, "=", 0), Find(s, ":", 0))
    case (None, c) => c
    case (e, None) => e
    case (Some(e), Some(c)) => Some(if e < c then e else c)
  }

  /** Lower-cased key and stripped value of a stripped line. */
  function OptionOf(s: string): Option<Setting> {
    match Delimiter(s)
    case None => None
    case Some(i) => Some(Setting(Lower(StripRight(s[..i])), Strip(s[i + 1..])))
  }

  function LastBracket(s: string): (j: Option<nat>)
    ensures j.Some? ==> j.value < |s|
  {
    if s == "" then None
    else if s[|s| - 1] == ']' then Some(|s| - 1)
    else LastBracket(s[..|s| - 1])
  }

  /** The section a stripped line opens: anything between a bracket at its start
      and the last closing one. What follows that is ignored. */
  function HeaderName(s: string): Option<string> {
    if s == "" || s[0] != '[' then None
    else
      match LastBracket(s)
      case None => None
      case Some(j) => if j >= 2 then Some(s[1..j]) else None
  }

  datatype Kind = Blank | Comment | Header(name: string) | Option(setting: Setting) | Junk

  function KindOf(line: string): Kind {
    var s := Strip(line);
    if s == "" then Blank
    else if s[0] == '#' || s[0] == ';' then Comment
    else
      match HeaderName(s)
      case Some(name) => Header(name)
      case None =>
        match OptionOf(s)
        case None => Junk
        case Some(p) => if p.key == "" then Junk else Option(p)
  }

  /** Lines that take no part: blank ones and comments. */
  predicate Skipped(line: string) { KindOf(line).Blank? || KindOf(line).Comment? }

  function Indent(line: string): nat
  {
    StripLeftShortens(line);
    |line| - |StripLeft(line)|
  }

  lemma StripLeftShortens(s: string)
    ensures |StripLeft(s)| <= |s|
  {
  }

  // ---- the pass ----------------------------------------------------------

  datatype Name = Name(section: string, key: string)

  /** `open` is the option whose value a deeper line would continue. */
  datatype Reader =
    | Failed
    | Reading(names: set<string>, opts: map<Name, seq<string>>, cur: Option<string>, open: Option<Name>, indent: nat)

  const FIRST := Reading({}, map[], None, None, 0)
  const DEFAULT := "DEFAULT"   // may be opened more than once

  function Append(r: Reader, text: string): Reader
    requires r.Reading?
  {
    if r.open.Some? && r.open.value in r.opts
    then r.(opts := r.opts[r.open.value := r.opts[r.open.value] + [text]])
    else r
  }

  function Enter(r: Reader, name: string, indent: nat): Reader
    requires r.Reading?
  {
    if name in r.names then Failed
    else r.(names := if name == DEFAULT then r.names else r.names + {name},
            cur := Some(name), open := None, indent := indent)
  }

  function Define(r: Reader, p: Setting, indent: nat): Reader
    requires r.Reading?
  {
    if r.cur.None? then Failed
    else
      var name := Name(r.cur.value, p.key);
      if name in r.opts then Failed
      else r.(opts := r.opts[name := [p.value]], open := Some(name), indent := indent)
  }

  /** The line goes on with the value above it. */
  predicate Continues(r: Reader, line: string)
    requires r.Reading?
  {
    r.open.Some? && !Skipped(line) && Indent(line) > r.indent
  }

  function Read(r: Reader, line: string): Reader {
    if r.Failed? then Failed
    else
      var kind := KindOf(line);
      if kind.Blank? then Append(r, "")
      else if kind.Comment? then r
      else if Continues(r, line) then Append(r, Strip(line))
      else
        match kind
        case Header(name) => Enter(r, name, Indent(line))
        case Option(p) => Define(r, p, Indent(line))
        case _ => Failed
  }

  function ReadOn(r: Reader, lines: seq<string>): Reader
    decreases |lines|
  {
    if lines == [] then r else ReadOn(Read(r, lines[0]), lines[1..])
  }

  function Load(lines: seq<string>): Reader { ReadOn(FIRST, lines) }

  /** The value of an option: its lines joined, the end stripped. */
  function JoinLines(vals: seq<string>): string {
    if vals == [] then ""
    else if |vals| == 1 then vals[0]
    else JoinLines(vals[..|vals| - 1]) + "\n" + vals[|vals| - 1]
  }

  function Text(vals: seq<string>): string { StripRight(JoinLines(vals)) }

  function Get(r: Reader, name: Name): Option<string> {
    if r.Reading? && name in r.opts then Some(Text(r.opts[name])) else None
  }

  // ---- what every pass keeps ---------------------------------------------

  predicate Sound(r: Reader) {
    r.Reading? ==>
      && (r.open.Some? ==> r.open.value in r.opts && r.cur == Some(r.open.value.section))
      && (forall name :: name in r.opts ==> r.opts[name] != [] && Tidy(r.opts[name]))
  }

  predicate Tidy(vals: seq<string>) { forall i :: 0 <= i < |vals| ==> vals[i] == StripRight(vals[i]) }

  lemma {:induction false} StripRightTwice(s: string)
    ensures StripRight(StripRight(s)) == StripRight(s)
  {
    if s != [] && IsSpace(s[|s| - 1]) {
      StripRightTwice(s[..|s| - 1]);
    }
  }

  lemma ValueIsTidy(line: string)
    ensures StripRight(Strip(line)) == Strip(line) && StripRight("") == ""
    ensures KindOf(line).Option? ==> StripRight(KindOf(line).setting.value) == KindOf(line).setting.value
  {
    StripRightTwice(StripLeft(line));
    var s := Strip(line);
    match Delimiter(s)
    case None =>
    case Some(i) => StripRightTwice(StripLeft(s[i + 1..]));
  }

  lemma ReadKeepsSound(r: Reader, line: string)
    requires Sound(r)
    ensures Sound(Read(r, line))
  {
    ValueIsTidy(line);
    hide KindOf, Indent, Strip, StripRight;
  }

  lemma {:induction false} ReadJoin(r: Reader, a: seq<string>, b: seq<string>)
    ensures ReadOn(r, a + b) == ReadOn(ReadOn(r, a), b)
    decreases |a|
  {
    hide Read;
    if a == [] {
      assert a + b == b;
    } else {
      assert (a + b)[1..] == a[1..] + b && (a + b)[0] == a[0];
      ReadJoin(Read(r, a[0]), a[1..], b);
    }
  }

  lemma {:induction false} FailedStays(lines: seq<string>)
    ensures ReadOn(Failed, lines) == Failed
  {
    hide KindOf, Indent, Strip, HeaderName, OptionOf;
    if lines != [] {
      FailedStays(lines[1..]);
    }
  }

  /** What one line does to the options: nothing is redefined, only the open
      value grows. */
  predicate Grows(r: Reader, t: Reader)
    requires r.Reading? && t.Reading?
  {
    forall name :: name in r.opts ==>
      name in t.opts && r.opts[name] <= t.opts[name]
      && (r.open != Some(name) ==> t.open != Some(name) && t.opts[name] == r.opts[name])
  }

  lemma ReadGrows(r: Reader, line: string)
    requires r.Reading? && Sound(r) && Read(r, line).Reading?
    ensures Grows(r, Read(r, line))
  {
    hide KindOf, Indent, Strip;
  }

  /** A value, once defined, only grows while its option is open. */
  lemma {:induction false} ValueStays(r: Reader, lines: seq<string>, name: Name)
    requires r.Reading? && Sound(r) && ReadOn(r, lines).Reading? && name in r.opts
    ensures name in ReadOn(r, lines).opts && r.opts[name] <= ReadOn(r, lines).opts[name]
    ensures r.open != Some(name) ==> ReadOn(r, lines).opts[name] == r.opts[name]
    decreases |lines|
  {
    hide Read;
    if lines != [] {
      var t := Read(r, lines[0]);
      if t.Failed? {
        FailedStays(lines[1..]);
      } else {
        ReadGrows(r, lines[0]);
        ReadKeepsSound(r, lines[0]);
        ValueStays(t, lines[1..], name);
      }
    }
  }

  // ---- values ------------------------------------------------------------

  lemma JoinNext(vals: seq<string>, s: string)
    requires vals != []
    ensures JoinLines(vals + [s]) == JoinLines(vals) + "\n" + s
  {
    assert (vals + [s])[..|vals|] == vals;
  }

  lemma StripTail(s: string, t: string)
    requires forall i :: 0 <= i < |t| ==> IsSpace(t[i])
    ensures StripRight(s + t) == StripRight(s)
    decreases |t|
  {
    if t == "" {
      assert s + t == s;
    } else {
      assert (s + t)[..|s + t| - 1] == s + t[..|t| - 1];
      StripTail(s, t[..|t| - 1]);
    }
  }

  /** A blank line at the end of a value does not show. */
  lemma BlankDoesNotShow(vals: seq<string>)
    requires vals != []
    ensures Text(vals + [""]) == Text(vals)
  {
    JoinNext(vals, "");
    assert JoinLines(vals) + "\n" + "" == JoinLines(vals) + "\n";
    StripTail(JoinLines(vals), "\n");
  }

  /** A continuation line stays in the value, behind a line end. */
  lemma {:induction false} ContinuationShows(vals: seq<string>, s: string, more: seq<string>)
    requires vals != [] && s != "" && !IsSpace(s[|s| - 1])
    ensures JoinLines(vals) + "\n" + s <= Text(vals + [s] + more)
    decreases |more|
  {
    var all := vals + [s] + more;
    var base := JoinLines(vals) + "\n" + s;
    if more == [] {
      assert all == vals + [s];
      JoinNext(vals, s);
    } else {
      var n := |more| - 1;
      assert all == (vals + [s] + more[..n]) + [more[n]];
      ContinuationShows(vals, s, more[..n]);
      JoinNext(vals + [s] + more[..n], more[n]);
      StripKeepsPrefix(JoinLines(vals + [s] + more[..n]), "\n" + more[n], base);
      assert JoinLines(vals + [s] + more[..n]) + ("\n" + more[n])
          == JoinLines(vals + [s] + more[..n]) + "\n" + more[n];
    }
  }

  lemma StripKeepsPrefix(s: string, t: string, p: string)
    requires p != "" && p <= StripRight(s) && !IsSpace(p[|p| - 1])
    ensures p <= StripRight(s + t)
    decreases |t|
  {
    if t == "" {
      assert s + t == s;
    } else if IsSpace(t[|t| - 1]) {
      assert (s + t)[..|s + t| - 1] == s + t[..|t| - 1];
      StripKeepsPrefix(s, t[..|t| - 1], p);
    } else {
      StripRightIsPrefix(s);
      assert StripRight(s + t) == s + t;
    }
  }

  lemma StripRightIsPrefix(s: string)
    ensures StripRight(s) <= s
  {
    if s != [] && IsSpace(s[|s| - 1]) {
      StripRightIsPrefix(s[..|s| - 1]);
    }
  }

  /** A one-line text can only come from a one-line value. */
  lemma {:induction false} OneLineText(vals: seq<string>, v: string)
    requires vals != [] && Text(vals) == v && forall i :: 0 <= i < |v| ==> v[i] != '\n'
    requires Tidy(vals)
    ensures vals[0] == v
    decreases |vals|
  {
    var n := |vals| - 1;
    if n == 0 {
      assert vals == [vals[0]];
    } else if vals[n] == "" {
      assert vals == vals[..n] + [""];
      BlankDoesNotShow(vals[..n]);
      OneLineText(vals[..n], v);
    } else {
      LongTextBreaks(vals);
    }
  }

  lemma LongTextBreaks(vals: seq<string>)
    requires |vals| >= 2 && Tidy(vals) && vals[|vals| - 1] != ""
    ensures exists i :: 0 <= i < |Text(vals)| && Text(vals)[i] == '\n'
  {
    var n := |vals| - 1;
    assert vals == vals[..n] + [vals[n]] + [];
    LastIsSolid(vals[n]);
    ContinuationShows(vals[..n], vals[n], []);
    var base := JoinLines(vals[..n]) + "\n" + vals[n];
    assert base[|JoinLines(vals[..n])|] == '\n';
    assert Text(vals)[|JoinLines(vals[..n])|] == '\n';
  }

  lemma LastIsSolid(s: string)
    requires s != "" && s == StripRight(s)
    ensures !IsSpace(s[|s| - 1])
  {
    if IsSpace(s[|s| - 1]) {
      StripRightIsPrefix(s[..|s| - 1]);
    }
  }
}
