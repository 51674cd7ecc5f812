/** A file before and after a settings write, as the reader reads the two: when
    the one means the other with the written keys changed. */
module IniReadBack {
  import opened Bytes
  import opened HeaderBlock
  import opened TextLines
  import opened IniReading
  import opened IniLines
  import opened IniEditing

  /** What a write does at one place: leaves a line, rewrites it for a key, or
      adds a line for one. */
  datatype Item = Same(line: string) | Rewritten(line: string, key: string) | Added(key: string)

  function ValueFor(values: seq<Setting>, key: string): string {
    if Has(values, key) then ValueOf(values, key) else ""
  }

  function NewLine(it: Item, values: seq<Setting>): string {
    if it.Same? then it.line else LineFor(Setting(it.key, ValueFor(values, it.key)))
  }

  function Olds(items: seq<Item>): seq<string> {
    if items == [] then [] else (if items[0].Added? then [] else [items[0].line]) + Olds(items[1..])
  }

  function News(items: seq<Item>, values: seq<Setting>): seq<string> {
    if items == [] then [] else [NewLine(items[0], values)] + News(items[1..], values)
  }

  function OldRead(r: Reader, it: Item): Reader { if it.Added? then r else Read(r, it.line) }

  /** Every key of `todo` is written at exactly one place, and nothing else. */
  predicate Owed(items: seq<Item>, todo: set<string>) {
    if items == [] then todo == {}
    else if items[0].Same? then Owed(items[1..], todo)
    else items[0].key in todo && Owed(items[1..], todo - {items[0].key})
  }

  function NextTodo(it: Item, todo: set<string>): set<string> { if it.Same? then todo else todo - {it.key} }

  /** What is rewritten is what the editor took for the key. */
  predicate Real(it: Item) {
    (!it.Same? ==> PlainKey(it.key)) && (it.Rewritten? ==> EditorKey(it.line) == Some(it.key))
  }

  predicate AllReal(items: seq<Item>) { forall i :: 0 <= i < |items| ==> Real(items[i]) }

  // ---- the checks, all on the old lines ----------------------------------

  predicate IsWritten(name: Name, section: string, keys: seq<string>) { name.section == section && name.key in keys }

  /** Whether the last line before that was not passed over is a written one. */
  function NextAfter(it: Item, after: bool): bool {
    if !it.Same? then true else if Skipped(it.line) then after else false
  }

  /** The line is read as an option of its own, and a written one. */
  predicate TakenForWritten(r: Reader, line: string, section: string, keys: seq<string>)
    requires r.Reading?
  {
    !Continues(r, line) && KindOf(line).Option? && r.cur == Some(section) && KindOf(line).setting.key in keys
  }

  /** One place of the write, with the reader of the old file about to come to
      it:
        a line left alone is not one the reader takes for a written key, and
        starts in the first column if it is the next after a written one;
        a line written is in the reader's section, and if it replaces one that
        went on with a value, that value is of a written key too. */
  predicate PlaceChecked(r: Reader, it: Item, section: string, keys: seq<string>, after: bool)
    requires r.Reading?
  {
    match it
    case Same(line) =>
      Skipped(line) || ((after ==> Indent(line) == 0) && !TakenForWritten(r, line, section, keys))
    case Rewritten(line, _) =>
      r.cur == Some(section) && (Continues(r, line) ==> IsWritten(r.open.value, section, keys))
    case Added(_) => r.cur == Some(section)
  }

  predicate Checked(r: Reader, items: seq<Item>, section: string, keys: seq<string>, after: bool)
    decreases |items|
  {
    items == []
    || (r.Reading? && PlaceChecked(r, items[0], section, keys, after)
        && Checked(OldRead(r, items[0]), items[1..], section, keys, NextAfter(items[0], after)))
  }

  // ---- the two readers side by side --------------------------------------

  /** What a write has to achieve: the written keys have their new values, and
      every other option of every section reads as before. */
  ghost predicate Matches(o: Reader, n: Reader, section: string, values: seq<Setting>, keys: seq<string>) {
    && n.Reading?
    && (forall k :: k in keys ==> Get(n, Name(section, k)) == Some(Strip(ValueFor(values, k))))
    && (forall name: Name :: !IsWritten(name, section, keys) ==> Get(n, name) == Get(o, name))
  }

  ghost predicate OthersAlike(o: Reader, n: Reader, section: string, keys: seq<string>)
    requires o.Reading? && n.Reading?
  {
    forall name: Name :: !IsWritten(name, section, keys) ==>
      (name in o.opts <==> name in n.opts) && Get(o, name) == Get(n, name)
  }

  ghost predicate WrittenSoFar(n: Reader, section: string, values: seq<Setting>, keys: seq<string>, todo: set<string>)
    requires n.Reading?
  {
    forall k :: k in keys ==>
      if k in todo then Name(section, k) !in n.opts
      else Get(n, Name(section, k)) == Some(Strip(ValueFor(values, k)))
  }

  /** In step: right after a written line only the section is the same; from the
      next line left alone on, everything a line could meet is. */
  predicate InStep(o: Reader, n: Reader, section: string, keys: seq<string>, after: bool)
    requires o.Reading? && n.Reading? && Sound(o) && Sound(n)
  {
    && o.names == n.names && o.cur == n.cur
    && (!after ==>
          && o.open == n.open && o.indent == n.indent
          && (o.open.Some? ==>
                !IsWritten(o.open.value, section, keys) && o.opts[o.open.value] == n.opts[o.open.value]))
    && (after ==> n.open.Some? && IsWritten(n.open.value, section, keys) && n.indent == 0)
  }

  ghost predicate Abreast(o: Reader, n: Reader, section: string, values: seq<Setting>, keys: seq<string>,
                          todo: set<string>, after: bool)
  {
    && o.Reading? && n.Reading? && Sound(o) && Sound(n)
    && InStep(o, n, section, keys, after)
    && OthersAlike(o, n, section, keys)
    && WrittenSoFar(n, section, values, keys, todo)
  }

  /** Adding a blank line to the open value shows nowhere. */
  lemma BlankKeepsTexts(r: Reader)
    requires r.Reading? && Sound(r)
    ensures Append(r, "").Reading?
    ensures forall name: Name :: Get(Append(r, ""), name) == Get(r, name)
    ensures Append(r, "").opts.Keys == r.opts.Keys
  {
    hide Text;
    if r.open.Some? {
      BlankDoesNotShow(r.opts[r.open.value]);
    }
  }

  lemma StepBlank(o: Reader, n: Reader, section: string, values: seq<Setting>, keys: seq<string>,
                  todo: set<string>, after: bool)
    requires Abreast(o, n, section, values, keys, todo, after)
    requires Sound(Append(o, "")) && Sound(Append(n, ""))
    ensures Abreast(Append(o, ""), Append(n, ""), section, values, keys, todo, after)
  {
    hide Get, IsWritten;
    BlankKeepsTexts(o);
    BlankKeepsTexts(n);
    var o1, n1 := Append(o, ""), Append(n, "");
    assert forall name: Name :: (name in o1.opts <==> name in o1.opts.Keys) && (name in n1.opts <==> name in n1.opts.Keys);
  }

  lemma StepContinues(o: Reader, n: Reader, section: string, values: seq<Setting>, keys: seq<string>,
                      todo: set<string>, s: string)
    requires Abreast(o, n, section, values, keys, todo, false) && o.open.Some?
    requires Sound(Append(o, s)) && Sound(Append(n, s))
    ensures Abreast(Append(o, s), Append(n, s), section, values, keys, todo, false)
  {
    hide Text;
  }

  lemma StepHeader(o: Reader, n: Reader, section: string, values: seq<Setting>, keys: seq<string>,
                   todo: set<string>, after: bool, name: string, indent: nat)
    requires Abreast(o, n, section, values, keys, todo, after) && Enter(o, name, indent).Reading?
    requires Sound(Enter(o, name, indent)) && Sound(Enter(n, name, indent))
    ensures Abreast(Enter(o, name, indent), Enter(n, name, indent), section, values, keys, todo, false)
  {
    hide Text;
  }

  lemma StepOption(o: Reader, n: Reader, section: string, values: seq<Setting>, keys: seq<string>,
                   todo: set<string>, after: bool, p: Setting, indent: nat)
    requires Abreast(o, n, section, values, keys, todo, after) && Define(o, p, indent).Reading?
    requires !(o.cur == Some(section) && p.key in keys)
    requires Sound(Define(o, p, indent)) && Sound(Define(n, p, indent))
    ensures Abreast(Define(o, p, indent), Define(n, p, indent), section, values, keys, todo, false)
  {
    hide Text;
  }

  /** A written line, whatever the old reader does to written options there. */
  lemma StepWritten(o: Reader, o1: Reader, n: Reader, section: string, values: seq<Setting>, keys: seq<string>,
                    todo: set<string>, after: bool, p: Setting)
    requires Abreast(o, n, section, values, keys, todo, after)
    requires o.cur == Some(section) && p.key in todo && p.key in keys
    requires p.value == Strip(ValueFor(values, p.key)) && Text([p.value]) == p.value
    requires o1.Reading? && Sound(o1) && o1.names == o.names && o1.cur == o.cur
    requires forall name: Name :: !IsWritten(name, section, keys) ==>
               (name in o1.opts <==> name in o.opts) && Get(o1, name) == Get(o, name)
    requires Sound(Define(n, p, 0))
    ensures Abreast(o1, Define(n, p, 0), section, values, keys, todo - {p.key}, true)
  {
    hide Text, Strip, ValueFor;
  }

  /** What the old reader does at a rewritten line changes no other option. */
  lemma OldAtRewritten(o: Reader, line: string, key: string, section: string, keys: seq<string>)
    requires o.Reading? && Sound(o) && o.cur == Some(section) && key in keys
    requires PlainKey(key) && EditorKey(line) == Some(key) && Read(o, line).Reading?
    requires Continues(o, line) ==> IsWritten(o.open.value, section, keys)
    ensures var o1 := Read(o, line);
            o1.names == o.names && o1.cur == o.cur
            && forall name: Name :: !IsWritten(name, section, keys) ==>
                 (name in o1.opts <==> name in o.opts) && Get(o1, name) == Get(o, name)
  {
    EditedIsRead(line, key);
    hide KindOf, Indent, Strip, Text, PlainKey, EditorKey;
  }

  lemma OneLineValue(v: string)
    ensures Text([Strip(v)]) == Strip(v)
  {
    StripRightTwice(StripLeft(v));
  }

  /** At a place that passes the checks the two readers stay abreast. */
  lemma StepKeepsAbreast(o: Reader, n: Reader, it: Item, section: string, values: seq<Setting>, keys: seq<string>,
                         todo: set<string>, after: bool)
    requires Abreast(o, n, section, values, keys, todo, after) && Real(it)
    requires PlaceChecked(o, it, section, keys, after) && OldRead(o, it).Reading?
    requires !it.Same? ==> it.key in todo && it.key in keys
    ensures Abreast(OldRead(o, it), Read(n, NewLine(it, values)), section, values, keys,
                    NextTodo(it, todo), NextAfter(it, after))
  {
    var line := NewLine(it, values);
    ReadKeepsSound(n, line);
    match it
    case Same(l) =>
      ReadKeepsSound(o, l);
      StepSame(o, n, l, section, values, keys, todo, after);
    case Rewritten(l, key) =>
      ReadKeepsSound(o, l);
      OldAtRewritten(o, l, key, section, keys);
      ReadWritten(n, key, ValueFor(values, key));
      OneLineValue(ValueFor(values, key));
      hide Read, Abreast, Define, Text, ValueFor, Strip;
      StepWritten(o, Read(o, l), n, section, values, keys, todo, after, Setting(key, Strip(ValueFor(values, key))));
    case Added(key) =>
      ReadWritten(n, key, ValueFor(values, key));
      OneLineValue(ValueFor(values, key));
      hide Read, Define, Text, ValueFor, Strip;
      StepWritten(o, o, n, section, values, keys, todo, after, Setting(key, Strip(ValueFor(values, key))));
  }

  /** A written line is in the first column, so it continues nothing. */
  lemma ReadWritten(n: Reader, key: string, value: string)
    requires n.Reading? && PlainKey(key)
    ensures Read(n, LineFor(Setting(key, value))) == Define(n, Setting(key, Strip(value)), 0)
  {
    WrittenLine(Setting(key, value));
    hide KindOf, Indent, Strip, LineFor, PlainKey;
  }

  lemma StepSame(o: Reader, n: Reader, l: string, section: string, values: seq<Setting>, keys: seq<string>,
                 todo: set<string>, after: bool)
    requires Abreast(o, n, section, values, keys, todo, after) && Read(o, l).Reading?
    requires PlaceChecked(o, Same(l), section, keys, after)
    requires Sound(Read(o, l)) && Sound(Read(n, l))
    ensures Abreast(Read(o, l), Read(n, l), section, values, keys, todo, NextAfter(Same(l), after))
  {
    hide KindOf, Indent, Strip, Text, Get, OthersAlike, WrittenSoFar, Append, Enter, Define;
    match KindOf(l)
    case Blank => StepBlank(o, n, section, values, keys, todo, after);
    case Comment =>
    case _ =>
      assert Continues(o, l) <==> Continues(n, l);
      if Continues(o, l) {
        StepContinues(o, n, section, values, keys, todo, Strip(l));
      } else {
        match KindOf(l)
        case Header(name) => StepHeader(o, n, section, values, keys, todo, after, name, Indent(l));
        case Option(p) => StepOption(o, n, section, values, keys, todo, after, p, Indent(l));
        case _ =>
      }
  }

  // ---- the checks suffice ------------------------------------------------

  lemma {:induction false} ChecksSuffice(o: Reader, n: Reader, items: seq<Item>, section: string, values: seq<Setting>,
                                         keys: seq<string>, todo: set<string>, after: bool)
    returns (last: bool)
    requires Abreast(o, n, section, values, keys, todo, after)
    requires Checked(o, items, section, keys, after) && ReadOn(o, Olds(items)).Reading?
    requires Owed(items, todo) && AllReal(items) && forall k :: k in todo ==> k in keys
    ensures Abreast(ReadOn(o, Olds(items)), ReadOn(n, News(items, values)), section, values, keys, {}, last)
    decreases |items|
  {
    last := after;
    if items != [] {
      var it, rest := items[0], items[1..];
      OldReadOn(o, items);
      NewReadOn(n, items, values);
      assert AllReal(rest);
      assert items == [it] + rest;
      hide Abreast, PlaceChecked, Read, Real, NewLine;
      if OldRead(o, it).Failed? {
        FailedStays(Olds(rest));
      }
      assert Real(it) by { assert AllReal(items); }
      StepKeepsAbreast(o, n, it, section, values, keys, todo, after);
      last := ChecksSuffice(OldRead(o, it), Read(n, NewLine(it, values)), rest, section, values, keys,
                            NextTodo(it, todo), NextAfter(it, after));
    }
  }

  lemma OldReadOn(o: Reader, items: seq<Item>)
    requires items != []
    ensures ReadOn(o, Olds(items)) == ReadOn(OldRead(o, items[0]), Olds(items[1..]))
  {
    hide Read;
    if items[0].Added? {
      assert [] + Olds(items[1..]) == Olds(items[1..]);
    } else {
      assert Olds(items)[1..] == Olds(items[1..]);
    }
  }

  lemma NewReadOn(n: Reader, items: seq<Item>, values: seq<Setting>)
    requires items != []
    ensures ReadOn(n, News(items, values)) == ReadOn(Read(n, NewLine(items[0], values)), News(items[1..], values))
  {
    hide Read, NewLine;
    assert News(items, values)[1..] == News(items[1..], values);
  }

  /** Abreast at the end, with nothing left to write, is what was wanted. */
  lemma AbreastMatches(o: Reader, n: Reader, section: string, values: seq<Setting>, keys: seq<string>, after: bool)
    requires Abreast(o, n, section, values, keys, {}, after)
    ensures Matches(o, n, section, values, keys)
  {
    hide Get, InStep;
  }

  // ---- the checks are needed ---------------------------------------------

  /** No line left alone gives any option a value that is being written. */
  ghost predicate AllNew(items: seq<Item>, values: seq<Setting>, keys: seq<string>) {
    forall i, k :: 0 <= i < |items| && items[i].Same? && KindOf(items[i].line).Option? && k in keys ==>
      KindOf(items[i].line).setting.value != Strip(ValueFor(values, k))
  }

  predicate NoBreak(v: string) { forall i :: 0 <= i < |v| ==> v[i] != '\n' }

  ghost predicate OneLiners(values: seq<Setting>, keys: seq<string>) {
    forall k :: k in keys ==> NoBreak(Strip(ValueFor(values, k)))
  }

  lemma {:induction false} ReadOnSound(r: Reader, lines: seq<string>)
    requires Sound(r)
    ensures Sound(ReadOn(r, lines))
    decreases |lines|
  {
    hide Read, Sound;
    if lines != [] {
      ReadKeepsSound(r, lines[0]);
      ReadOnSound(Read(r, lines[0]), lines[1..]);
    }
  }

  /** A line that goes on with an option's value shows in it for good. */
  lemma ContinuedShows(r: Reader, line: string, rest: seq<string>)
    requires r.Reading? && Sound(r) && Continues(r, line) && ReadOn(Read(r, line), rest).Reading?
    ensures Read(r, line).Reading?
    ensures r.open.value in ReadOn(Read(r, line), rest).opts
    ensures JoinLines(r.opts[r.open.value]) + "\n" <= Text(ReadOn(Read(r, line), rest).opts[r.open.value])
  {
    var name, t := r.open.value, Read(r, line);
    var s := Strip(line);
    ReadKeepsSound(r, line);
    ValueIsTidy(line);
    SolidText(line);
    assert t == Append(r, s) by { hide Strip, KindOf, Indent; }
    hide KindOf, Indent, Strip, Read, JoinLines, Text;
    ValueStays(t, rest, name);
    var final := ReadOn(t, rest).opts[name];
    assert final == r.opts[name] + [s] + final[|r.opts[name]| + 1..];
    LastIsSolid(s);
    ContinuationShows(r.opts[name], s, final[|r.opts[name]| + 1..]);
  }

  lemma SolidText(line: string)
    ensures !Skipped(line) ==> Strip(line) != ""
  {
    hide Strip, HeaderName, OptionOf;
  }

  /** An option keeps the first line of its first value, so a one-line value
      read at the end is the one it was given. */
  lemma FirstValueStays(r: Reader, rest: seq<string>, name: Name, v: string)
    requires r.Reading? && Sound(r) && name in r.opts && ReadOn(r, rest).Reading?
    requires Get(ReadOn(r, rest), name) == Some(v) && NoBreak(v)
    ensures r.opts[name][0] == v
  {
    hide Text;
    ValueStays(r, rest, name);
    ReadOnSound(r, rest);
    OneLineText(ReadOn(r, rest).opts[name], v);
  }

  /** A key that is not written where it should be is never read back. */
  lemma {:induction false} NeverPlaced(n: Reader, items: seq<Item>, section: string, values: seq<Setting>,
                                       keys: seq<string>, todo: set<string>, k: string)
    requires n.Reading? && Sound(n) && k in keys && k !in todo && Name(section, k) !in n.opts
    requires Owed(items, todo) && AllReal(items) && AllNew(items, values, keys) && OneLiners(values, keys)
    requires ReadOn(n, News(items, values)).Reading?
    ensures Get(ReadOn(n, News(items, values)), Name(section, k)) != Some(Strip(ValueFor(values, k)))
    decreases |items|
  {
    if items != [] {
      var it, rest, name := items[0], items[1..], Name(section, k);
      var n1 := Read(n, NewLine(it, values));
      NewReadOn(n, items, values);
      assert items == [it] + rest;
      assert AllReal(rest) && AllNew(rest, values, keys);
      assert Real(it) by { assert items[0] == it; }
      ReadKeepsSound(n, NewLine(it, values));
      hide Get, Strip, ValueFor, NewLine, Text;
      if n1.Failed? {
        FailedStays(News(rest, values));
      } else if name in n1.opts {
        NewOptionIs(n, it, name, values);
        assert it.Same? && n1.opts[name][0] != Strip(ValueFor(values, k));
        if Get(ReadOn(n1, News(rest, values)), name) == Some(Strip(ValueFor(values, k))) {
          FirstValueStays(n1, News(rest, values), name, Strip(ValueFor(values, k)));
        }
      } else {
        hide Read;
        NeverPlaced(n1, rest, section, values, keys, NextTodo(it, todo), k);
      }
    }
  }

  /** An option that one line brings in is the one on the line. */
  lemma NewOptionIs(n: Reader, it: Item, name: Name, values: seq<Setting>)
    requires n.Reading? && Sound(n) && Real(it) && name !in n.opts
    requires Read(n, NewLine(it, values)).Reading? && name in Read(n, NewLine(it, values)).opts
    ensures it.Same? ==> KindOf(it.line).Option? && Read(n, it.line).opts[name] == [KindOf(it.line).setting.value]
    ensures !it.Same? ==> name.key == it.key
  {
    if !it.Same? {
      ReadWritten(n, it.key, ValueFor(values, it.key));
      hide Read, LineFor, Strip, ValueFor;
    } else {
      hide KindOf, Indent, Strip;
    }
  }

  /** A line left alone: if the outcome is right, it passes its check. */
  lemma SameIsChecked(o: Reader, n: Reader, l: string, rest: seq<string>, section: string, values: seq<Setting>,
                      keys: seq<string>, todo: set<string>, after: bool)
    requires Abreast(o, n, section, values, keys, todo, after) && OneLiners(values, keys)
    requires ReadOn(Read(n, l), rest).Reading?
    requires forall k :: k in keys ==>
               Get(ReadOn(Read(n, l), rest), Name(section, k)) == Some(Strip(ValueFor(values, k)))
    requires forall k :: k in keys && KindOf(l).Option? ==> KindOf(l).setting.value != Strip(ValueFor(values, k))
    ensures PlaceChecked(o, Same(l), section, keys, after)
  {
    hide Get, Strip, ValueFor, KindOf, Indent, Text, JoinLines, OthersAlike, WrittenSoFar, Read;
    if !Skipped(l) && after && Indent(l) > 0 {
      var k := n.open.value.key;
      ContinuedShows(n, l, rest);
      BreakShows(ReadOn(Read(n, l), rest), n.open.value, n.opts[n.open.value]);
    } else if !Skipped(l) && TakenForWritten(o, l, section, keys) {
      var k := KindOf(l).setting.key;
      assert !Continues(n, l);
      if Read(n, l).Failed? {
        FailedStays(rest);
      } else {
        ReadOption(n, l);
        ReadKeepsSound(n, l);
        FirstValueStays(Read(n, l), rest, Name(section, k), Strip(ValueFor(values, k)));
      }
    }
  }

  lemma ReadOption(n: Reader, l: string)
    requires n.Reading? && n.cur.Some? && !Continues(n, l) && KindOf(l).Option? && Read(n, l).Reading?
    ensures var p := KindOf(l).setting;
            Name(n.cur.value, p.key) in Read(n, l).opts && Read(n, l).opts[Name(n.cur.value, p.key)] == [p.value]
  {
    hide KindOf, Indent, Strip;
  }

  lemma BreakShows(r: Reader, name: Name, vals: seq<string>)
    requires r.Reading? && name in r.opts && JoinLines(vals) + "\n" <= Text(r.opts[name])
    ensures Get(r, name).Some? && !NoBreak(Get(r, name).value)
  {
    assert Text(r.opts[name])[|JoinLines(vals)|] == '\n';
    hide Text, JoinLines;
  }

  /** A written line: if the outcome is right, the reader is in the section. */
  lemma WrittenIsInSection(o: Reader, n: Reader, it: Item, rest: seq<Item>, section: string, values: seq<Setting>,
                           keys: seq<string>, todo: set<string>, after: bool)
    requires Abreast(o, n, section, values, keys, todo, after) && OneLiners(values, keys)
    requires !it.Same? && Real(it) && it.key in todo && it.key in keys
    requires Owed(rest, todo - {it.key}) && AllReal(rest) && AllNew(rest, values, keys)
    requires var n1 := Read(n, NewLine(it, values));
             ReadOn(n1, News(rest, values)).Reading?
             && Get(ReadOn(n1, News(rest, values)), Name(section, it.key)) == Some(Strip(ValueFor(values, it.key)))
    ensures o.cur == Some(section)
  {
    var n1 := Read(n, NewLine(it, values));
    ReadWritten(n, it.key, ValueFor(values, it.key));
    ReadKeepsSound(n, NewLine(it, values));
    hide Get, Strip, ValueFor, Read, LineFor, Text, OthersAlike;
    if n1.Failed? {
      FailedStays(News(rest, values));
    } else if n.cur != Some(section) {
      NeverPlaced(n1, rest, section, values, keys, todo - {it.key}, it.key);
    }
  }

  /** A rewritten continuation: if the outcome is right, it went on with a
      written key's value. */
  lemma CutIsOfWritten(o: Reader, n: Reader, it: Item, olds: seq<string>, news: seq<string>, section: string,
                       values: seq<Setting>, keys: seq<string>, todo: set<string>, after: bool)
    requires Abreast(o, n, section, values, keys, todo, after)
    requires it.Rewritten? && Real(it) && it.key in keys && o.cur == Some(section) && Continues(o, it.line)
    requires var n1, o1 := Read(n, NewLine(it, values)), Read(o, it.line);
             ReadOn(n1, news).Reading? && ReadOn(o1, olds).Reading?
             && forall name: Name :: !IsWritten(name, section, keys) ==> Get(ReadOn(n1, news), name) == Get(ReadOn(o1, olds), name)
    ensures IsWritten(o.open.value, section, keys)
  {
    var name, n1 := o.open.value, Read(n, NewLine(it, values));
    ReadWritten(n, it.key, ValueFor(values, it.key));
    ReadKeepsSound(n, NewLine(it, values));
    ContinuedShows(o, it.line, olds);
    if !IsWritten(name, section, keys) {
      assert name in n.opts && Get(n, name) == Get(o, name);
      hide Read, LineFor, Strip, ValueFor, KindOf, Indent, WrittenSoFar, InStep, OthersAlike;
      if n1.Failed? {
        FailedStays(news);
      } else {
        ValueStays(n1, news, name);
        TextIsShorter(o.opts[name]);
      }
    }
  }

  lemma TextIsShorter(vals: seq<string>)
    ensures |Text(vals)| <= |JoinLines(vals)|
  {
    StripRightIsPrefix(JoinLines(vals));
  }

  lemma RestIsNew(items: seq<Item>, values: seq<Setting>, keys: seq<string>)
    requires items != [] && AllReal(items) && AllNew(items, values, keys)
    ensures Real(items[0]) && AllReal(items[1..]) && AllNew(items[1..], values, keys)
  {
    hide Real, KindOf, Strip, ValueFor;
  }

  lemma {:induction false} ChecksNeeded(o: Reader, n: Reader, items: seq<Item>, section: string, values: seq<Setting>,
                                        keys: seq<string>, todo: set<string>, after: bool)
    requires Abreast(o, n, section, values, keys, todo, after)
    requires Owed(items, todo) && AllReal(items) && forall k :: k in todo ==> k in keys
    requires AllNew(items, values, keys) && OneLiners(values, keys)
    requires ReadOn(o, Olds(items)).Reading?
    requires Matches(ReadOn(o, Olds(items)), ReadOn(n, News(items, values)), section, values, keys)
    ensures Checked(o, items, section, keys, after)
    decreases |items|
  {
    if items != [] {
      var it := items[0];
      NextPlace(o, n, items, section, values, keys, todo, after);
      hide ReadOn, Matches, Abreast, PlaceChecked, Read, NewLine, Real, AllNew, AllReal, OneLiners, Owed, Olds, News;
      ChecksNeeded(OldRead(o, it), Read(n, NewLine(it, values)), items[1..], section, values, keys,
                   NextTodo(it, todo), NextAfter(it, after));
    }
  }

  lemma WasReading(r: Reader, lines: seq<string>)
    requires ReadOn(r, lines).Reading?
    ensures r.Reading?
  {
    hide ReadOn;
    if r.Failed? {
      FailedStays(lines);
    }
  }

  /** The first place passes its check, and the rest is as before it. */
  lemma NextPlace(o: Reader, n: Reader, items: seq<Item>, section: string, values: seq<Setting>,
                  keys: seq<string>, todo: set<string>, after: bool)
    requires items != [] && Abreast(o, n, section, values, keys, todo, after)
    requires Owed(items, todo) && AllReal(items) && forall k :: k in todo ==> k in keys
    requires AllNew(items, values, keys) && OneLiners(values, keys)
    requires ReadOn(o, Olds(items)).Reading?
    requires Matches(ReadOn(o, Olds(items)), ReadOn(n, News(items, values)), section, values, keys)
    ensures var it, rest := items[0], items[1..];
            var o1, n1 := OldRead(o, it), Read(n, NewLine(it, values));
            && PlaceChecked(o, it, section, keys, after)
            && Abreast(o1, n1, section, values, keys, NextTodo(it, todo), NextAfter(it, after))
            && Owed(rest, NextTodo(it, todo)) && AllReal(rest) && AllNew(rest, values, keys)
            && ReadOn(o1, Olds(rest)).Reading?
            && Matches(ReadOn(o1, Olds(rest)), ReadOn(n1, News(rest, values)), section, values, keys)
  {
    var it, rest := items[0], items[1..];
    OldReadOn(o, items);
    NewReadOn(n, items, values);
    RestIsNew(items, values, keys);
    hide AllNew, AllReal, OneLiners, Matches, Olds, News, PlaceChecked, ReadOn, Real, Abreast, Read, OldRead, NewLine;
    assert items == [it] + rest;
    PlaceIsChecked(o, n, it, rest, section, values, keys, todo, after);
    WasReading(OldRead(o, it), Olds(rest));
    StepKeepsAbreast(o, n, it, section, values, keys, todo, after);
  }

  lemma PlaceIsChecked(o: Reader, n: Reader, it: Item, rest: seq<Item>, section: string, values: seq<Setting>,
                       keys: seq<string>, todo: set<string>, after: bool)
    requires Abreast(o, n, section, values, keys, todo, after) && Real(it)
    requires Owed([it] + rest, todo) && AllReal(rest) && forall k :: k in todo ==> k in keys
    requires AllNew([it] + rest, values, keys) && OneLiners(values, keys)
    requires ReadOn(OldRead(o, it), Olds(rest)).Reading?
    requires Matches(ReadOn(OldRead(o, it), Olds(rest)), ReadOn(Read(n, NewLine(it, values)), News(rest, values)),
                     section, values, keys)
    ensures PlaceChecked(o, it, section, keys, after)
  {
    hide Get, Strip, ValueFor, KindOf, Indent, Read, Text, LineFor, InStep, OthersAlike, WrittenSoFar;
    assert ([it] + rest)[0] == it && ([it] + rest)[1..] == rest;
    match it
    case Same(l) =>
      SameIsChecked(o, n, l, News(rest, values), section, values, keys, todo, after);
    case Rewritten(l, k) =>
      assert forall i :: 0 <= i < |rest| ==> ([it] + rest)[i + 1] == rest[i];
      WrittenIsInSection(o, n, it, rest, section, values, keys, todo, after);
      if Continues(o, l) {
        CutIsOfWritten(o, n, it, Olds(rest), News(rest, values), section, values, keys, todo, after);
      }
    case Added(k) =>
      assert forall i :: 0 <= i < |rest| ==> ([it] + rest)[i + 1] == rest[i];
      WrittenIsInSection(o, n, it, rest, section, values, keys, todo, after);
  }
}
