/** Files that load, and that a settings write spoils. */
module IniSaveFails {
  import opened Bytes
  import opened HeaderBlock
  import opened TextLines
  import opened IniReading
  import opened IniLines
  import opened IniEditing
  import opened IniReadBack
  import opened IniSaving

  // ---- a header the editor does not see ----------------------------------

  /** The reader knows the section, the editor finds no such header: whatever is
      written, the file no longer loads. */
  lemma MissedHeaderFails(lines: seq<string>, section: string, values: seq<Setting>)
    requires Load(lines).Reading? && section in Load(lines).names && Locate(lines, HeaderOf(section), 0).None?
    ensures Load(EditFile(lines, section, values)).Failed? && !Checks(lines, section, KeysOf(values))
  {
    hide Load, EditFile, HeaderOf, Checked;
    AppendedHeader(lines, section);
    BrokenStaysBroken(lines, section, values);
  }

  function Noted(section: string, note: string): string { HeaderOf(section) + " # " + note }

  /** A header with a note behind it opens the section for the reader alone. */
  lemma NotedHeader(section: string, note: string)
    requires section != "" && forall i :: 0 <= i < |note| ==> note[i] != ']'
    ensures KindOf(Noted(section, note)) == Header(section) && Indent(Noted(section, note)) == 0
    ensures Strip(Noted(section, note)) != HeaderOf(section) && !IsHeader(Noted(section, note))
  {
    var line, n := Noted(section, note), |section| + 4;
    var s := NotedStripped(section, note);
    forall i | n - 2 <= i < |s| ensures s[i] != ']' {
      assert s[i] == line[i];
      assert i >= n ==> line[i] == (" " + note)[i - n];
      assert i > n ==> line[i] == note[i - n - 1];
    }
    hide StripRight, StripLeft, Strip;
    NameEndsThere(s, n - 2);
    assert |HeaderOf(section)| < |s|;
    HeaderIs(line, section, n - 3);
    assert s[|s| - 1] != ']';
  }

  lemma NotedStripped(section: string, note: string) returns (s: string)
    ensures var line, n := Noted(section, note), |section| + 4;
            s == Strip(line) && s <= line && n <= |s| && StripLeft(line) == line
            && s[1..n - 3] == section && s[n - 3] == ']' && s[0] == '['
            && line == HeaderOf(section) + " #" + (" " + note)
  {
    var line, n := Noted(section, note), |section| + 4;
    assert line[0] == '[' && line[n - 1] == '#' && line[n - 3] == ']' && line[1..n - 3] == section;
    assert StripLeft(line) == line;
    StrippedTail(line, n);
    StripRightCuts(line);
    s := Strip(line);
    hide StripRight, StripLeft, Strip;
    assert s == line[..|s|];
  }

  lemma HeaderIs(line: string, section: string, j: nat)
    requires var s := Strip(line); 2 <= j < |s| && s[0] == '[' && LastBracket(s) == Some(j) && s[1..j] == section
    ensures KindOf(line) == Header(section)
  {
    hide Strip, LastBracket;
  }

  /** `[section] # note` and one option: it loads, and after a write it does not. */
  lemma NotedHeaderFails(section: string, note: string, p: Setting, values: seq<Setting>)
    requires section != "" && section != DEFAULT && forall i :: 0 <= i < |note| ==> note[i] != ']'
    requires PlainKey(p.key)
    ensures var lines := [Noted(section, note), LineFor(p)];
            Get(Load(lines), Name(section, p.key)) == Some(Strip(p.value))
            && Load(EditFile(lines, section, values)).Failed?
  {
    var h, lines := Noted(section, note), [Noted(section, note), LineFor(p)];
    NotedHeader(section, note);
    WrittenLine(p);
    TwoLines(h, LineFor(p), section, Setting(p.key, Strip(p.value)));
    OneLineValue(p.value);
    hide Strip, LineFor, KindOf, Indent, HeaderOf, Noted, Load, EditFile, StripRight, Text, IsHeader;
    LocateMeans(lines, HeaderOf(section), 0);
    HeaderStrips(section);
    assert lines[0] == h && lines[1] == LineFor(p);
    MissedHeaderFails(lines, section, values);
  }

  /** A header and an option, both in the first column. */
  lemma TwoLines(h: string, line: string, section: string, p: Setting)
    requires KindOf(h) == Header(section) && Indent(h) == 0
    requires KindOf(line) == Kind.Option(p)
    ensures var r := Load([h, line]);
            r.Reading? && (section != DEFAULT ==> section in r.names)
            && r.opts == map[Name(section, p.key) := [p.value]]
            && r.cur == Some(section) && r.open == Some(Name(section, p.key)) && r.indent == Indent(line)
  {
    hide KindOf, Indent;
    var s := [h, line];
    assert s[0] == h && s[1..] == [line] && [line][0] == line && [line][1..] == [];
    assert Load(s) == ReadOn(Read(FIRST, h), [line]) == Read(Read(FIRST, h), line);
  }

  // ---- a section whose options are indented ------------------------------

  function Indented(line: string): string { " " + (" " + line) }

  lemma IndentedIs(line: string)
    requires line != "" && !IsSpace(line[0])
    ensures KindOf(Indented(line)) == KindOf(line) && EditorKey(Indented(line)) == EditorKey(line)
    ensures Indent(Indented(line)) == 2 && Strip(Indented(line)) == Strip(line)
    ensures IsHeader(Indented(line)) == IsHeader(line)
  {
    var t := Indented(line);
    assert t[1..] == " " + line && (" " + line)[1..] == line;
    assert StripLeft(t) == StripLeft(" " + line) == StripLeft(line) == line;
    hide StripLeft, StripRight, Find;
  }

  lemma IndentedOption(p: Setting)
    requires PlainKey(p.key)
    ensures var t := Indented(LineFor(p));
            KindOf(t) == Kind.Option(Setting(p.key, Strip(p.value))) && Indent(t) == 2
            && EditorKey(t) == Some(p.key) && Strip(t) == Strip(LineFor(p)) && Strip(t) != "" && !IsHeader(t)
  {
    var line := LineFor(p);
    WrittenLine(p);
    PlainIsClean(p.key);
    assert line[0] == p.key[0];
    hide KindOf, EditorKey, Strip, Indent, IsHeader, Indented, PlainKey;
    IndentedIs(line);
    SolidText(line);
  }

  lemma IndentedLoads(h: string, la: string, lb: string, section: string, a: Setting, b: Setting)
    requires KindOf(h) == Header(section) && Indent(h) == 0 && a.key != b.key
    requires KindOf(la) == Kind.Option(a) && Indent(la) == 2
    requires KindOf(lb) == Kind.Option(b) && Indent(lb) == 2
    ensures Load([h, la, lb]).Reading?
    ensures Load([h, la, lb]).opts == map[Name(section, a.key) := [a.value], Name(section, b.key) := [b.value]]
  {
    ThreeLines(h, la, lb);
    TwoLines(h, la, section, a);
    hide KindOf, Indent, Load;
  }

  lemma ThreeLines(a: string, b: string, c: string)
    ensures Load([a, b, c]) == Read(Load([a, b]), c)
  {
    assert [a, b, c] == [a, b] + [c] && [c][1..] == [] && [c][0] == c;
    hide Read;
    ReadJoin(FIRST, [a, b], [c]);
    assert ReadOn(Load([a, b]), [c]) == ReadOn(Read(Load([a, b]), c), []);
  }

  lemma SwallowedLoads(h: string, now: string, lb: string, section: string, a: Setting)
    requires KindOf(h) == Header(section) && Indent(h) == 0
    requires KindOf(now) == Kind.Option(a) && Indent(now) == 0
    requires KindOf(lb).Option? && Indent(lb) == 2
    ensures Load([h, now, lb]).Reading?
    ensures Load([h, now, lb]).opts == map[Name(section, a.key) := [a.value, Strip(lb)]]
  {
    ThreeLines(h, now, lb);
    TwoLines(h, now, section, a);
    hide KindOf, Indent, Load, Strip;
    var r := Load([h, now]);
    assert Read(r, lb) == Append(r, Strip(lb));
    assert [a.value] + [Strip(lb)] == [a.value, Strip(lb)];
  }

  lemma SwallowedEdit(h: string, section: string, la: string, lb: string, a: string, b: string, v: string)
    requires h == HeaderOf(section) && a != b
    requires EditorKey(la) == Some(a) && !IsHeader(la) && EditorKey(lb) == Some(b) && !IsHeader(lb)
    ensures EditFile([h, la, lb], section, [Setting(a, v)]) == [h, LineFor(Setting(a, v)), lb]
  {
    var values, body := [Setting(a, v)], [la, lb];
    var now := LineFor(Setting(a, v));
    assert values[0].key == a;
    assert Has(values, a) && ValueOf(values, a) == v;
    assert Remove(values, a) == [];
    assert NoHeaders(body) by { hide IsHeader; }
    hide *;
    assert [h, la, lb] == [h] + body;
    OneSection(h, section, body, values);
    OneRewritten(la, lb, values, a, now);
    NothingLeft(body, values, [now, lb]);
    assert [h] + [now, lb] == [h, now, lb];
  }

  lemma NothingLeft(body: seq<string>, values: seq<Setting>, r: seq<string>)
    requires Replace(body, values) == (r, [])
    ensures EditBody(body, values) == r
  {
    hide Replace;
    NothingToInsert(r);
  }

  /** A file that is one section. */
  lemma OneSection(h: string, section: string, body: seq<string>, values: seq<Setting>)
    requires h == HeaderOf(section) && NoHeaders(body)
    ensures EditFile([h] + body, section, values) == [h] + EditBody(body, values)
  {
    var lines := [h] + body;
    HeaderStrips(section);
    hide Strip, HeaderOf, IsHeader, EditBody;
    LocateIs(lines, h, 0, 0);
    assert forall i :: 0 <= i < |body| ==> lines[i + 1] == body[i];
    NextHeaderIs(lines, 1, |lines|);
    SplitIs(lines, section, 0, |lines|);
    assert lines[..1] == [h] && lines[1..|lines|] == body && lines[|lines|..] == [];
    assert SplitAt(lines, section) == Parts([h], body, []);
    hide SplitAt;
    assert [h] + EditBody(body, values) + [] == [h] + EditBody(body, values);
  }

  lemma OneRewritten(la: string, lb: string, values: seq<Setting>, a: string, now: string)
    requires EditorKey(la) == Some(a) && Has(values, a) && Remove(values, a) == []
    requires now == LineFor(Setting(a, ValueOf(values, a)))
    ensures Replace([la, lb], values) == ([now, lb], [])
  {
    hide EditorKey, LineFor;
    var two, one := [la, lb], [lb];
    assert two[0] == la && two[1..] == one && one[1..] == [] && one[0] == lb;
    EmptyReplace([]);
    assert forall k :: !Has([], k);
    assert Replace(one, []) == ([lb] + [], []);
    hide Has, ValueOf, Remove;
    var (r, left) := Replace(two[1..], Remove(values, EditorKey(two[0]).value));
    assert r == [lb] && left == [];
    assert Replace(two, values) == ([now] + r, left) && [now] + r == [now, lb];
  }

  lemma SwallowedText(x: string, s: string)
    requires s != "" && s == StripRight(s)
    ensures Text([x, s]) == x + "\n" + s
  {
    LastIsSolid(s);
    var t := x + "\n" + s;
    assert JoinLines([x, s]) == t by {
      assert [x, s][..1] == [x];
    }
    assert t[|t| - 1] == s[|s| - 1];
  }

  /** Two options indented alike load as two; writing the first one alone moves
      it to the first column, and the second becomes part of its value. */
  lemma IndentedNeighbourIsSwallowed(section: string, a: Setting, b: Setting, v: string)
    requires section != "" && PlainKey(a.key) && PlainKey(b.key) && a.key != b.key && Unbroken(v)
    ensures var lines := [HeaderOf(section), Indented(LineFor(a)), Indented(LineFor(b))];
            var after := Load(EditFile(lines, section, [Setting(a.key, v)]));
            && Get(Load(lines), Name(section, a.key)) == Some(Strip(a.value))
            && Get(Load(lines), Name(section, b.key)) == Some(Strip(b.value))
            && Get(after, Name(section, a.key)) == Some(Strip(v) + "\n" + Strip(LineFor(b)))
            && Get(after, Name(section, b.key)) == None
            && !Checks(lines, section, [a.key])
  {
    var h, la, lb := HeaderOf(section), Indented(LineFor(a)), Indented(LineFor(b));
    IndentedOption(a);
    IndentedOption(b);
    HeaderIsRead(section);
    hide *;
    Swallowed(h, section, la, lb, a.key, b.key, Strip(a.value), Strip(b.value), v);
    OneLineValue(a.value);
    OneLineValue(b.value);
    assert [Setting(a.key, v)] == [Setting(a.key, v)];
    GetOf(Load([h, la, lb]), Name(section, a.key));
    GetOf(Load([h, la, lb]), Name(section, b.key));
  }

  lemma GetOf(r: Reader, name: Name)
    ensures Get(r, name) == if r.Reading? && name in r.opts then Some(Text(r.opts[name])) else None
  {
  }

  lemma Swallowed(h: string, section: string, la: string, lb: string, a: string, b: string,
                  va: string, vb: string, v: string)
    requires h == HeaderOf(section) && KindOf(h) == Header(section) && Indent(h) == 0
    requires PlainKey(a) && a != b && Unbroken(v)
    requires KindOf(la) == Kind.Option(Setting(a, va)) && Indent(la) == 2 && EditorKey(la) == Some(a) && !IsHeader(la)
    requires KindOf(lb) == Kind.Option(Setting(b, vb)) && Indent(lb) == 2 && EditorKey(lb) == Some(b) && !IsHeader(lb)
    requires Strip(lb) != ""
    ensures var lines := [h, la, lb];
            var after := Load(EditFile(lines, section, [Setting(a, v)]));
            && Load(lines).Reading? && Load(lines).opts == map[Name(section, a) := [va], Name(section, b) := [vb]]
            && Get(after, Name(section, a)) == Some(Strip(v) + "\n" + Strip(lb))
            && Get(after, Name(section, b)) == None
            && !Checks(lines, section, [a])
  {
    var now := LineFor(Setting(a, v));
    WrittenLine(Setting(a, v));
    hide LineFor, KindOf, EditorKey, Strip, Indent, HeaderOf, Text, IsHeader, Load, EditFile, PlainKey, Unbroken;
    IndentedLoads(h, la, lb, section, Setting(a, va), Setting(b, vb));
    SwallowedEdit(h, section, la, lb, a, b, v);
    SwallowedLoads(h, now, lb, section, Setting(a, Strip(v)));
    ValueIsTidy(lb);
    SwallowedText(Strip(v), Strip(lb));
    NotReadBack([h, la, lb], section, a, v);
  }

  lemma NotReadBack(lines: seq<string>, section: string, key: string, v: string)
    requires Load(lines).Reading? && PlainKey(key) && Unbroken(v)
    requires Get(Load(EditFile(lines, section, [Setting(key, v)])), Name(section, key)) != Some(Strip(v))
    ensures !Checks(lines, section, [key])
  {
    var values := [Setting(key, v)];
    assert values[1..] == [] && KeysOf(values) == [key];
    assert Has(values, key) && ValueFor(values, key) == v;
    hide Load, Checks, Get, EditFile, Strip;
    assert key in KeysOf(values);
    if Checks(lines, section, [key]) {
      CheckedWriteReadsBack(lines, section, values);
    }
  }

  // ---- a key behind a colon ----------------------------------------------

  /** `key: value` is the key's option to the reader alone: a write adds the key
      a second time, and the file no longer loads. */
  lemma ColonKeyFails(section: string, k: string, v: string, new1: string)
    requires section != "" && PlainKey(k) && Unbroken(new1)
    ensures var lines := [HeaderOf(section), k + ": " + v];
            Get(Load(lines), Name(section, k)) == Some(Strip(v))
            && Load(EditFile(lines, section, [Setting(k, new1)])).Failed?
  {
    var h, line := HeaderOf(section), k + ": " + v;
    ColonLine(k, v);
    ColonIsNoHeader(k, v);
    HeaderIsRead(section);
    OneLineValue(v);
    WrittenLine(Setting(k, new1));
    hide *;
    var now := LineFor(Setting(k, new1));
    AddedEdit(h, section, line, k, new1);
    AddedTwice(h, line, now, section, Setting(k, Strip(v)), Setting(k, Strip(new1)));
    GetOf(Load([h, line]), Name(section, k));
  }

  lemma AddedTwice(h: string, line: string, now: string, section: string, p: Setting, q: Setting)
    requires KindOf(h) == Header(section) && Indent(h) == 0 && p.key == q.key
    requires KindOf(line) == Kind.Option(p) && Indent(line) == 0
    requires KindOf(now) == Kind.Option(q) && Indent(now) == 0
    ensures Load([h, line]).Reading? && Load([h, line]).opts == map[Name(section, p.key) := [p.value]]
    ensures Load([h, line, now]).Failed?
  {
    TwoLines(h, line, section, p);
    ThreeLines(h, line, now);
    hide KindOf, Indent, Load;
  }

  lemma ColonIsNoHeader(k: string, v: string)
    requires PlainKey(k)
    ensures !IsHeader(k + ": " + v) && !IsBlank(k + ": " + v)
  {
    var t := k + ": " + v;
    PlainIsClean(k);
    assert t == k + (": " + v) && t[..|k|] == k && t[|k|] == ':';
    KeyedStrips(t, k, |k|);
    hide StripLeft, StripRight, Strip;
  }

  lemma AddedEdit(h: string, section: string, line: string, k: string, v: string)
    requires h == HeaderOf(section) && EditorKey(line) != Some(k) && !IsHeader(line) && !IsBlank(line)
    ensures EditFile([h, line], section, [Setting(k, v)]) == [h, line, LineFor(Setting(k, v))]
  {
    var p := Setting(k, v);
    var values, body := [p], [line];
    hide Strip, HeaderOf, IsHeader, EditorKey, LineFor, IsBlank, EditFile;
    assert [h, line] == [h] + body;
    OneSection(h, section, body, values);
    assert forall key :: Has(values, key) ==> key == k;
    assert body[1..] == [] && body[0] == line && values[1..] == [];
    EmptyReplace(values);
    assert Replace(body, values) == ([line] + [], values);
    assert InsertAt(body) == 1 && SortByKey(values) == [p];
    assert LinesFor([p]) == [LineFor(p)];
    assert EditBody(body, values) == body[..1] + [LineFor(p)] + body[1..];
    assert [h] + EditBody(body, values) == [h, line, LineFor(p)];
  }
}
