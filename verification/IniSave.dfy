/** A settings write and the next load: when the written file gives the written
    keys their new values and every other option the value it had. */
module IniSaving {
  import opened Bytes
  import opened HeaderBlock
  import opened TextLines
  import opened IniReading
  import opened IniLines
  import opened IniEditing
  import opened IniReadBack

  // ---- the places of a write ---------------------------------------------

  function KeysOf(values: seq<Setting>): (keys: seq<string>)
    ensures |keys| == |values|
  {
    if values == [] then [] else [values[0].key] + KeysOf(values[1..])
  }

  function Without(keys: seq<string>, key: string): (r: seq<string>)
    ensures |r| <= |keys|
  {
    if keys == [] then [] else if keys[0] == key then keys[1..] else [keys[0]] + Without(keys[1..], key)
  }

  function InsertKey(key: string, keys: seq<string>): seq<string> {
    if keys == [] || KeyBefore(key, keys[0]) then [key] + keys else [keys[0]] + InsertKey(key, keys[1..])
  }

  function SortKeys(keys: seq<string>): seq<string> {
    if keys == [] then [] else InsertKey(keys[0], SortKeys(keys[1..]))
  }

  /** Which lines of the body are rewritten, and the keys then left to add. */
  function Mark(body: seq<string>, keys: seq<string>): (r: (seq<Item>, seq<string>))
    ensures |r.0| == |body|
  {
    if body == [] then ([], keys)
    else
      var key := EditorKey(body[0]);
      if key.Some? && key.value in keys then
        var (r, left) := Mark(body[1..], Without(keys, key.value));
        ([Item.Rewritten(body[0], key.value)] + r, left)
      else
        var (r, left) := Mark(body[1..], keys);
        ([Same(body[0])] + r, left)
  }

  function SameAll(lines: seq<string>): (r: seq<Item>)
    ensures |r| == |lines|
  {
    if lines == [] then [] else [Same(lines[0])] + SameAll(lines[1..])
  }

  function AddedAll(keys: seq<string>): (r: seq<Item>)
    ensures |r| == |keys|
  {
    if keys == [] then [] else [Added(keys[0])] + AddedAll(keys[1..])
  }

  /** The body's places; which they are does not depend on the values. */
  function BodyItems(body: seq<string>, keys: seq<string>): seq<Item> {
    var (marks, left) := Mark(body, keys);
    var at := InsertAt(body);
    marks[..at] + AddedAll(SortKeys(left)) + marks[at..]
  }

  function Items(lines: seq<string>, section: string, keys: seq<string>): seq<Item> {
    var p := SplitAt(lines, section);
    SameAll(p.before) + BodyItems(p.body, keys) + SameAll(p.after)
  }

  /** What can be checked before the write: the file, with the section's header
      appended if the editor misses it, loads, and every place passes. */
  predicate Checks(lines: seq<string>, section: string, keys: seq<string>) {
    var w := WithSection(lines, section);
    Load(w).Reading? && Checked(FIRST, Items(w, section, keys), section, keys, false)
  }

  /** What the write is for. */
  ghost predicate ReadsBack(lines: seq<string>, section: string, values: seq<Setting>) {
    Matches(Load(lines), Load(EditFile(lines, section, values)), section, values, KeysOf(values))
  }

  // ---- keys and values ---------------------------------------------------

  lemma {:induction false} KeysAre(values: seq<Setting>)
    ensures forall k :: k in KeysOf(values) <==> Has(values, k)
  {
    if values != [] {
      KeysAre(values[1..]);
      HasCons(values);
      hide Has;
      assert KeysOf(values)[1..] == KeysOf(values[1..]);
      var keys := KeysOf(values);
      assert keys == [values[0].key] + KeysOf(values[1..]);
    }
  }

  lemma {:induction false} KeysRemoved(values: seq<Setting>, key: string)
    ensures KeysOf(Remove(values, key)) == Without(KeysOf(values), key)
  {
    if values != [] {
      KeysRemoved(values[1..], key);
      assert KeysOf(values)[1..] == KeysOf(values[1..]);
      if values[0].key != key {
        var r := Remove(values[1..], key);
        assert ([values[0]] + r)[1..] == r;
      }
    }
  }

  lemma {:induction false} KeysInserted(p: Setting, values: seq<Setting>)
    ensures KeysOf(InsertByKey(p, values)) == InsertKey(p.key, KeysOf(values))
    decreases |values|
  {
    hide KeyBefore;
    if values == [] || KeyBefore(p.key, values[0].key) {
      assert ([p] + values)[1..] == values;
    } else {
      KeysInserted(p, values[1..]);
      assert KeysOf(values)[1..] == KeysOf(values[1..]);
      var r := InsertByKey(p, values[1..]);
      assert ([values[0]] + r)[1..] == r;
    }
  }

  lemma {:induction false} KeysSorted(values: seq<Setting>)
    ensures KeysOf(SortByKey(values)) == SortKeys(KeysOf(values))
  {
    if values != [] {
      hide KeyBefore;
      KeysSorted(values[1..]);
      KeysInserted(values[0], SortByKey(values[1..]));
      assert KeysOf(values)[1..] == KeysOf(values[1..]);
    }
  }

  /** Some of the settings, with the values they have among all. */
  ghost predicate Among(some: seq<Setting>, values: seq<Setting>) {
    forall k :: Has(some, k) ==> Has(values, k) && ValueOf(some, k) == ValueOf(values, k)
  }

  // ---- the places give the old file and the new --------------------------

  lemma {:induction false} OldsJoin(a: seq<Item>, b: seq<Item>)
    ensures Olds(a + b) == Olds(a) + Olds(b)
  {
    if a == [] {
      assert a + b == b;
    } else {
      assert (a + b)[1..] == a[1..] + b;
      OldsJoin(a[1..], b);
    }
  }

  lemma {:induction false} NewsJoin(a: seq<Item>, b: seq<Item>, values: seq<Setting>)
    ensures News(a + b, values) == News(a, values) + News(b, values) && |News(a, values)| == |a|
  {
    hide NewLine;
    if a == [] {
      assert a + b == b;
    } else {
      assert (a + b)[1..] == a[1..] + b;
      NewsJoin(a[1..], b, values);
    }
  }

  lemma {:induction false} SameAllIs(lines: seq<string>, values: seq<Setting>)
    ensures Olds(SameAll(lines)) == lines && News(SameAll(lines), values) == lines
    ensures forall i :: 0 <= i < |lines| ==> SameAll(lines)[i] == Same(lines[i])
  {
    if lines != [] {
      SameAllIs(lines[1..], values);
      assert SameAll(lines)[1..] == SameAll(lines[1..]);
      assert [lines[0]] + lines[1..] == lines;
    }
  }

  lemma {:induction false} AddedAllIs(added: seq<Setting>, values: seq<Setting>)
    requires Keyed(added) && Among(added, values)
    ensures Olds(AddedAll(KeysOf(added))) == [] && News(AddedAll(KeysOf(added)), values) == LinesFor(added)
    ensures AllReal(AddedAll(KeysOf(added)))
  {
    if added != [] {
      var rest, items := added[1..], AddedAll(KeysOf(added));
      HasCons(added);
      HeadIsDistinct(added);
      assert Has(added, added[0].key) && ValueOf(added, added[0].key) == added[0].value;
      hide LineFor, Has;
      assert KeysOf(added)[1..] == KeysOf(rest) && items[1..] == AddedAll(KeysOf(rest));
      AmongRest(added, values);
      AddedAllIs(rest, values);
      assert items[0] == Added(added[0].key);
      AllRealCons(items);
    }
  }

  lemma AmongRest(added: seq<Setting>, values: seq<Setting>)
    requires added != [] && Keyed(added) && Among(added, values)
    ensures Keyed(added[1..]) && Among(added[1..], values)
  {
    hide PlainSetting;
    HasCons(added);
    HeadIsDistinct(added);
    hide Has;
    forall k | Has(added[1..], k) ensures Has(values, k) && ValueOf(added[1..], k) == ValueOf(values, k) {
      assert ValueOf(added, k) == ValueOf(added[1..], k);
    }
  }

  lemma AllRealCons(items: seq<Item>)
    requires items != [] && Real(items[0]) && AllReal(items[1..])
    ensures AllReal(items)
  {
    hide Real;
    forall i | 0 <= i < |items| ensures Real(items[i]) {
      assert i > 0 ==> items[i] == items[1..][i - 1];
    }
  }

  lemma AllRealJoin(a: seq<Item>, b: seq<Item>)
    ensures AllReal(a + b) <==> AllReal(a) && AllReal(b)
  {
    hide Real;
    var c := a + b;
    if AllReal(c) {
      forall i | 0 <= i < |a| ensures Real(a[i]) { assert a[i] == c[i]; }
      forall i | 0 <= i < |b| ensures Real(b[i]) { assert b[i] == c[|a| + i]; }
    }
  }

  /** The marks do to the lines what the editor's pass does. */
  lemma {:induction false} MarkIsReplace(body: seq<string>, rem: seq<Setting>, values: seq<Setting>)
    requires Keyed(rem) && Among(rem, values)
    ensures var (marks, left) := Mark(body, KeysOf(rem));
            Olds(marks) == body && News(marks, values) == Replace(body, rem).0
            && left == KeysOf(Replace(body, rem).1)
            && AllReal(marks)
    ensures Keyed(Replace(body, rem).1) && Among(Replace(body, rem).1, values)
    decreases |body|
  {
    if body != [] {
      KeysAre(rem);
      hide EditorKey, Has, LineFor, ValueOf;
      var key, line, rest := EditorKey(body[0]), body[0], body[1..];
      var marks := Mark(body, KeysOf(rem)).0;
      assert [line] + rest == body;
      if key.Some? && Has(rem, key.value) {
        PlainOf(rem, key.value);
        RemoveMeans(rem, key.value);
        KeysRemoved(rem, key.value);
        hide Remove, Keyed;
        MarkIsReplace(rest, Remove(rem, key.value), values);
        assert marks[1..] == Mark(rest, KeysOf(Remove(rem, key.value))).0;
      } else {
        hide Keyed;
        MarkIsReplace(rest, rem, values);
        assert marks[1..] == Mark(rest, KeysOf(rem)).0;
      }
      AllRealCons(marks);
    }
  }

  /** A line and what it becomes are both blank or neither. */
  lemma {:induction false} SameBlanks(body: seq<string>, rem: seq<Setting>)
    requires Keyed(rem)
    ensures |Replace(body, rem).0| == |body|
    ensures forall i :: 0 <= i < |body| ==> (IsBlank(body[i]) <==> IsBlank(Replace(body, rem).0[i]))
    decreases |body|
  {
    if body != [] {
      hide EditorKey, Has, LineFor, ValueOf, IsBlank, Keyed, Remove, Replace;
      var key, rest := EditorKey(body[0]), body[1..];
      FirstReplaced(body, rem);
      if key.Some? && Has(rem, key.value) {
        ReplacedIsNotBlank(body[0], rem, key.value);
        SameBlanks(rest, Remove(rem, key.value));
      } else {
        SameBlanks(rest, rem);
      }
    }
  }

  lemma ReplacedIsNotBlank(line: string, rem: seq<Setting>, key: string)
    requires Keyed(rem) && Has(rem, key) && EditorKey(line) == Some(key)
    ensures Keyed(Remove(rem, key)) && !IsBlank(line) && !IsBlank(LineFor(Setting(key, ValueOf(rem, key))))
  {
    hide EditorKey, Has, LineFor, ValueOf, IsBlank;
    PlainOf(rem, key);
    RemoveMeans(rem, key);
    WrittenLine(Setting(key, ValueOf(rem, key)));
    if IsBlank(line) { BlankHasNoKey(line); }
  }

  lemma FirstReplaced(body: seq<string>, rem: seq<Setting>)
    requires body != []
    ensures var key, (r, _) := EditorKey(body[0]), Replace(body, rem);
            if key.Some? && Has(rem, key.value) then
              r == [LineFor(Setting(key.value, ValueOf(rem, key.value)))] + Replace(body[1..], Remove(rem, key.value)).0
            else r == [body[0]] + Replace(body[1..], rem).0
  {
    hide EditorKey, Has, LineFor, ValueOf, Remove;
  }

  lemma {:induction false} SamePoint(a: seq<string>, b: seq<string>)
    requires |a| == |b| && forall i :: 0 <= i < |a| ==> (IsBlank(a[i]) <==> IsBlank(b[i]))
    ensures InsertAt(a) == InsertAt(b)
    decreases |a|
  {
    hide IsBlank;
    if a != [] && IsBlank(a[|a| - 1]) {
      SamePoint(a[..|a| - 1], b[..|b| - 1]);
    }
  }

  lemma BodyItemsAre(body: seq<string>, values: seq<Setting>)
    requires Keyed(values)
    ensures var items := BodyItems(body, KeysOf(values));
            Olds(items) == body && News(items, values) == EditBody(body, values) && AllReal(items)
  {
    hide Replace, LinesFor, SortByKey, Keyed, Has, InsertAt;
    var (marks, _) := Mark(body, KeysOf(values));
    var (r, left) := Replace(body, values);
    MarkIsReplace(body, values, values);
    SameBlanks(body, values);
    SamePoint(body, r);
    SortMeans(left);
    KeysSorted(left);
    AddedAllIs(SortByKey(left), values);
    hide Mark, KeysOf, SortKeys, AllReal, Olds, News, AddedAll, Among;
    AddedInside(marks, AddedAll(SortKeys(KeysOf(left))), InsertAt(body), values);
  }

  /** Adding items in the middle. */
  lemma AddedInside(marks: seq<Item>, added: seq<Item>, at: nat, values: seq<Setting>)
    requires at <= |marks| && Olds(added) == [] && AllReal(marks) && AllReal(added)
    ensures var items, news := marks[..at] + added + marks[at..], News(marks, values);
            |news| == |marks| && AllReal(items) && Olds(items) == Olds(marks)
            && News(items, values) == news[..at] + News(added, values) + news[at..]
  {
    var top, tail := marks[..at], marks[at..];
    assert top + tail == marks;
    AddedBetween(top, added, tail, values);
    hide Olds, News, AllReal;
    assert News(marks, values)[..at] == News(top, values) && News(marks, values)[at..] == News(tail, values);
  }

  lemma AddedBetween(top: seq<Item>, added: seq<Item>, tail: seq<Item>, values: seq<Setting>)
    requires Olds(added) == [] && AllReal(top + tail) && AllReal(added)
    ensures AllReal(top + added + tail) && Olds(top + added + tail) == Olds(top + tail)
    ensures News(top + tail, values) == News(top, values) + News(tail, values)
    ensures |News(top, values)| == |top| && |News(tail, values)| == |tail|
    ensures News(top + added + tail, values) == News(top, values) + News(added, values) + News(tail, values)
  {
    hide Olds, News, AllReal;
    OldsJoin(top, tail);
    OldsJoin(top, added);
    OldsJoin(top + added, tail);
    NewsJoin(top, tail, values);
    NewsJoin(tail, [], values);
    NewsJoin(top, added, values);
    NewsJoin(top + added, tail, values);
    AllRealJoin(top, tail);
    AllRealJoin(top, added);
    AllRealJoin(top + added, tail);
  }

  lemma ItemsAre(lines: seq<string>, section: string, values: seq<Setting>)
    requires Keyed(values)
    ensures var p, items := SplitAt(lines, section), Items(lines, section, KeysOf(values));
            Olds(items) == p.before + p.body + p.after
            && News(items, values) == p.before + EditBody(p.body, values) + p.after
            && AllReal(items)
  {
    hide EditBody, BodyItems, SplitAt, Keyed;
    var p := SplitAt(lines, section);
    var a, b, c := SameAll(p.before), BodyItems(p.body, KeysOf(values)), SameAll(p.after);
    BodyItemsAre(p.body, values);
    SameAllIs(p.before, values);
    SameAllIs(p.after, values);
    OldsJoin(a, b);
    OldsJoin(a + b, c);
    NewsJoin(a, b, values);
    NewsJoin(a + b, c, values);
    AllRealJoin(a, b);
    AllRealJoin(a + b, c);
  }

  lemma SplitJoins(lines: seq<string>, section: string)
    ensures var p := SplitAt(lines, section); p.before + p.body + p.after == lines
  {
    hide Strip, IsHeader;
    LocateMeans(lines, HeaderOf(section), 0);
    match Locate(lines, HeaderOf(section), 0)
    case None =>
    case Some(start) => NextHeaderMeans(lines, start + 1);
  }

  // ---- every key at one place --------------------------------------------

  /** The items write what is in `todo` but not in `left`, each key once. */
  predicate Pays(items: seq<Item>, todo: set<string>, left: set<string>) {
    if items == [] then todo == left
    else if items[0].Same? then Pays(items[1..], todo, left)
    else items[0].key in todo && Pays(items[1..], todo - {items[0].key}, left)
  }

  lemma {:induction false} PaysAll(items: seq<Item>, todo: set<string>)
    ensures Pays(items, todo, {}) <==> Owed(items, todo)
  {
    if items != [] {
      PaysAll(items[1..], NextTodo(items[0], todo));
    }
  }

  lemma {:induction false} PaysJoin(a: seq<Item>, b: seq<Item>, todo: set<string>, mid: set<string>, left: set<string>)
    requires Pays(a, todo, mid) && Pays(b, mid, left)
    ensures Pays(a + b, todo, left)
  {
    if a == [] {
      assert a + b == b;
    } else {
      assert (a + b)[1..] == a[1..] + b;
      PaysJoin(a[1..], b, NextTodo(a[0], todo), mid, left);
    }
  }

  lemma {:induction false} SamePays(items: seq<Item>, todo: set<string>)
    requires forall i :: 0 <= i < |items| ==> items[i].Same?
    ensures Pays(items, todo, todo)
  {
    if items != [] {
      SamePays(items[1..], todo);
    }
  }

  lemma {:induction false} PaysBefore(a: seq<Item>, b: seq<Item>, todo: set<string>, left: set<string>)
    requires Pays(a + b, todo, left) && forall i :: 0 <= i < |b| ==> b[i].Same?
    ensures Pays(a, todo, left)
  {
    if a == [] {
      assert a + b == b;
      SamePays(b, todo);
      PaysSame(b, todo, left);
    } else {
      assert (a + b)[1..] == a[1..] + b;
      PaysBefore(a[1..], b, NextTodo(a[0], todo), left);
    }
  }

  lemma {:induction false} PaysSame(b: seq<Item>, todo: set<string>, left: set<string>)
    requires Pays(b, todo, left) && forall i :: 0 <= i < |b| ==> b[i].Same?
    ensures todo == left
  {
    if b != [] {
      PaysSame(b[1..], todo, left);
    }
  }

  function KeySet(values: seq<Setting>): set<string> { set k | k in KeysOf(values) }

  lemma RemoveFromSet(values: seq<Setting>, key: string)
    requires Keyed(values)
    ensures KeySet(Remove(values, key)) == KeySet(values) - {key}
  {
    hide KeysOf, Keyed, Has, Remove;
    RemoveMeans(values, key);
    KeysAre(values);
    KeysAre(Remove(values, key));
  }

  lemma {:induction false} MarksPay(body: seq<string>, rem: seq<Setting>)
    requires Keyed(rem)
    ensures Pays(Mark(body, KeysOf(rem)).0, KeySet(rem), KeySet(Replace(body, rem).1))
    decreases |body|
  {
    if body != [] {
      KeysAre(rem);
      hide EditorKey, Has, LineFor, ValueOf;
      var key, rest := EditorKey(body[0]), body[1..];
      var marks := Mark(body, KeysOf(rem)).0;
      if key.Some? && Has(rem, key.value) {
        RemoveMeans(rem, key.value);
        RemoveFromSet(rem, key.value);
        KeysRemoved(rem, key.value);
        hide Remove, Keyed, KeysOf;
        MarksPay(rest, Remove(rem, key.value));
        assert marks[1..] == Mark(rest, KeysOf(Remove(rem, key.value))).0;
      } else {
        hide Keyed, KeysOf;
        MarksPay(rest, rem);
        assert marks[1..] == Mark(rest, KeysOf(rem)).0;
      }
    }
  }

  lemma {:induction false} AddedPay(added: seq<Setting>)
    requires Keyed(added)
    ensures Pays(AddedAll(KeysOf(added)), KeySet(added), {})
  {
    if added != [] {
      var rest, items := added[1..], AddedAll(KeysOf(added));
      assert KeysOf(added)[1..] == KeysOf(rest) && items[1..] == AddedAll(KeysOf(rest));
      HeadIsDistinct(added);
      KeysAre(added);
      KeysAre(rest);
      HasCons(added);
      hide Has;
      assert KeySet(rest) == KeySet(added) - {added[0].key};
      AddedPay(rest);
    }
  }

  /** Blank lines are never marked. */
  lemma {:induction false} BlankIsSame(body: seq<string>, keys: seq<string>, i: nat)
    requires i < |body| && IsBlank(body[i])
    ensures Mark(body, keys).0[i].Same?
    decreases |body|
  {
    hide EditorKey, IsBlank;
    if i == 0 {
      BlankHasNoKey(body[0]);
    } else {
      var key := EditorKey(body[0]);
      BlankIsSame(body[1..], if key.Some? && key.value in keys then Without(keys, key.value) else keys, i - 1);
    }
  }

  lemma BodyOwed(body: seq<string>, values: seq<Setting>)
    requires Keyed(values)
    ensures Pays(BodyItems(body, KeysOf(values)), KeySet(values), {})
  {
    hide Replace, SortByKey, Keyed, Has, InsertAt, KeysOf, IsBlank, Mark, LinesFor;
    var (marks, _) := Mark(body, KeysOf(values));
    var left := Replace(body, values).1;
    MarkIsReplace(body, values, values);
    MarksPay(body, values);
    SortMeans(left);
    KeysSorted(left);
    KeysAre(left);
    KeysAre(SortByKey(left));
    assert KeySet(SortByKey(left)) == KeySet(left);
    AddedPay(SortByKey(left));
    BlanksBelow(body);
    var at, added := InsertAt(body), AddedAll(SortKeys(KeysOf(left)));
    var top, tail := marks[..at], marks[at..];
    forall i | 0 <= i < |tail| ensures tail[i].Same? {
      BlankIsSame(body, KeysOf(values), at + i);
    }
    assert top + tail == marks;
    PaysBefore(top, tail, KeySet(values), KeySet(left));
    PaysJoin(top, added, KeySet(values), KeySet(left), {});
    SamePays(tail, {});
    PaysJoin(top + added, tail, KeySet(values), {}, {});
  }

  lemma ItemsOwed(lines: seq<string>, section: string, values: seq<Setting>)
    requires Keyed(values)
    ensures Owed(Items(lines, section, KeysOf(values)), KeySet(values))
  {
    hide BodyItems, SplitAt, Keyed, KeySet;
    var p, keys := SplitAt(lines, section), KeySet(values);
    var a, b, c := SameAll(p.before), BodyItems(p.body, KeysOf(values)), SameAll(p.after);
    BodyOwed(p.body, values);
    SameAllIs(p.before, values);
    SameAllIs(p.after, values);
    SamePays(a, keys);
    SamePays(c, {});
    PaysJoin(a, b, keys, keys, {});
    PaysJoin(a + b, c, keys, {}, {});
    PaysAll(a + b + c, keys);
  }

  // ---- a file the editor finds the header in -----------------------------

  lemma StartAbreast(section: string, values: seq<Setting>, keys: seq<string>, todo: set<string>)
    requires forall k :: k in keys ==> k in todo
    ensures Abreast(FIRST, FIRST, section, values, keys, todo, false)
  {
    hide Text, Strip, ValueFor;
  }

  lemma ValuesUnbroken(values: seq<Setting>)
    requires Keyed(values)
    ensures OneLiners(values, KeysOf(values))
  {
    hide PlainKey, Strip;
    KeysAre(values);
    forall k | k in KeysOf(values) ensures NoBreak(Strip(ValueFor(values, k))) {
      PlainOf(values, k);
      StripKeepsUnbroken(ValueOf(values, k));
    }
  }

  lemma {:induction false} LeftKeepsNoBreak(v: string)
    requires NoBreak(v)
    ensures NoBreak(StripLeft(v))
  {
    if v != "" && IsSpace(v[0]) {
      forall i | 0 <= i < |v[1..]| ensures v[1..][i] != '\n' { assert v[1..][i] == v[i + 1]; }
      LeftKeepsNoBreak(v[1..]);
    }
  }

  lemma StripKeepsUnbroken(v: string)
    requires Unbroken(v)
    ensures NoBreak(Strip(v))
  {
    assert NoBreak(v) by {
      forall i | 0 <= i < |v| ensures v[i] != '\n' { assert !IsBreak(v[i]); }
    }
    hide StripRight;
    LeftKeepsNoBreak(v);
    StripRightCuts(StripLeft(v));
  }

  /** The checks on a file that has the header are enough for every write. */
  lemma ChecksSafe(w: seq<string>, section: string, values: seq<Setting>)
    requires Keyed(values) && Load(w).Reading?
    requires Checked(FIRST, Items(w, section, KeysOf(values)), section, KeysOf(values), false)
    ensures var p := SplitAt(w, section);
            Matches(Load(w), Load(p.before + EditBody(p.body, values) + p.after), section, values, KeysOf(values))
  {
    hide Matches, Abreast, Checked, ReadOn, EditBody, SplitAt, Keyed, Items, KeysOf, Olds, News, Owed, AllReal;
    var keys, items, todo := KeysOf(values), Items(w, section, KeysOf(values)), KeySet(values);
    ItemsAre(w, section, values);
    SplitJoins(w, section);
    ItemsOwed(w, section, values);
    StartAbreast(section, values, keys, todo);
    var last := ChecksSuffice(FIRST, FIRST, items, section, values, keys, todo, false);
    AbreastMatches(Load(w), ReadOn(FIRST, News(items, values)), section, values, keys, last);
  }

  /** No option has a value that is being written. */
  ghost predicate NewValues(lines: seq<string>, values: seq<Setting>) {
    forall i, k :: 0 <= i < |lines| && KindOf(lines[i]).Option? && Has(values, k) ==>
      KindOf(lines[i]).setting.value != Strip(ValueOf(values, k))
  }

  lemma {:induction false} SameIsOld(items: seq<Item>, i: nat)
    requires i < |items| && items[i].Same?
    ensures items[i].line in Olds(items)
  {
    if i > 0 {
      SameIsOld(items[1..], i - 1);
    }
  }

  lemma NewValuesAllNew(items: seq<Item>, values: seq<Setting>)
    requires NewValues(Olds(items), values)
    ensures AllNew(items, values, KeysOf(values))
  {
    hide Has, KindOf, Strip, Olds, KeysOf, ValueOf;
    KeysAre(values);
    forall i, k | 0 <= i < |items| && items[i].Same? && KindOf(items[i].line).Option? && k in KeysOf(values)
      ensures KindOf(items[i].line).setting.value != Strip(ValueFor(values, k))
    {
      SameIsOld(items, i);
    }
  }

  lemma ChecksNecessary(w: seq<string>, section: string, values: seq<Setting>)
    requires Keyed(values) && NewValues(w, values) && Load(w).Reading?
    requires var p := SplitAt(w, section);
             Matches(Load(w), Load(p.before + EditBody(p.body, values) + p.after), section, values, KeysOf(values))
    ensures Checked(FIRST, Items(w, section, KeysOf(values)), section, KeysOf(values), false)
  {
    hide Matches, Abreast, Checked, ReadOn, EditBody, SplitAt, Keyed, Items, KeysOf, Olds, News, Owed, AllReal,
         NewValues, AllNew, OneLiners;
    var keys, items, todo := KeysOf(values), Items(w, section, KeysOf(values)), KeySet(values);
    ItemsAre(w, section, values);
    SplitJoins(w, section);
    ItemsOwed(w, section, values);
    StartAbreast(section, values, keys, todo);
    NewValuesAllNew(items, values);
    ValuesUnbroken(values);
    ChecksNeeded(FIRST, FIRST, items, section, values, keys, todo, false);
  }

  // ---- a file the editor misses the header in ----------------------------

  lemma {:induction false} NameEndsThere(s: string, n: nat)
    requires 0 < n <= |s| && s[n - 1] == ']' && forall i :: n <= i < |s| ==> s[i] != ']'
    ensures LastBracket(s) == Some(n - 1)
    decreases |s|
  {
    if n < |s| {
      NameEndsThere(s[..|s| - 1], n);
    }
  }

  lemma HeaderIsRead(section: string)
    requires section != ""
    ensures KindOf(HeaderOf(section)) == Header(section) && Indent(HeaderOf(section)) == 0
  {
    var h := HeaderOf(section);
    HeaderStrips(section);
    NameEndsThere(h, |h|);
    hide Strip, LastBracket;
    assert h[1..|h| - 1] == section;
  }

  /** Appending the header: the file loads on if the reader has not seen the
      section, and nothing that was read changes. */
  lemma AppendedHeader(lines: seq<string>, section: string)
    requires Load(lines).Reading?
    ensures var t := Load(lines + ["", HeaderOf(section)]);
            (t.Reading? <==> section != "" && section !in Load(lines).names)
            && (t.Reading? ==> forall name :: Get(t, name) == Get(Load(lines), name))
  {
    var r, h := Load(lines), HeaderOf(section);
    var t := Append(r, "");
    ReadOnSound(FIRST, lines);
    ReadJoin(FIRST, lines, ["", h]);
    assert ["", h][1..] == [h] && [h][1..] == [];
    hide ReadOn;
    TwoReads(r, h);
    BlankKeepsTexts(r);
    assert t.names == r.names;
    if section != "" {
      HeaderIsRead(section);
    } else {
      EmptyHeader();
    }
    hide KindOf, Indent, HeaderOf, Strip, Text, Append;
  }

  lemma TwoReads(r: Reader, h: string)
    requires r.Reading?
    ensures ReadOn(r, ["", h]) == Read(Append(r, ""), h)
  {
    var s := ["", h];
    EmptyStrips();
    assert Read(r, "") == Append(r, "") by { hide Append; }
    hide Read, Append;
    assert s[0] == "" && s[1..] == [h] && [h][0] == h && [h][1..] == [];
    assert ReadOn(r, s) == ReadOn(Read(r, ""), [h]);
    assert ReadOn(Append(r, ""), [h]) == ReadOn(Read(Append(r, ""), h), []);
  }

  lemma EmptyHeader()
    ensures KindOf(HeaderOf("")).Junk? && Indent(HeaderOf("")) == 0
  {
    HeaderStrips("");
    var h := HeaderOf("");
    NameEndsThere(h, 2);
    hide Strip, LastBracket;
    NotBefore(h, '=', 2);
    NotBefore(h, ':', 2);
  }

  /** With its header missed, the section is edited at the end of the file. */
  lemma MissedIsAppended(lines: seq<string>, section: string, values: seq<Setting>)
    requires Locate(lines, HeaderOf(section), 0).None?
    ensures WithSection(lines, section) <= EditFile(lines, section, values)
  {
    hide EditBody;
    AppendedAt(lines, section);
  }

  /** If the file with the header does not load, nor does the written one. */
  lemma BrokenStaysBroken(lines: seq<string>, section: string, values: seq<Setting>)
    requires Load(lines).Reading? && Load(WithSection(lines, section)).Failed?
    ensures Load(EditFile(lines, section, values)).Failed?
  {
    var w, now := WithSection(lines, section), EditFile(lines, section, values);
    MissedIsAppended(lines, section, values);
    assert now == w + now[|w|..];
    hide EditFile, Read;
    ReadJoin(FIRST, w, now[|w|..]);
    FailedStays(now[|w|..]);
  }

  lemma SameGets(lines: seq<string>, section: string)
    requires Load(lines).Reading? && Load(WithSection(lines, section)).Reading?
    ensures forall name :: Get(Load(WithSection(lines, section)), name) == Get(Load(lines), name)
  {
    hide Get, Load;
    if Locate(lines, HeaderOf(section), 0).None? {
      AppendedHeader(lines, section);
    }
  }

  // ---- when a write reads back -------------------------------------------

  /** A file that passes the checks is safe to write: the written file loads,
      the written keys read as their new values, nothing else changes. */
  lemma CheckedWriteReadsBack(lines: seq<string>, section: string, values: seq<Setting>)
    requires Load(lines).Reading? && Keyed(values) && Checks(lines, section, KeysOf(values))
    ensures ReadsBack(lines, section, values)
  {
    hide Get, Load, Checked, WithSection, SplitAt, EditBody, Keyed, Items;
    SameGets(lines, section);
    ChecksSafe(WithSection(lines, section), section, values);
  }

  /** Values no option has yet read back only from a file that passes. */
  lemma NewWriteReadsBackIff(lines: seq<string>, section: string, values: seq<Setting>)
    requires Load(lines).Reading? && Keyed(values) && NewValues(lines, values)
    ensures ReadsBack(lines, section, values) <==> Checks(lines, section, KeysOf(values))
  {
    if Checks(lines, section, KeysOf(values)) {
      CheckedWriteReadsBack(lines, section, values);
    }
    if ReadsBack(lines, section, values) {
      var w := WithSection(lines, section);
      if Load(w).Failed? {
        BrokenStaysBroken(lines, section, values);
      } else {
        hide Get, Load, Checked, WithSection, SplitAt, EditBody, Keyed, Items, NewValues;
        SameGets(lines, section);
        NewInLonger(lines, section, values);
        ChecksNecessary(w, section, values);
      }
    }
  }

  lemma NewInLonger(lines: seq<string>, section: string, values: seq<Setting>)
    requires Load(WithSection(lines, section)).Reading? && NewValues(lines, values)
    ensures NewValues(WithSection(lines, section), values)
  {
    hide Has, Strip, ValueOf, KindOf, Load;
    var w := WithSection(lines, section);
    if w != lines {
      EmptyIsBlank();
      if section != "" { HeaderIsRead(section); } else { EmptyHeader(); }
      assert |w| == |lines| + 2 && w[|lines|] == "" && w[|lines| + 1] == HeaderOf(section);
      forall i | 0 <= i < |w| && KindOf(w[i]).Option? ensures i < |lines| && w[i] == lines[i] {
      }
    }
  }

  lemma EmptyIsBlank()
    ensures KindOf("").Blank?
  {
    EmptyStrips();
  }

  // Values no line can have: longer than every line.

  function Longest(lines: seq<string>): (n: nat)
    ensures forall i :: 0 <= i < |lines| ==> |lines[i]| <= n
  {
    if lines == [] then 0
    else
      var n := Longest(lines[1..]);
      assert forall i :: 0 < i < |lines| ==> lines[i] == lines[1..][i - 1];
      if |lines[0]| > n then |lines[0]| else n
  }

  function Xs(n: nat): (s: string)
    ensures |s| == n && forall i :: 0 <= i < n ==> s[i] == 'x'
  {
    seq(n, _ => 'x')
  }

  function Filled(keys: seq<string>, v: string): seq<Setting> {
    if keys == [] then [] else [Setting(keys[0], v)] + Filled(keys[1..], v)
  }

  predicate PlainKeys(keys: seq<string>) {
    (forall i :: 0 <= i < |keys| ==> PlainKey(keys[i])) && forall i, j :: 0 <= i < j < |keys| ==> keys[i] != keys[j]
  }

  lemma {:induction false} FilledIs(keys: seq<string>, v: string)
    requires PlainKeys(keys) && Unbroken(v)
    ensures KeysOf(Filled(keys, v)) == keys && Keyed(Filled(keys, v))
    ensures forall k :: Has(Filled(keys, v), k) ==> ValueOf(Filled(keys, v), k) == v
  {
    if keys != [] {
      var rest, f := Filled(keys[1..], v), Filled(keys, v);
      hide PlainKey, Unbroken;
      FilledIs(keys[1..], v);
      assert f[1..] == rest && [keys[0]] + keys[1..] == keys;
      KeysAre(rest);
      forall j | 0 <= j < |rest| ensures rest[j].key != keys[0] {
        assert Has(rest, rest[j].key) && rest[j].key in keys[1..];
      }
      KeyedCons(f[0], rest);
      HasCons(f);
    }
  }

  lemma StripShortens(s: string)
    ensures |Strip(s)| <= |s|
  {
    StripLeftShortens(s);
    StripRightIsPrefix(StripLeft(s));
  }

  lemma ValueIsShorter(line: string)
    ensures KindOf(line).Option? ==> |KindOf(line).setting.value| <= |line|
  {
    var s := Strip(line);
    StripShortens(line);
    hide StripLeft, StripRight;
    match Delimiter(s)
    case None =>
    case Some(i) => StripShortens(s[i + 1..]);
  }

  lemma XsAreNew(lines: seq<string>, keys: seq<string>)
    requires PlainKeys(keys)
    ensures var values := Filled(keys, Xs(Longest(lines) + 1));
            Keyed(values) && KeysOf(values) == keys && NewValues(lines, values)
  {
    var v := Xs(Longest(lines) + 1);
    assert Unbroken(v) by {
      forall i | 0 <= i < |v| ensures !IsBreak(v[i]) { assert v[i] == 'x'; }
    }
    assert Strip(v) == v by {
      assert v[0] == 'x' && v[|v| - 1] == 'x';
      StripClean(v);
    }
    FilledIs(keys, v);
    hide Strip, KindOf, Filled, Unbroken, Keyed, KeysOf, Has;
    forall i | 0 <= i < |lines| ensures KindOf(lines[i]).Option? ==> KindOf(lines[i]).setting.value != v {
      ValueIsShorter(lines[i]);
    }
  }

  /** Which files are safe to write these keys to, whatever their values. */
  lemma WriteReadsBackIff(lines: seq<string>, section: string, keys: seq<string>)
    requires Load(lines).Reading? && PlainKeys(keys)
    ensures (forall values :: Keyed(values) && KeysOf(values) == keys ==> ReadsBack(lines, section, values))
            <==> Checks(lines, section, keys)
  {
    hide Checks, ReadsBack, Keyed, KeysOf, NewValues, Load, Filled;
    if Checks(lines, section, keys) {
      forall values | Keyed(values) && KeysOf(values) == keys ensures ReadsBack(lines, section, values) {
        CheckedWriteReadsBack(lines, section, values);
      }
    }
    if forall values :: Keyed(values) && KeysOf(values) == keys ==> ReadsBack(lines, section, values) {
      XsAreNew(lines, keys);
      NewWriteReadsBackIff(lines, section, Filled(keys, Xs(Longest(lines) + 1)));
    }
  }
}
