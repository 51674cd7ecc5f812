/** The settings writer, which edits the file's lines in place. */
module IniEditing {
  import opened Bytes
  import opened HeaderBlock
  import opened TextLines
  import opened IniReading
  import opened IniLines

  // ---- the section's body ------------------------------------------------

  predicate Keyed(values: seq<Setting>) {
    (forall i :: 0 <= i < |values| ==> PlainSetting(values[i]))
    && forall i, j :: 0 <= i < j < |values| ==> values[i].key != values[j].key
  }

  predicate Has(values: seq<Setting>, key: string) { exists i :: 0 <= i < |values| && values[i].key == key }

  function Remove(values: seq<Setting>, key: string): (r: seq<Setting>)
    ensures |r| <= |values|
  {
    if values == [] then []
    else if values[0].key == key then values[1..]
    else [values[0]] + Remove(values[1..], key)
  }

  function ValueOf(values: seq<Setting>, key: string): string
    requires Has(values, key)
  {
    if values[0].key == key then values[0].value
    else
      assert Has(values[1..], key) by {
        var i :| 0 <= i < |values| && values[i].key == key;
        assert values[1..][i - 1] == values[i];
      }
      ValueOf(values[1..], key)
  }

  lemma {:induction false} RemoveMeans(values: seq<Setting>, key: string)
    requires Keyed(values)
    ensures Keyed(Remove(values, key)) && !Has(Remove(values, key), key)
    ensures forall k :: k != key ==> (Has(Remove(values, key), k) <==> Has(values, k))
    ensures forall k :: k != key && Has(values, k) ==> ValueOf(Remove(values, key), k) == ValueOf(values, k)
  {
    if values != [] {
      var rest := values[1..];
      assert values == [values[0]] + rest;
      RemoveMeans(rest, key);
      var r := Remove(values, key);
      HasCons(values);
      if values[0].key != key {
        HasCons(r);
        assert r[1..] == Remove(rest, key);
        KeyedCons(values[0], Remove(rest, key));
      }
    }
  }

  lemma HasCons(values: seq<Setting>)
    requires values != []
    ensures forall k :: Has(values, k) <==> values[0].key == k || Has(values[1..], k)
  {
    forall k ensures Has(values, k) <==> values[0].key == k || Has(values[1..], k) {
      if Has(values[1..], k) {
        var i :| 0 <= i < |values[1..]| && values[1..][i].key == k;
        assert values[i + 1].key == k;
      }
      if Has(values, k) && values[0].key != k {
        var i :| 0 <= i < |values| && values[i].key == k;
        assert values[1..][i - 1].key == k;
      }
    }
  }

  lemma KeyedCons(p: Setting, rest: seq<Setting>)
    requires PlainSetting(p) && Keyed(rest) && !Has(rest, p.key)
    ensures Keyed([p] + rest)
  {
  }

  /** Rewriting the first line of each key that is already there. */
  function Replace(body: seq<string>, values: seq<Setting>): (seq<string>, seq<Setting>) {
    if body == [] then ([], values)
    else
      var key := EditorKey(body[0]);
      if key.Some? && Has(values, key.value) then
        var (r, left) := Replace(body[1..], Remove(values, key.value));
        ([LineFor(Setting(key.value, ValueOf(values, key.value)))] + r, left)
      else
        var (r, left) := Replace(body[1..], values);
        ([body[0]] + r, left)
  }

  /** Python's order of strings. */
  predicate KeyBefore(a: string, b: string) {
    if b == "" then false
    else if a == "" then true
    else a[0] < b[0] || (a[0] == b[0] && KeyBefore(a[1..], b[1..]))
  }

  function InsertByKey(p: Setting, values: seq<Setting>): (r: seq<Setting>)
    ensures |r| == |values| + 1
  {
    if values == [] || KeyBefore(p.key, values[0].key) then [p] + values
    else [values[0]] + InsertByKey(p, values[1..])
  }

  /** `sorted(remaining)`. */
  function SortByKey(values: seq<Setting>): (r: seq<Setting>)
    ensures |r| == |values|
  {
    if values == [] then [] else InsertByKey(values[0], SortByKey(values[1..]))
  }

  function LinesFor(values: seq<Setting>): seq<string> {
    if values == [] then [] else [LineFor(values[0])] + LinesFor(values[1..])
  }

  /** Where new keys go: before the trailing blank lines. */
  function InsertAt(body: seq<string>): (p: nat)
    ensures p <= |body|
  {
    if body != [] && IsBlank(body[|body| - 1]) then InsertAt(body[..|body| - 1]) else |body|
  }

  function EditBody(body: seq<string>, values: seq<Setting>): seq<string> {
    var (r, left) := Replace(body, values);
    var p := InsertAt(r);
    r[..p] + LinesFor(SortByKey(left)) + r[p..]
  }

  predicate InKeyOrder(values: seq<Setting>) {
    forall i, j :: 0 <= i < j < |values| ==> KeyBefore(values[i].key, values[j].key)
  }

  /** Two lists of the same settings. */
  ghost predicate SameSettings(a: seq<Setting>, b: seq<Setting>) {
    |a| == |b| && forall k :: (Has(a, k) <==> Has(b, k)) && (Has(a, k) && Has(b, k) ==> ValueOf(a, k) == ValueOf(b, k))
  }

  lemma {:induction false} KeyBeforeIsOrder(a: string, b: string, c: string)
    ensures a == b || KeyBefore(a, b) || KeyBefore(b, a)
    ensures KeyBefore(a, b) && KeyBefore(b, c) ==> KeyBefore(a, c)
    decreases |a| + |b| + |c|
  {
    if a != "" && b != "" {
      assert a == [a[0]] + a[1..] && b == [b[0]] + b[1..];
      KeyBeforeIsOrder(a[1..], b[1..], if c == "" then "" else c[1..]);
    }
  }

  /** Which is first: the one that stops first, or the lower character where
      they part. */
  lemma {:induction false} KeyBeforeIff(a: string, b: string)
    ensures KeyBefore(a, b)
       <==> exists n: nat :: n <= |a| && n < |b| && a[..n] == b[..n] && (n == |a| || a[n] < b[n])
  {
    if KeyBefore(a, b) {
      var n := WhereTheyPart(a, b);
    }
    if n: nat :| n <= |a| && n < |b| && a[..n] == b[..n] && (n == |a| || a[n] < b[n]) {
      PartsBefore(a, b, n);
    }
  }

  lemma {:induction false} WhereTheyPart(a: string, b: string) returns (n: nat)
    requires KeyBefore(a, b)
    ensures n <= |a| && n < |b| && a[..n] == b[..n] && (n == |a| || a[n] < b[n])
  {
    n := 0;
    if a != "" && a[0] == b[0] {
      var m := WhereTheyPart(a[1..], b[1..]);
      n := m + 1;
      assert a[..n] == [a[0]] + a[1..][..m] && b[..n] == [b[0]] + b[1..][..m];
    }
  }

  lemma {:induction false} PartsBefore(a: string, b: string, n: nat)
    requires n <= |a| && n < |b| && a[..n] == b[..n] && (n == |a| || a[n] < b[n])
    ensures KeyBefore(a, b)
  {
    if n > 0 {
      assert a[0] == a[..n][0] == b[..n][0] == b[0];
      assert a[1..][..n - 1] == a[..n][1..] && b[1..][..n - 1] == b[..n][1..];
      PartsBefore(a[1..], b[1..], n - 1);
    }
  }

  lemma {:induction false} InsertByKeyMeans(p: Setting, values: seq<Setting>)
    requires Keyed(values) && InKeyOrder(values) && PlainSetting(p) && !Has(values, p.key)
    ensures var r := InsertByKey(p, values);
            Keyed(r) && InKeyOrder(r) && SameSettings(r, [p] + values)
    decreases |values|
  {
    hide KeyBefore, PlainSetting;
    var r := InsertByKey(p, values);
    if values == [] || KeyBefore(p.key, values[0].key) {
      forall j | 0 <= j < |values| ensures KeyBefore(p.key, values[j].key) {
        KeyBeforeIsOrder(p.key, values[0].key, values[j].key);
      }
      KeyedCons(p, values);
    } else {
      var first, rest := values[0], values[1..];
      assert values == [first] + rest;
      HasCons(values);
      InsertByKeyMeans(p, rest);
      assert r == [first] + InsertByKey(p, rest);
      KeyBeforeIsOrder(p.key, first.key, "");
      HeadIsDistinct(values);
      SwapFirst(p, first, rest, InsertByKey(p, rest));
    }
  }

  lemma SwapFirst(p: Setting, first: Setting, rest: seq<Setting>, inner: seq<Setting>)
    requires PlainSetting(first) && Keyed(inner) && InKeyOrder(inner) && SameSettings(inner, [p] + rest)
    requires p.key != first.key && !Has(rest, first.key) && KeyBefore(first.key, p.key)
    requires forall j :: 0 <= j < |rest| ==> KeyBefore(first.key, rest[j].key)
    ensures Keyed([first] + inner) && InKeyOrder([first] + inner)
    ensures SameSettings([first] + inner, [p] + ([first] + rest))
  {
    hide KeyBefore, PlainSetting;
    var a, b := [first] + inner, [p] + ([first] + rest);
    assert a[1..] == inner && b[1..] == [first] + rest && b[1..][1..] == rest && ([p] + rest)[1..] == rest;
    HasCons(a);
    HasCons(b);
    HasCons(b[1..]);
    HasCons([p] + rest);
    KeyedCons(first, inner);
    forall k ensures (Has(a, k) <==> Has(b, k)) && (Has(a, k) && Has(b, k) ==> ValueOf(a, k) == ValueOf(b, k)) {
      assert Has(inner, k) <==> Has([p] + rest, k);
      if k != first.key && Has(a, k) {
        assert ValueOf(a, k) == ValueOf(inner, k) == ValueOf([p] + rest, k);
      }
    }
    forall j | 0 <= j < |inner| ensures KeyBefore(first.key, inner[j].key) {
      assert Has(inner, inner[j].key) && Has([p] + rest, inner[j].key);
      if inner[j].key != p.key {
        var i :| 0 <= i < |rest| && rest[i].key == inner[j].key;
      }
    }
  }

  /** Sorting keeps the settings and orders their keys. */
  lemma {:induction false} SortMeans(values: seq<Setting>)
    requires Keyed(values)
    ensures Keyed(SortByKey(values)) && InKeyOrder(SortByKey(values)) && SameSettings(SortByKey(values), values)
    decreases |values|
  {
    if values != [] {
      hide KeyBefore, PlainSetting;
      var first, rest := values[0], values[1..];
      var sorted := SortByKey(rest);
      assert values == [first] + rest && Keyed(rest);
      SortMeans(rest);
      HeadIsDistinct(values);
      InsertByKeyMeans(first, sorted);
      assert ([first] + sorted)[1..] == sorted;
      HasCons(values);
      HasCons([first] + sorted);
    }
  }

  lemma HeadIsDistinct(left: seq<Setting>)
    requires Keyed(left) && left != []
    ensures !Has(left[1..], left[0].key)
  {
    forall i | 0 <= i < |left[1..]| ensures left[1..][i].key != left[0].key {
      assert left[1..][i] == left[i + 1];
    }
  }

  /** The point is after the last line that is not blank. */
  lemma {:induction false} BlanksBelow(body: seq<string>)
    ensures forall i :: InsertAt(body) <= i < |body| ==> IsBlank(body[i])
    ensures InsertAt(body) > 0 ==> !IsBlank(body[InsertAt(body) - 1])
    decreases |body|
  {
    if body != [] && IsBlank(body[|body| - 1]) {
      BlanksBelow(body[..|body| - 1]);
    }
  }

  // ---- what is left alone ------------------------------------------------

  predicate Touches(line: string, values: seq<Setting>) {
    EditorKey(line).Some? && Has(values, EditorKey(line).value)
  }

  /** Comments, blanks and every line of other keys, in order. */
  function Others(body: seq<string>, values: seq<Setting>): seq<string> {
    if body == [] then []
    else (if Touches(body[0], values) then [] else [body[0]]) + Others(body[1..], values)
  }

  lemma {:induction false} OthersJoin(a: seq<string>, b: seq<string>, values: seq<Setting>)
    ensures Others(a + b, values) == Others(a, values) + Others(b, values)
  {
    if a == [] {
      assert a + b == b;
    } else {
      assert (a + b)[1..] == a[1..] + b;
      OthersJoin(a[1..], b, values);
    }
  }

  lemma PlainOf(values: seq<Setting>, key: string)
    requires Keyed(values) && Has(values, key)
    ensures PlainSetting(Setting(key, ValueOf(values, key)))
  {
    hide PlainKey, Unbroken;
    if values[0].key != key {
      HasCons(values);
      PlainOf(values[1..], key);
    }
  }

  lemma {:induction false} ReplaceKeepsOthers(body: seq<string>, rem: seq<Setting>, values: seq<Setting>)
    requires Keyed(rem) && forall k :: Has(rem, k) ==> Has(values, k)
    ensures Others(Replace(body, rem).0, values) == Others(body, values)
    ensures forall k :: Has(Replace(body, rem).1, k) ==> Has(rem, k)
    ensures Keyed(Replace(body, rem).1)
    decreases |body|
  {
    if body != [] {
      hide EditorKey, Has, PlainKey, LineFor, ValueOf;
      var ek := EditorKey(body[0]);
      if ek.Some? && Has(rem, ek.value) {
        PlainOf(rem, ek.value);
        RemoveMeans(rem, ek.value);
        WrittenLine(Setting(ek.value, ValueOf(rem, ek.value)));
        ReplaceKeepsOthers(body[1..], Remove(rem, ek.value), values);
      } else {
        ReplaceKeepsOthers(body[1..], rem, values);
      }
    }
  }

  lemma {:induction false} NewLinesTouch(left: seq<Setting>, values: seq<Setting>)
    requires Keyed(left) && forall k :: Has(left, k) ==> Has(values, k)
    ensures Others(LinesFor(left), values) == []
  {
    if left != [] {
      HasCons(left);
      WrittenLine(left[0]);
      NewLinesTouch(left[1..], values);
    }
  }

  /** Every line that does not assign a written key survives, unchanged and in
      order. */
  lemma OthersSurvive(body: seq<string>, values: seq<Setting>)
    requires Keyed(values)
    ensures Others(EditBody(body, values), values) == Others(body, values)
  {
    hide Others, Has, LinesFor, SortByKey, Replace, Keyed, InsertAt;
    var (r, left) := Replace(body, values);
    var p, added := InsertAt(r), LinesFor(SortByKey(left));
    ReplaceKeepsOthers(body, values, values);
    SortMeans(left);
    NewLinesTouch(SortByKey(left), values);
    OthersJoin(r[..p], added + r[p..], values);
    OthersJoin(added, r[p..], values);
    OthersJoin(r[..p], r[p..], values);
    assert r[..p] + r[p..] == r;
    assert r[..p] + added + r[p..] == r[..p] + (added + r[p..]);
  }

  // ---- what every line keeps ---------------------------------------------

  predicate AllGood(good: string -> bool, s: seq<string>) { forall i :: 0 <= i < |s| ==> good(s[i]) }

  /** Every line that can be written is good. */
  ghost predicate GoodWhenWritten(good: string -> bool) { forall p :: PlainSetting(p) ==> good(LineFor(p)) }

  lemma {:induction false} ReplaceKeepsGood(body: seq<string>, values: seq<Setting>, good: string -> bool)
    requires Keyed(values) && AllGood(good, body) && GoodWhenWritten(good)
    ensures AllGood(good, Replace(body, values).0)
    decreases |body|
  {
    if body != [] {
      hide EditorKey, Has, PlainSetting, LineFor, ValueOf;
      var ek := EditorKey(body[0]);
      if ek.Some? && Has(values, ek.value) {
        PlainOf(values, ek.value);
        RemoveMeans(values, ek.value);
        ReplaceKeepsGood(body[1..], Remove(values, ek.value), good);
      } else {
        ReplaceKeepsGood(body[1..], values, good);
      }
    }
  }

  lemma {:induction false} NewLinesGood(left: seq<Setting>, good: string -> bool)
    requires Keyed(left) && GoodWhenWritten(good)
    ensures AllGood(good, LinesFor(left))
  {
    if left != [] {
      hide LineFor, PlainSetting;
      NewLinesGood(left[1..], good);
    }
  }

  /** What holds of the old lines and of written ones holds after the edit. */
  lemma EditKeepsGood(body: seq<string>, values: seq<Setting>, good: string -> bool)
    requires Keyed(values) && AllGood(good, body) && GoodWhenWritten(good)
    ensures AllGood(good, EditBody(body, values))
  {
    hide GoodWhenWritten, Replace, LinesFor, SortByKey, Keyed;
    ReplaceKeepsGood(body, values, good);
    ReplaceKeepsOthers(body, values, values);
    SortMeans(Replace(body, values).1);
    NewLinesGood(SortByKey(Replace(body, values).1), good);
  }

  // ---- writing twice -----------------------------------------------------

  lemma {:induction false} ReplaceJoin(a: seq<string>, b: seq<string>, values: seq<Setting>)
    ensures Replace(a + b, values)
         == (var (r, left) := Replace(a, values);
             (r + Replace(b, left).0, Replace(b, left).1))
    decreases |a|
  {
    hide EditorKey, Has, LineFor;
    if a == [] {
      assert a + b == b && [] + Replace(b, values).0 == Replace(b, values).0;
    } else {
      assert (a + b)[1..] == a[1..] + b && (a + b)[0] == a[0];
      var ek := EditorKey(a[0]);
      var rem := if ek.Some? && Has(values, ek.value) then Remove(values, ek.value) else values;
      ReplaceJoin(a[1..], b, rem);
      var first := Replace(a, values).0[0];
      var (r, left) := Replace(a[1..], rem);
      assert Replace(a, values) == ([first] + r, left);
      assert [first] + (r + Replace(b, left).0) == [first] + r + Replace(b, left).0;
    }
  }

  /** The pass run again on its own result changes nothing and leaves the same. */
  lemma {:induction false} ReplaceSettles(body: seq<string>, values: seq<Setting>)
    requires Keyed(values)
    ensures Replace(Replace(body, values).0, values) == Replace(body, values)
    decreases |body|
  {
    if body != [] {
      hide EditorKey, Has, PlainKey, LineFor, ValueOf;
      var ek := EditorKey(body[0]);
      if ek.Some? && Has(values, ek.value) {
        PlainOf(values, ek.value);
        RemoveMeans(values, ek.value);
        WrittenLine(Setting(ek.value, ValueOf(values, ek.value)));
        ReplaceSettles(body[1..], Remove(values, ek.value));
      } else {
        ReplaceSettles(body[1..], values);
      }
    }
  }

  lemma {:induction false} NewLinesSettle(added: seq<Setting>, left: seq<Setting>)
    requires Keyed(added) && Keyed(left) && SameSettings(added, left)
    ensures Replace(LinesFor(added), left) == (LinesFor(added), [])
    decreases |added|
  {
    if added != [] {
      NextToSettle(added, left);
      hide EditorKey, PlainKey, PlainSetting, LineFor, Has, ValueOf, Keyed, SameSettings, Remove, Replace;
      NewLinesSettle(added[1..], Remove(left, added[0].key));
      FirstLineSettles(added[0], LinesFor(added[1..]), left);
    } else {
      hide Replace;
      EmptyReplace(left);
    }
  }

  lemma NextToSettle(added: seq<Setting>, left: seq<Setting>)
    requires added != [] && Keyed(added) && Keyed(left) && SameSettings(added, left)
    ensures var p, rest, sub := added[0], added[1..], Remove(left, added[0].key);
            Keyed(rest) && Keyed(sub) && SameSettings(rest, sub)
            && Has(left, p.key) && ValueOf(left, p.key) == p.value && EditorKey(LineFor(p)) == Some(p.key)
  {
    var p := added[0];
    hide EditorKey, LineFor, Remove;
    FirstIsHad(added);
    WrittenLine(p);
    hide PlainKey, PlainSetting, Has, ValueOf;
    TailSettings(added, left);
    RemoveMeans(left, p.key);
  }

  lemma FirstIsHad(values: seq<Setting>)
    requires values != []
    ensures Has(values, values[0].key) && ValueOf(values, values[0].key) == values[0].value
  {
  }

  lemma FirstLineSettles(p: Setting, lines: seq<string>, left: seq<Setting>)
    requires EditorKey(LineFor(p)) == Some(p.key) && Has(left, p.key) && ValueOf(left, p.key) == p.value
    ensures var (r, rem) := Replace(lines, Remove(left, p.key));
            Replace([LineFor(p)] + lines, left) == ([LineFor(p)] + r, rem)
  {
    hide EditorKey, LineFor, Has, ValueOf, Remove;
    var all := [LineFor(p)] + lines;
    assert all[0] == LineFor(p) && all[1..] == lines;
    assert Setting(p.key, p.value) == p;
  }

  lemma {:induction false} RemoveShrinks(values: seq<Setting>, key: string)
    requires Has(values, key)
    ensures |Remove(values, key)| == |values| - 1
  {
    if values[0].key != key {
      HasCons(values);
      RemoveShrinks(values[1..], key);
    }
  }

  lemma TailSettings(a: seq<Setting>, b: seq<Setting>)
    requires a != [] && Keyed(a) && Keyed(b) && SameSettings(a, b)
    ensures SameSettings(a[1..], Remove(b, a[0].key))
  {
    hide PlainSetting;
    var key, rest, sub := a[0].key, a[1..], Remove(b, a[0].key);
    assert Has(a, key);
    HasCons(a);
    HeadIsDistinct(a);
    RemoveMeans(b, key);
    RemoveShrinks(b, key);
    hide Keyed, Has, Remove;
    forall k ensures (Has(rest, k) <==> Has(sub, k)) && (Has(rest, k) && Has(sub, k) ==> ValueOf(rest, k) == ValueOf(sub, k)) {
      assert Has(a, k) <==> Has(b, k);
      if Has(rest, k) && k != key {
        assert ValueOf(a, k) == ValueOf(rest, k);
      }
    }
  }

  lemma {:induction false} BlanksSettle(body: seq<string>, values: seq<Setting>)
    requires forall i :: 0 <= i < |body| ==> IsBlank(body[i])
    ensures Replace(body, values) == (body, values)
    decreases |body|
  {
    if body != [] {
      BlankHasNoKey(body[0]);
      BlanksSettle(body[1..], values);
      assert [body[0]] + body[1..] == body;
    }
  }

  lemma BlankHasNoKey(line: string)
    requires IsBlank(line)
    ensures EditorKey(line) == None
  {
    var t := StripLeft(line);
    StripLeftStarts(line);
    StripRightCuts(t);
  }

  /** Above the trailing blanks the pass has nothing more to change, and the
      blanks leave it as it is. */
  lemma TopSettles(body: seq<string>, values: seq<Setting>)
    requires Keyed(values)
    ensures var (r, left) := Replace(body, values);
            Replace(r[..InsertAt(r)], values) == (r[..InsertAt(r)], left)
  {
    hide Replace, IsBlank, InsertAt, Keyed;
    var (r, left) := Replace(body, values);
    var top, tail := r[..InsertAt(r)], r[InsertAt(r)..];
    BlanksBelow(r);
    ReplaceSettles(body, values);
    assert top + tail == r;
    ReplaceJoin(top, tail, values);
    var (r1, left1) := Replace(top, values);
    BlanksSettle(tail, left1);
    ReplaceLength(top, values);
    SamePrefix(r1, top, tail);
  }

  lemma SamePrefix(a: seq<string>, b: seq<string>, tail: seq<string>)
    requires a + tail == b + tail && |a| == |b|
    ensures a == b
  {
    assert (a + tail)[..|a|] == a && (b + tail)[..|b|] == b;
  }

  /** A second identical write changes nothing. */
  lemma EditIsIdempotent(body: seq<string>, values: seq<Setting>)
    requires Keyed(values)
    ensures EditBody(EditBody(body, values), values) == EditBody(body, values)
  {
    hide Replace, IsBlank, LinesFor, Keyed;
    var (r, left) := Replace(body, values);
    var p := InsertAt(r);
    var top, added, tail := r[..p], LinesFor(SortByKey(left)), r[p..];
    TopSettles(body, values);
    ReplaceKeepsOthers(body, values, values);
    SortMeans(left);
    NewLinesSettle(SortByKey(left), left);
    BlanksBelow(r);
    BlanksSettle(tail, []);
    hide SortByKey;
    ReplaceJoin(top, added + tail, values);
    ReplaceJoin(added, tail, left);
    var all := EditBody(body, values);
    assert all == top + (added + tail);
    hide InsertAt;
    NothingToInsert(all);
  }

  lemma {:induction false} ReplaceLength(body: seq<string>, values: seq<Setting>)
    ensures |Replace(body, values).0| == |body|
    decreases |body|
  {
    hide EditorKey, Has, LineFor;
    if body != [] {
      var ek := EditorKey(body[0]);
      ReplaceLength(body[1..], if ek.Some? && Has(values, ek.value) then Remove(values, ek.value) else values);
    }
  }

  // ---- the whole file ----------------------------------------------------

  predicate NoHeaders(s: seq<string>) { forall i :: 0 <= i < |s| ==> !IsHeader(s[i]) }

  function HeaderOf(section: string): string { "[" + section + "]" }

  /** First line that is this header, from `from` on. */
  function Locate(lines: seq<string>, header: string, from: nat): Option<nat>
    decreases |lines| - from
  {
    if from >= |lines| then None
    else if Strip(lines[from]) == header then Some(from)
    else Locate(lines, header, from + 1)
  }

  /** The next section header from `from` on, or the end of the file. */
  function NextHeader(lines: seq<string>, from: nat): nat
    decreases |lines| - from
  {
    if from >= |lines| then |lines|
    else if IsHeader(lines[from]) then from
    else NextHeader(lines, from + 1)
  }

  lemma {:induction false} LocateMeans(lines: seq<string>, header: string, from: nat)
    ensures match Locate(lines, header, from)
            case Some(i) => from <= i < |lines| && Strip(lines[i]) == header
                            && forall j :: from <= j < i ==> Strip(lines[j]) != header
            case None => forall j :: from <= j < |lines| ==> Strip(lines[j]) != header
    decreases |lines| - from
  {
    hide Strip;
    if from < |lines| && Strip(lines[from]) != header {
      LocateMeans(lines, header, from + 1);
    }
  }

  lemma {:induction false} LocateIs(lines: seq<string>, header: string, from: nat, i: nat)
    requires from <= i < |lines| && Strip(lines[i]) == header
    requires forall j :: from <= j < i ==> Strip(lines[j]) != header
    ensures Locate(lines, header, from) == Some(i)
    decreases i - from
  {
    hide Strip;
    if from < i {
      LocateIs(lines, header, from + 1, i);
    }
  }

  lemma {:induction false} NextHeaderMeans(lines: seq<string>, from: nat)
    requires from <= |lines|
    ensures var e := NextHeader(lines, from);
            from <= e <= |lines| && (e < |lines| ==> IsHeader(lines[e]))
            && forall j :: from <= j < e ==> !IsHeader(lines[j])
    decreases |lines| - from
  {
    hide IsHeader;
    if from < |lines| && !IsHeader(lines[from]) {
      NextHeaderMeans(lines, from + 1);
    }
  }

  lemma {:induction false} NextHeaderIs(lines: seq<string>, from: nat, e: nat)
    requires from <= e <= |lines| && (e < |lines| ==> IsHeader(lines[e]))
    requires forall j :: from <= j < e ==> !IsHeader(lines[j])
    ensures NextHeader(lines, from) == e
    decreases e - from
  {
    hide IsHeader;
    if from < e {
      NextHeaderIs(lines, from + 1, e);
    }
  }

  /** The file with the section's header in it, appended if it was missing. */
  function WithSection(lines: seq<string>, section: string): seq<string> {
    if Locate(lines, HeaderOf(section), 0).None? then lines + ["", HeaderOf(section)] else lines
  }

  datatype Parts = Parts(before: seq<string>, body: seq<string>, after: seq<string>)

  /** Everything up to the section's header, its body, and what follows. */
  function SplitAt(lines: seq<string>, section: string): Parts {
    match Locate(lines, HeaderOf(section), 0)
    case None => Parts(lines, [], [])
    case Some(start) =>
      LocateMeans(lines, HeaderOf(section), 0);
      NextHeaderMeans(lines, start + 1);
      var end := NextHeader(lines, start + 1);
      Parts(lines[..start + 1], lines[start + 1..end], lines[end..])
  }

  function EditFile(lines: seq<string>, section: string, values: seq<Setting>): seq<string> {
    var p := SplitAt(WithSection(lines, section), section);
    p.before + EditBody(p.body, values) + p.after
  }

  lemma HeaderStrips(section: string)
    ensures Strip(HeaderOf(section)) == HeaderOf(section) && IsHeader(HeaderOf(section))
  {
    StripClean(HeaderOf(section));
  }

  lemma SectionIsThere(lines: seq<string>, section: string)
    ensures Locate(WithSection(lines, section), HeaderOf(section), 0).Some?
  {
    var h, w := HeaderOf(section), WithSection(lines, section);
    HeaderStrips(section);
    LocateMeans(w, h, 0);
    if Locate(lines, h, 0).None? {
      assert w[|lines| + 1] == h;
    }
  }

  /** The edited body is again the section's body, between the same lines. */
  lemma EditedParts(lines: seq<string>, section: string, body: seq<string>)
    requires Locate(lines, HeaderOf(section), 0).Some?
    requires NoHeaders(body)
    ensures var p := SplitAt(lines, section);
            var now := p.before + body + p.after;
            Locate(now, HeaderOf(section), 0).Some? && SplitAt(now, section) == Parts(p.before, body, p.after)
  {
    hide Strip, IsHeader;
    var h := HeaderOf(section);
    LocateMeans(lines, h, 0);
    var start := Locate(lines, h, 0).value;
    NextHeaderMeans(lines, start + 1);
    var p := SplitAt(lines, section);
    var now, end := p.before + body + p.after, start + 1 + |body|;
    assert forall j :: 0 <= j <= start ==> now[j] == lines[j];
    LocateIs(now, h, 0, start);
    assert forall j :: start + 1 <= j < end ==> now[j] == body[j - start - 1];
    assert end < |now| ==> now[end] == p.after[0];
    NextHeaderIs(now, start + 1, end);
    assert now[..start + 1] == p.before && now[start + 1..end] == body && now[end..] == p.after;
  }

  lemma EditNoHeader(body: seq<string>, values: seq<Setting>)
    requires Keyed(values) && NoHeaders(body)
    ensures NoHeaders(EditBody(body, values))
  {
    hide IsHeader, EditBody, Keyed, LineFor;
    var good := (l: string) => !IsHeader(l);
    forall p | PlainSetting(p) ensures good(LineFor(p)) { WrittenLine(p); }
    EditKeepsGood(body, values, good);
  }

  lemma BodyNoHeader(lines: seq<string>, section: string)
    ensures NoHeaders(SplitAt(lines, section).body)
  {
    hide IsHeader, Strip;
    LocateMeans(lines, HeaderOf(section), 0);
    match Locate(lines, HeaderOf(section), 0)
    case None =>
    case Some(start) => NextHeaderMeans(lines, start + 1);
  }

  /** The whole file: only this section's body changes, it changes as EditBody
      says, and a second identical write changes nothing. */
  lemma FileEdit(lines: seq<string>, section: string, values: seq<Setting>)
    requires Keyed(values)
    ensures var p, q := SplitAt(WithSection(lines, section), section), SplitAt(EditFile(lines, section, values), section);
            q == Parts(p.before, EditBody(p.body, values), p.after)
    ensures EditFile(EditFile(lines, section, values), section, values) == EditFile(lines, section, values)
  {
    hide EditBody, SplitAt;
    var w := WithSection(lines, section);
    var p := SplitAt(w, section);
    SectionIsThere(lines, section);
    BodyNoHeader(w, section);
    EditNoHeader(p.body, values);
    EditedParts(w, section, EditBody(p.body, values));
    EditIsIdempotent(p.body, values);
  }

  /** A section that is not there yet goes to the end, below a blank line. */
  lemma NewSectionGoesLast(lines: seq<string>, section: string, key: string, value: string)
    requires forall i :: 0 <= i < |lines| ==> Strip(lines[i]) != "[" + section + "]"
    ensures EditFile(lines, section, [Setting(key, value)])
         == lines + ["", "[" + section + "]", key + " = " + value]
  {
    var h, p := HeaderOf(section), Setting(key, value);
    hide Strip, IsHeader;
    LocateMeans(lines, h, 0);
    AppendedAt(lines, section);
    var w := lines + ["", h];
    NextHeaderIs(w, |w|, |w|);
    SplitIs(w, section, |lines| + 1, |w|);
    assert w[..|w|] == w && w[|w|..|w|] == [] && w[|w|..] == [];
    assert [p][1..] == [];
    assert SortByKey([p]) == [p] && LinesFor([p]) == [LineFor(p)];
    EmptyReplace([p]);
    assert EditBody([], [p]) == [LineFor(p)];
  }

  // ---- the method --------------------------------------------------------

  method FindHeader(lines: seq<string>, header: string) returns (found: Option<nat>)
    ensures found == Locate(lines, header, 0)
  {
    for index := 0 to |lines|
      invariant Locate(lines, header, index) == Locate(lines, header, 0)
    {
      if Strip(lines[index]) == header {
        return Some(index);
      }
    }
    return None;
  }

  method FindSectionEnd(lines: seq<string>, from: nat) returns (end: nat)
    requires from <= |lines|
    ensures end == NextHeader(lines, from)
  {
    for index := from to |lines|
      invariant NextHeader(lines, index) == NextHeader(lines, from)
    {
      if IsHeader(lines[index]) {
        return index;
      }
    }
    return |lines|;
  }

  /** One line of the pass: what it becomes and what is left to write. */
  function Rewritten(line: string, left: seq<Setting>): (string, seq<Setting>) {
    var key := EditorKey(line);
    if key.Some? && Has(left, key.value)
    then (LineFor(Setting(key.value, ValueOf(left, key.value))), Remove(left, key.value))
    else (line, left)
  }

  lemma ReplaceNextLine(body: seq<string>, k: nat, values: seq<Setting>)
    requires k < |body|
    ensures var (r, left) := Replace(body[..k], values);
            Replace(body[..k + 1], values) == (r + [Rewritten(body[k], left).0], Rewritten(body[k], left).1)
  {
    hide EditorKey, Has, LineFor, ValueOf, Remove;
    var left := Replace(body[..k], values).1;
    var (now, then1) := Rewritten(body[k], left);
    assert body[..k + 1] == body[..k] + [body[k]];
    ReplaceJoin(body[..k], [body[k]], values);
    assert [body[k]][1..] == [];
    assert Replace([body[k]], left) == ([now], then1) by {
      EmptyReplace(then1);
      assert [now] + [] == [now];
    }
  }

  /** Rewrites, in place, the first line of each key that is there. */
  method RewriteKeys(source: seq<string>, start: nat, end: nat, values: seq<Setting>)
    returns (lines: seq<string>, remaining: seq<Setting>)
    requires start < end <= |source|
    ensures var body := source[start + 1..end];
            lines == source[..start + 1] + Replace(body, values).0 + source[end..]
            && remaining == Replace(body, values).1
  {
    hide Replace, EditorKey, Has, LineFor, ValueOf, Remove;
    lines, remaining := source, values;
    ghost var body := source[start + 1..end];
    var index := start + 1;
    assert Replace(body[..0], values) == ([], values) by { EmptyReplace(values); }
    while index < end
      invariant start + 1 <= index <= end
      invariant |Replace(body[..index - start - 1], values).0| == index - start - 1
      invariant lines == source[..start + 1] + Replace(body[..index - start - 1], values).0 + source[index..]
      invariant remaining == Replace(body[..index - start - 1], values).1
    {
      ghost var k := index - start - 1;
      ReplaceNextLine(body, k, values);
      assert lines[index] == body[k];
      var key := EditorKey(lines[index]);
      if key.Some? && Has(remaining, key.value) {
        lines := lines[index := LineFor(Setting(key.value, ValueOf(remaining, key.value)))];
        remaining := Remove(remaining, key.value);
      }
      RewrittenAt(source, source[..start + 1] + Replace(body[..k], values).0, index, Rewritten(body[k], Replace(body[..k], values).1).0);
      index := index + 1;
    }
    assert body[..end - start - 1] == body;
  }

  lemma RewrittenAt(source: seq<string>, done: seq<string>, index: nat, line: string)
    requires index < |source| && |done| == index
    ensures (done + source[index..])[index := line] == done + [line] + source[index + 1..]
    ensures line == source[index] ==> done + source[index..] == done + [line] + source[index + 1..]
  {
  }

  lemma EmptyReplace(values: seq<Setting>)
    ensures Replace([], values) == ([], values)
  {
  }

  /** The step back over trailing blank lines. */
  method InsertPoint(source: seq<string>, start: nat, end: nat) returns (at: nat)
    requires start < end <= |source|
    ensures at == start + 1 + InsertAt(source[start + 1..end])
  {
    hide IsBlank;
    ghost var r := source[start + 1..end];
    at := end;
    assert r[..end - start - 1] == r;
    while at > start + 1 && IsBlank(source[at - 1])
      invariant start + 1 <= at <= end
      invariant InsertAt(r[..at - start - 1]) == InsertAt(r)
    {
      ghost var k := at - start - 1;
      assert r[..k][..k - 1] == r[..k - 1] && r[..k][k - 1] == source[at - 1];
      at := at - 1;
    }
    assert at > start + 1 ==> r[at - start - 2] == source[at - 1];
    InsertAtStops(r, at - start - 1);
  }

  method InsertLines(source: seq<string>, at: nat, remaining: seq<Setting>) returns (lines: seq<string>)
    requires at <= |source|
    ensures lines == source[..at] + LinesFor(SortByKey(remaining)) + source[at..]
  {
    hide LineFor, SortByKey;
    lines := source;
    var sorted := SortByKey(remaining);
    var insertAt := at;
    for i := 0 to |sorted|
      invariant insertAt == at + i && |LinesFor(sorted[..i])| == i
      invariant lines == source[..at] + LinesFor(sorted[..i]) + source[at..]
    {
      LinesForNext(sorted, i);
      assert lines[..insertAt] == source[..at] + LinesFor(sorted[..i]) && lines[insertAt..] == source[at..];
      lines := lines[..insertAt] + [LineFor(sorted[i])] + lines[insertAt..];
      insertAt := insertAt + 1;
    }
    assert sorted[..|sorted|] == sorted;
  }

  lemma Assemble(source: seq<string>, start: nat, end: nat, p: nat, block: seq<string>)
    requires start < end <= |source| && p <= end - start - 1
    ensures source[..start + 1 + p] + block + source[start + 1 + p..]
         == (var r := source[start + 1..end];
             source[..start + 1] + (r[..p] + block + r[p..]) + source[end..])
  {
    var r, at := source[start + 1..end], start + 1 + p;
    assert source[..at] == source[..start + 1] + r[..p];
    assert source[at..] == r[p..] + source[end..];
  }

  lemma InsertAtStops(r: seq<string>, k: nat)
    requires k <= |r| && InsertAt(r[..k]) == InsertAt(r) && (k > 0 ==> !IsBlank(r[k - 1]))
    ensures InsertAt(r) == k
  {
    hide IsBlank;
  }

  lemma {:induction false} LinesForNext(values: seq<Setting>, i: nat)
    requires i < |values|
    ensures LinesFor(values[..i + 1]) == LinesFor(values[..i]) + [LineFor(values[i])]
  {
    hide LineFor;
    if i == 0 {
      assert values[..1][1..] == [];
    } else {
      LinesForNext(values[1..], i - 1);
      assert values[..i + 1][1..] == values[1..][..i] && values[..i][1..] == values[1..][..i - 1];
    }
  }

  /** The line-editing part of `_write_options_locked`: `values` are the
      options to write, in key order. */
  method WriteOptionsLocked(source: seq<string>, section: string, values: seq<Setting>) returns (lines: seq<string>)
    ensures lines == EditFile(source, section, values)
  {
    hide IsHeader, Strip, Locate, NextHeader, SplitAt, EditBody;
    lines := source;
    var header := HeaderOf(section);
    var found := FindHeader(lines, header);
    var start: nat;
    if found.None? {
      lines := lines + ["", header];
      start := |lines| - 1;
      AppendedAt(source, section);
    } else {
      LocateMeans(lines, header, 0);
      start := found.value;
    }
    NextHeaderMeans(lines, start + 1);
    var end := FindSectionEnd(lines, start + 1);
    SplitIs(lines, section, start, end);
    lines := EditSection(lines, start, end, values);
  }

  /** The body of the section, between its header and `end`. */
  method EditSection(source: seq<string>, start: nat, end: nat, values: seq<Setting>) returns (lines: seq<string>)
    requires start < end <= |source|
    ensures lines == source[..start + 1] + EditBody(source[start + 1..end], values) + source[end..]
  {
    hide Replace, LinesFor, InsertAt, SortByKey;
    var rewritten, remaining := RewriteKeys(source, start, end, values);
    ghost var r := Replace(source[start + 1..end], values).0;
    ReplaceLength(source[start + 1..end], values);
    SameShape(source, rewritten, r, start, end);
    if remaining == [] {
      NothingToInsert(r);
      return rewritten;
    }
    var at := InsertPoint(rewritten, start, end);
    Assemble(rewritten, start, end, InsertAt(r), LinesFor(SortByKey(remaining)));
    lines := InsertLines(rewritten, at, remaining);
  }

  lemma SplitIs(lines: seq<string>, section: string, start: nat, end: nat)
    requires Locate(lines, HeaderOf(section), 0) == Some(start)
    requires start < end <= |lines| && NextHeader(lines, start + 1) == end
    ensures SplitAt(lines, section) == Parts(lines[..start + 1], lines[start + 1..end], lines[end..])
  {
  }

  lemma SameShape(lines: seq<string>, now: seq<string>, r: seq<string>, start: nat, end: nat)
    requires start < end <= |lines| && |r| == end - start - 1
    requires now == lines[..start + 1] + r + lines[end..]
    ensures now[..start + 1] == lines[..start + 1] && now[start + 1..end] == r && now[end..] == lines[end..]
  {
  }

  lemma NothingToInsert(r: seq<string>)
    ensures r[..InsertAt(r)] + LinesFor(SortByKey([])) + r[InsertAt(r)..] == r
  {
  }

  lemma AppendedAt(lines: seq<string>, section: string)
    requires Locate(lines, HeaderOf(section), 0).None?
    ensures Locate(lines + ["", HeaderOf(section)], HeaderOf(section), 0) == Some(|lines| + 1)
  {
    hide Strip, IsHeader;
    var h := HeaderOf(section);
    HeaderStrips(section);
    LocateMeans(lines, h, 0);
    EmptyStrips();
    LocateIs(lines + ["", h], h, 0, |lines| + 1);
  }

  lemma EmptyStrips()
    ensures Strip("") == ""
  {
  }

  // ---- the file as text --------------------------------------------------

  lemma WrittenIsUnbroken(p: Setting)
    requires PlainSetting(p)
    ensures Unbroken(LineFor(p))
  {
    var k, t := p.key, LineFor(p);
    forall i | 0 <= i < |t| ensures !IsBreak(t[i]) {
      if i < |k| {
        assert PlainChar(k[i]) && t[i] == k[i];
      } else if i >= |k| + 3 {
        assert t[i] == p.value[i - |k| - 3];
      } else {
        assert t[i] == " = "[i - |k|];
      }
    }
  }

  lemma EditedIsUnbroken(lines: seq<string>, section: string, values: seq<Setting>)
    requires Keyed(values) && Unbroken(section) && AllGood(Unbroken, lines)
    ensures AllGood(Unbroken, EditFile(lines, section, values))
  {
    hide Unbroken, EditBody, Keyed, LineFor, HeaderOf, SplitAt, Locate;
    var w := WithSection(lines, section);
    HeaderIsUnbroken(section);
    SectionIsThere(lines, section);
    PartsAreGood(w, section, Unbroken);
    forall q | PlainSetting(q) ensures Unbroken(LineFor(q)) { WrittenIsUnbroken(q); }
    EditKeepsGood(SplitAt(w, section).body, values, Unbroken);
  }

  lemma PartsAreGood(lines: seq<string>, section: string, good: string -> bool)
    requires AllGood(good, lines)
    ensures var p := SplitAt(lines, section);
            AllGood(good, p.before) && AllGood(good, p.body) && AllGood(good, p.after)
  {
    hide HeaderOf, Strip, IsHeader;
    LocateMeans(lines, HeaderOf(section), 0);
    match Locate(lines, HeaderOf(section), 0)
    case None =>
    case Some(start) => NextHeaderMeans(lines, start + 1);
  }

  lemma HeaderIsUnbroken(section: string)
    requires Unbroken(section)
    ensures Unbroken(HeaderOf(section)) && Unbroken("")
  {
    var t := HeaderOf(section);
    forall i | 0 <= i < |t| ensures !IsBreak(t[i]) {
      assert 0 < i < |t| - 1 ==> t[i] == section[i - 1];
    }
  }

  /** Text in, text out. What the reader finds in the written file, line for
      line, is the edited file, and so does the next writer. */
  method RewriteText(text: string, section: string, values: seq<Setting>) returns (written: string)
    requires Unbroken(section) && Keyed(values)
    ensures var edited := EditFile(Lines(text, IsBreak), section, values);
            written == Written(edited)
            && Lines(written, IsLineFeed) == edited && Lines(written, IsBreak) == edited
  {
    hide EditFile, Lines, Written;
    var lines := Lines(text, IsBreak);
    lines := WriteOptionsLocked(lines, section, values);
    LinesAreFree(text, IsBreak);
    EditedIsUnbroken(Lines(text, IsBreak), section, values);
    WrittenReadsBack(lines, IsBreak);
    FreeOfFewer(lines);
    WrittenReadsBack(lines, IsLineFeed);
    written := Written(lines);
  }

  lemma FreeOfFewer(lines: seq<string>)
    requires AllGood(Unbroken, lines)
    ensures forall k :: 0 <= k < |lines| ==> FreeOf(lines[k], IsBreak) && FreeOf(lines[k], IsLineFeed)
  {
    forall k | 0 <= k < |lines| ensures FreeOf(lines[k], IsBreak) && FreeOf(lines[k], IsLineFeed) {
      assert Unbroken(lines[k]);
    }
  }
}
