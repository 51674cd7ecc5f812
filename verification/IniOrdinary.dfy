/** Files in the form the shipped settings have: everything in the first column,
    headers with nothing behind them, `key = value`. Any write to them is safe. */
module IniOrdinary {
  import opened Bytes
  import opened HeaderBlock
  import opened TextLines
  import opened IniReading
  import opened IniLines
  import opened IniEditing
  import opened IniReadBack
  import opened IniSaving

  predicate Ordinary(line: string, keys: seq<string>) {
    Skipped(line)
    || (Indent(line) == 0
        && match KindOf(line)
           case Header(name) => Strip(line) == HeaderOf(name)
           case Option(p) => p.key in keys ==> EditorKey(line) == Some(p.key)
           case _ => true)
  }

  predicate AllOrdinary(lines: seq<string>, keys: seq<string>) {
    forall i :: 0 <= i < |lines| ==> Ordinary(lines[i], keys)
  }

  /** A place that passes its check whatever comes before it. */
  predicate Fine(r: Reader, it: Item, section: string, keys: seq<string>)
    requires r.Reading?
  {
    if it.Same? then Skipped(it.line) || (Indent(it.line) == 0 && !TakenForWritten(r, it.line, section, keys))
    else r.cur == Some(section) && (it.Rewritten? ==> !Continues(r, it.line))
  }

  predicate AllFine(r: Reader, items: seq<Item>, section: string, keys: seq<string>)
    decreases |items|
  {
    items == []
    || (r.Reading? && Fine(r, items[0], section, keys) && AllFine(OldRead(r, items[0]), items[1..], section, keys))
  }

  lemma {:induction false} FineIsChecked(r: Reader, items: seq<Item>, section: string, keys: seq<string>, after: bool)
    requires AllFine(r, items, section, keys)
    ensures Checked(r, items, section, keys, after)
    decreases |items|
  {
    hide KindOf, Indent, Read, TakenForWritten;
    if items != [] {
      FineIsChecked(OldRead(r, items[0]), items[1..], section, keys, NextAfter(items[0], after));
    }
  }

  lemma {:induction false} FineJoin(r: Reader, a: seq<Item>, b: seq<Item>, section: string, keys: seq<string>)
    ensures AllFine(r, a + b, section, keys)
        <==> AllFine(r, a, section, keys) && AllFine(ReadOn(r, Olds(a)), b, section, keys)
    decreases |a|
  {
    hide Fine, Read;
    if a == [] {
      assert a + b == b;
    } else {
      assert (a + b)[1..] == a[1..] + b;
      OldReadOn(r, a);
      FineJoin(OldRead(r, a[0]), a[1..], b, section, keys);
    }
  }

  /** The section a pass is in has been entered, and no other way. */
  predicate Knows(r: Reader) { r.Reading? ==> r.cur.Some? ==> r.cur.value in r.names || r.cur.value == DEFAULT }

  lemma ReadOrdinary(r: Reader, line: string, keys: seq<string>)
    requires r.Reading? && Ordinary(line, keys) && Knows(r)
    ensures !Continues(r, line) && Knows(Read(r, line))
    ensures Read(r, line).Reading? && KindOf(line).Header? ==>
              !IsBlank(line) && IsHeader(line)
              && Read(r, line).cur == Some(KindOf(line).name) && KindOf(line).name !in r.names
              && (KindOf(line).name != DEFAULT ==> Read(r, line).names == r.names + {KindOf(line).name})
    ensures Read(r, line).Reading? && !KindOf(line).Header? ==>
              Read(r, line).cur == r.cur && Read(r, line).names == r.names
              && r.opts.Keys <= Read(r, line).opts.Keys
    ensures Read(r, line).Reading? && KindOf(line).Option? ==>
              r.cur.Some? && Name(r.cur.value, KindOf(line).setting.key) !in r.opts
              && Name(r.cur.value, KindOf(line).setting.key) in Read(r, line).opts
  {
    if KindOf(line).Header? {
      HeaderStrips(KindOf(line).name);
    }
    hide KindOf, Indent, Strip, HeaderOf, EditorKey;
  }

  /** Nothing before the section's header is taken for a written key. */
  lemma {:induction false} BeforeIsFine(r: Reader, lines: seq<string>, section: string, keys: seq<string>)
    requires r.Reading? && Knows(r) && AllOrdinary(lines, keys) && ReadOn(r, lines).Reading?
    requires section != DEFAULT && section !in r.names
    requires forall i :: 0 <= i < |lines| ==> Strip(lines[i]) != HeaderOf(section)
    ensures AllFine(r, SameAll(lines), section, keys)
    ensures Knows(ReadOn(r, lines)) && section !in ReadOn(r, lines).names
    decreases |lines|
  {
    if lines != [] {
      hide Read, KindOf, Indent, Strip, HeaderOf, EditorKey;
      var line, rest, t := lines[0], lines[1..], Read(r, lines[0]);
      if t.Failed? { FailedStays(rest); }
      assert SameAll(lines)[1..] == SameAll(rest);
      ReadOrdinary(r, line, keys);
      assert Fine(r, Same(line), section, keys);
      BeforeIsFine(t, rest, section, keys);
    }
  }

  /** Nothing behind the section is: it cannot be entered twice. */
  lemma {:induction false} BehindIsFine(r: Reader, lines: seq<string>, section: string, keys: seq<string>)
    requires r.Reading? && Knows(r) && AllOrdinary(lines, keys) && ReadOn(r, lines).Reading?
    requires section in r.names && (lines == [] || r.cur != Some(section) || IsHeader(lines[0]))
    ensures AllFine(r, SameAll(lines), section, keys)
    decreases |lines|
  {
    if lines != [] {
      var line, rest, t := lines[0], lines[1..], Read(r, lines[0]);
      if IsHeader(line) { HeaderKind(line); }
      hide Read, KindOf, Indent, Strip, HeaderOf, EditorKey, IsHeader;
      if t.Failed? { FailedStays(rest); }
      assert SameAll(lines)[1..] == SameAll(rest);
      ReadOrdinary(r, line, keys);
      OnlyIfJunk(r, line);
      assert Fine(r, Same(line), section, keys);
      BehindIsFine(t, rest, section, keys);
    }
  }

  lemma HeaderKind(line: string)
    requires IsHeader(line)
    ensures KindOf(line).Header? || KindOf(line).Junk?
  {
    var s := Strip(line);
    hide Strip;
    assert LastBracket(s) == Some(|s| - 1);
    if |s| <= 2 {
      ShortIsJunk(s);
    }
  }

  lemma ShortIsJunk(s: string)
    requires |s| == 2 && s[0] == '[' && s[1] == ']'
    ensures Delimiter(s).None?
  {
    NotBefore(s, '=', 2);
    NotBefore(s, ':', 2);
  }

  /** Every written key already met is an option of the section by now. */
  predicate MetKeys(r: Reader, section: string, keys: seq<string>, rem: seq<string>)
    requires r.Reading?
  {
    forall k :: k in keys && k !in rem ==> Name(section, k) in r.opts
  }

  lemma {:induction false} BodyIsFine(r: Reader, body: seq<string>, section: string, keys: seq<string>, rem: seq<string>)
    requires r.Reading? && Knows(r) && AllOrdinary(body, keys) && ReadOn(r, body).Reading?
    requires r.cur == Some(section) && NoHeaders(body) && MetKeys(r, section, keys, rem)
    requires forall k :: k in keys ==> PlainKey(k)
    requires forall k :: k in rem ==> k in keys
    ensures AllFine(r, Mark(body, rem).0, section, keys)
    ensures ReadOn(r, body).cur == Some(section) && ReadOn(r, body).names == r.names && Knows(ReadOn(r, body))
    decreases |body|
  {
    if body != [] {
      hide Read, KindOf, Indent, Strip, HeaderOf, EditorKey, IsHeader, PlainKey, Without;
      var line, rest, t := body[0], body[1..], Read(r, body[0]);
      if t.Failed? { FailedStays(rest); }
      ReadOrdinary(r, line, keys);
      var key := EditorKey(line);
      var rem1 := if key.Some? && key.value in rem then Without(rem, key.value) else rem;
      WithoutMeans(rem, if key.Some? then key.value else "");
      assert !KindOf(line).Header?;
      if key.Some? && key.value in rem {
        EditedIsRead(line, key.value);
        OnlyIfJunk(r, line);
      }
      BodyIsFine(t, rest, section, keys, rem1);
      var marks := Mark(body, rem).0;
      assert marks[1..] == Mark(rest, rem1).0;
      assert Fine(r, marks[0], section, keys);
    }
  }

  lemma OnlyIfJunk(r: Reader, line: string)
    requires r.Reading? && !Continues(r, line)
    ensures KindOf(line).Junk? ==> Read(r, line).Failed?
  {
    hide KindOf, Indent;
  }

  lemma {:induction false} WithoutMeans(keys: seq<string>, key: string)
    ensures forall k :: k in Without(keys, key) ==> k in keys
    ensures forall k :: k in keys && k != key ==> k in Without(keys, key)
  {
    if keys != [] {
      WithoutMeans(keys[1..], key);
      assert keys == [keys[0]] + keys[1..];
    }
  }

  // ---- the section's body, with what is added ----------------------------

  lemma AddedIsFine(r: Reader, added: seq<string>, section: string, keys: seq<string>)
    requires r.Reading? && r.cur == Some(section)
    ensures AllFine(r, AddedAll(added), section, keys) && Olds(AddedAll(added)) == []
  {
    if added != [] {
      assert AddedAll(added)[1..] == AddedAll(added[1..]);
      AddedIsFine(r, added[1..], section, keys);
    }
  }

  lemma {:induction false} OldsOfMark(body: seq<string>, rem: seq<string>)
    ensures Olds(Mark(body, rem).0) == body
  {
    if body != [] {
      hide EditorKey;
      var key, marks := EditorKey(body[0]), Mark(body, rem).0;
      var rem1 := if key.Some? && key.value in rem then Without(rem, key.value) else rem;
      OldsOfMark(body[1..], rem1);
      assert marks[1..] == Mark(body[1..], rem1).0 && [body[0]] + body[1..] == body;
    }
  }

  /** Adding lines in the middle of a body that is fine. */
  lemma AddedInBody(r: Reader, body: seq<string>, marks: seq<Item>, added: seq<string>, at: nat,
                     section: string, keys: seq<string>)
    requires r.Reading? && Knows(r) && r.cur == Some(section)
    requires at <= |marks| == |body| && AllFine(r, marks, section, keys) && Olds(marks) == body
    requires AllOrdinary(body, keys) && NoHeaders(body) && ReadOn(r, body).Reading?
    requires Olds(marks[..at]) == body[..at]
    ensures AllFine(r, marks[..at] + AddedAll(added) + marks[at..], section, keys)
    ensures Olds(marks[..at] + AddedAll(added) + marks[at..]) == body
  {
    var top, tail := marks[..at], marks[at..];
    assert top + tail == marks && body[..at] + body[at..] == body;
    assert AllOrdinary(body[..at], keys) && NoHeaders(body[..at]);
    hide AllFine, ReadOn, Olds, IsHeader, Ordinary, Knows, AllOrdinary, NoHeaders;
    StaysInSection(r, body[..at], body[at..], section, keys);
    AddedIsFine(ReadOn(r, body[..at]), added, section, keys);
    FineWithMore(r, top, AddedAll(added), tail, section, keys);
  }

  lemma FineWithMore(r: Reader, top: seq<Item>, more: seq<Item>, tail: seq<Item>, section: string, keys: seq<string>)
    requires AllFine(r, top + tail, section, keys) && Olds(more) == []
    requires AllFine(ReadOn(r, Olds(top)), more, section, keys)
    ensures AllFine(r, top + more + tail, section, keys) && Olds(top + more + tail) == Olds(top + tail)
  {
    hide AllFine, ReadOn, Olds;
    OldsJoin(top, tail);
    OldsJoin(top, more);
    OldsJoin(top + more, tail);
    assert Olds(top) + [] == Olds(top);
    FineJoin(r, top, tail, section, keys);
    FineJoin(r, top, more, section, keys);
    FineJoin(r, top + more, tail, section, keys);
  }

  lemma {:induction false} StaysInSection(r: Reader, top: seq<string>, tail: seq<string>, section: string, keys: seq<string>)
    requires r.Reading? && Knows(r) && r.cur == Some(section)
    requires AllOrdinary(top, keys) && NoHeaders(top) && ReadOn(r, top + tail).Reading?
    ensures ReadOn(r, top).Reading? && ReadOn(r, top).cur == Some(section)
    decreases |top|
  {
    if top != [] {
      hide Read, KindOf, Indent, Strip, HeaderOf, EditorKey, IsHeader;
      var t := Read(r, top[0]);
      assert (top + tail)[1..] == top[1..] + tail && (top + tail)[0] == top[0];
      if t.Failed? { FailedStays(top[1..] + tail); }
      ReadOrdinary(r, top[0], keys);
      StaysInSection(t, top[1..], tail, section, keys);
    }
  }

  lemma {:induction false} OldsOfMarkTop(body: seq<string>, rem: seq<string>, at: nat)
    requires at <= |body|
    ensures Olds(Mark(body, rem).0[..at]) == body[..at]
  {
    if at > 0 {
      hide EditorKey;
      var key, marks := EditorKey(body[0]), Mark(body, rem).0;
      var rem1 := if key.Some? && key.value in rem then Without(rem, key.value) else rem;
      OldsOfMarkTop(body[1..], rem1, at - 1);
      assert marks[1..] == Mark(body[1..], rem1).0;
      assert marks[..at][1..] == marks[1..][..at - 1] && [body[0]] + body[1..][..at - 1] == body[..at];
    }
  }

  // ---- the whole file ----------------------------------------------------

  /** In a file of ordinary lines that has the header every place passes. */
  lemma OrdinaryWithHeader(w: seq<string>, section: string, keys: seq<string>)
    requires Load(w).Reading? && AllOrdinary(w, keys) && section != "" && section != DEFAULT
    requires Locate(w, HeaderOf(section), 0).Some? && forall k :: k in keys ==> PlainKey(k)
    ensures Checked(FIRST, Items(w, section, keys), section, keys, false)
  {
    var p := SplitAt(w, section);
    var above, line := SplitAtHeader(w, section, keys);
    hide *;
    AllFromHeader(above, line, p.body, p.after, section, keys);
    ItemsOf(w, section, keys);
    FineIsChecked(FIRST, Items(w, section, keys), section, keys, false);
  }

  lemma ItemsOf(w: seq<string>, section: string, keys: seq<string>)
    ensures var p := SplitAt(w, section);
            Items(w, section, keys) == SameAll(p.before) + BodyItems(p.body, keys) + SameAll(p.after)
  {
    hide SplitAt;
  }

  lemma SplitAtHeader(w: seq<string>, section: string, keys: seq<string>) returns (above: seq<string>, line: string)
    requires AllOrdinary(w, keys) && Locate(w, HeaderOf(section), 0).Some?
    ensures var p := SplitAt(w, section);
            p.before == above + [line] && w == above + ([line] + p.body + p.after)
            && Strip(line) == HeaderOf(section) && Ordinary(line, keys) && AllOrdinary(above, keys)
            && AllOrdinary(p.body, keys) && NoHeaders(p.body)
            && AllOrdinary(p.after, keys) && (p.after == [] || IsHeader(p.after[0]))
            && forall i :: 0 <= i < |above| ==> Strip(above[i]) != HeaderOf(section)
  {
    hide Ordinary, Strip, HeaderOf, IsHeader;
    var h, start := HeaderOf(section), Locate(w, HeaderOf(section), 0).value;
    LocateMeans(w, h, 0);
    NextHeaderMeans(w, start + 1);
    above, line := w[..start], w[start];
    hide Locate, NextHeader;
  }

  lemma AllFromHeader(above: seq<string>, line: string, body: seq<string>, after: seq<string>,
                      section: string, keys: seq<string>)
    requires section != "" && section != DEFAULT
    requires Strip(line) == HeaderOf(section) && NoHeaders(body) && (after == [] || IsHeader(after[0]))
    requires Ordinary(line, keys) && AllOrdinary(above, keys) && AllOrdinary(body, keys) && AllOrdinary(after, keys)
    requires Load(above + ([line] + body + after)).Reading? && forall k :: k in keys ==> PlainKey(k)
    requires forall i :: 0 <= i < |above| ==> Strip(above[i]) != HeaderOf(section)
    ensures AllFine(FIRST, SameAll(above + [line]) + BodyItems(body, keys) + SameAll(after), section, keys)
  {
    var rest := [line] + body + after;
    var r := ReadOn(FIRST, above);
    hide *;
    LoadJoin(above, rest);
    BeforeIsFine(FIRST, above, section, keys) by { AtFirst(section); }
    FromHeader(r, line, body, after, section, keys);
    AboveAndBelow(above, line, BodyItems(body, keys) + SameAll(after), section, keys) by {
      assert [Same(line)] + BodyItems(body, keys) + SameAll(after) == [Same(line)] + (BodyItems(body, keys) + SameAll(after));
    }
    assert SameAll(above + [line]) + BodyItems(body, keys) + SameAll(after)
        == SameAll(above + [line]) + (BodyItems(body, keys) + SameAll(after));
  }

  lemma AtFirst(section: string)
    ensures FIRST.Reading? && Knows(FIRST) && section !in FIRST.names
  {
  }

  lemma LoadJoin(above: seq<string>, rest: seq<string>)
    requires Load(above + rest).Reading?
    ensures ReadOn(FIRST, above).Reading? && ReadOn(ReadOn(FIRST, above), rest).Reading?
  {
    hide Read;
    ReadJoin(FIRST, above, rest);
    if ReadOn(FIRST, above).Failed? { FailedStays(rest); }
  }

  lemma AboveAndBelow(above: seq<string>, line: string, items: seq<Item>, section: string, keys: seq<string>)
    requires AllFine(FIRST, SameAll(above), section, keys)
    requires AllFine(ReadOn(FIRST, above), [Same(line)] + items, section, keys)
    ensures AllFine(FIRST, SameAll(above + [line]) + items, section, keys)
  {
    SameAllIs(above, []);
    SameAllJoin(above, [line]);
    assert SameAll(above) + ([Same(line)] + items) == SameAll(above + [line]) + items;
    hide AllFine, SameAll, ReadOn, Olds;
    FineJoin(FIRST, SameAll(above), [Same(line)] + items, section, keys);
  }

  lemma {:induction false} SameAllJoin(a: seq<string>, b: seq<string>)
    ensures SameAll(a + b) == SameAll(a) + SameAll(b)
    ensures |b| == 1 ==> SameAll(b) == [Same(b[0])]
  {
    if a == [] {
      assert a + b == b;
    } else {
      assert (a + b)[1..] == a[1..] + b;
      SameAllJoin(a[1..], b);
    }
  }

  /** From the section's header to the end. */
  lemma FromHeader(r: Reader, line: string, body: seq<string>, after: seq<string>, section: string, keys: seq<string>)
    requires r.Reading? && Knows(r) && section !in r.names && section != "" && section != DEFAULT
    requires Strip(line) == HeaderOf(section) && NoHeaders(body) && (after == [] || IsHeader(after[0]))
    requires Ordinary(line, keys) && AllOrdinary(body, keys) && AllOrdinary(after, keys)
    requires ReadOn(r, [line] + body + after).Reading? && forall k :: k in keys ==> PlainKey(k)
    ensures AllFine(r, [Same(line)] + BodyItems(body, keys) + SameAll(after), section, keys)
  {
    var b, c := BodyItems(body, keys), SameAll(after);
    var t := Read(r, line);
    EnterOrdinary(r, line, section, keys);
    hide IsHeader, Strip, HeaderOf, Ordinary, AllOrdinary, Fine, Read, BodyItems, SameAll, PlainKey, NoHeaders, AllFine;
    HeadRead(r, line, body + after);
    assert [line] + body + after == [line] + (body + after);
    if t.Failed? { FailedStays(body + after); }
    ReadJoin(t, body, after);
    if ReadOn(t, body).Failed? { FailedStays(after); }
    hide ReadOn;
    BodyItemsFine(t, body, section, keys);
    BehindIsFine(ReadOn(t, body), after, section, keys);
    FineJoin(t, b, c, section, keys);
    assert [Same(line)] + b + c == [Same(line)] + (b + c);
    FineCons(r, line, b + c, section, keys);
  }

  lemma HeadRead(r: Reader, line: string, rest: seq<string>)
    ensures ReadOn(r, [line] + rest) == ReadOn(Read(r, line), rest)
  {
    hide Read;
    assert ([line] + rest)[1..] == rest;
  }

  lemma FineCons(r: Reader, line: string, items: seq<Item>, section: string, keys: seq<string>)
    requires r.Reading? && Fine(r, Same(line), section, keys) && AllFine(Read(r, line), items, section, keys)
    ensures AllFine(r, [Same(line)] + items, section, keys)
  {
    hide Fine, Read;
    assert ([Same(line)] + items)[1..] == items;
  }

  /** The section's own header line. */
  lemma EnterOrdinary(r: Reader, line: string, section: string, keys: seq<string>)
    requires r.Reading? && Knows(r) && section != "" && section != DEFAULT
    requires Strip(line) == HeaderOf(section) && Ordinary(line, keys)
    ensures Fine(r, Same(line), section, keys)
    ensures Read(r, line).Reading? ==> Read(r, line).cur == Some(section) && section in Read(r, line).names
    ensures Knows(Read(r, line))
  {
    HeaderStrips(section);
    HeaderIsRead(section);
    SameStripped(line, HeaderOf(section));
    ReadOrdinary(r, line, keys);
    hide IsHeader, Strip, HeaderOf, Indent, KindOf, EditorKey, Read;
  }

  lemma BodyItemsFine(r: Reader, body: seq<string>, section: string, keys: seq<string>)
    requires r.Reading? && Knows(r) && r.cur == Some(section) && NoHeaders(body)
    requires AllOrdinary(body, keys) && ReadOn(r, body).Reading? && forall k :: k in keys ==> PlainKey(k)
    ensures AllFine(r, BodyItems(body, keys), section, keys) && Olds(BodyItems(body, keys)) == body
    ensures ReadOn(r, body).names == r.names && Knows(ReadOn(r, body))
  {
    hide Mark, AllFine, ReadOn, Olds, IsHeader, Ordinary, Knows, SortKeys, AddedAll, PlainKey, InsertAt;
    var (marks, left) := Mark(body, keys);
    BodyIsFine(r, body, section, keys, keys);
    OldsOfMark(body, keys);
    OldsOfMarkTop(body, keys, InsertAt(body));
    AddedInBody(r, body, marks, SortKeys(left), InsertAt(body), section, keys);
  }

  /** With no ordinary header the reader never meets the section either. */
  lemma OrdinaryMissing(lines: seq<string>, section: string, keys: seq<string>)
    requires Load(lines).Reading? && AllOrdinary(lines, keys) && section != DEFAULT
    requires Locate(lines, HeaderOf(section), 0).None?
    ensures section !in Load(lines).names
  {
    hide Strip, Ordinary, HeaderOf;
    LocateMeans(lines, HeaderOf(section), 0);
    BeforeIsFine(FIRST, lines, section, keys);
  }

  /** An ordinary file passes the checks for any section and plain keys. */
  lemma OrdinaryIsSafe(lines: seq<string>, section: string, keys: seq<string>)
    requires Load(lines).Reading? && AllOrdinary(lines, keys) && section != "" && section != DEFAULT
    requires forall k :: k in keys ==> PlainKey(k)
    ensures Checks(lines, section, keys)
  {
    var w := WithSection(lines, section);
    SectionIsThere(lines, section);
    if Locate(lines, HeaderOf(section), 0).None? {
      OrdinaryMissing(lines, section, keys);
      AppendedHeader(lines, section);
      EmptyIsBlank();
      HeaderIsRead(section);
      HeaderStrips(section);
      hide Strip, KindOf, Indent, HeaderOf, Load, Locate, IsHeader;
      assert Ordinary("", keys) && Ordinary(HeaderOf(section), keys);
      hide Ordinary;
      assert AllOrdinary(w, keys);
    }
    hide Load, AllOrdinary, WithSection, Items, Checked;
    OrdinaryWithHeader(w, section, keys);
  }
}
