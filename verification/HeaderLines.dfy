/** What a header block says, without the functions that read it: which line
    sets which key to which value, and which line has the last word. */
module HeaderLines {
  import opened Bytes
  import opened HeaderBlock

  // ---- stripping ---------------------------------------------------------

  predicate Padding(s: string) { forall i :: 0 <= i < |s| ==> IsSpace(s[i]) }

  predicate Bare(s: string) { s == "" || (!IsSpace(s[0]) && !IsSpace(s[|s| - 1])) }

  lemma {:induction false} StripLeftOf(a: string, t: string)
    requires Padding(a) && (t == "" || !IsSpace(t[0]))
    ensures StripLeft(a + t) == t
  {
    if a == "" {
      assert a + t == t;
    } else {
      assert (a + t)[1..] == a[1..] + t;
      StripLeftOf(a[1..], t);
    }
  }

  lemma {:induction false} StripRightOf(t: string, d: string)
    requires Padding(d) && (t == "" || !IsSpace(t[|t| - 1]))
    ensures StripRight(t + d) == t
    decreases |d|
  {
    if d == "" {
      assert t + d == t;
    } else {
      assert (t + d)[..|t + d| - 1] == t + d[..|d| - 1];
      StripRightOf(t, d[..|d| - 1]);
    }
  }

  /** Stripping takes the whitespace off both ends and nothing else. */
  lemma StripOf(a: string, t: string, d: string)
    requires Padding(a) && Padding(d) && Bare(t)
    ensures Strip(a + t + d) == t
  {
    if t == "" {
      assert Padding(a + d) && a + t + d == (a + d) + "";
      StripLeftOf(a + d, "");
    } else {
      assert a + t + d == a + (t + d) && (t + d)[0] == t[0];
      StripLeftOf(a, t + d);
      StripRightOf(t, d);
    }
  }

  /** And every text is whitespace, its stripped text, whitespace. */
  lemma StripParts(s: string) returns (a: string, d: string)
    ensures Padding(a) && Padding(d) && Bare(Strip(s)) && s == a + Strip(s) + d
  {
    a := LeftPart(s);
    d := RightPart(StripLeft(s));
    var t := StripLeft(s);
    assert Strip(s) == StripRight(t) && t == StripRight(t) + d && s == a + t;
    if StripRight(t) != "" {
      assert t[0] == StripRight(t)[0];
    }
  }

  lemma {:induction false} LeftPart(s: string) returns (a: string)
    ensures Padding(a) && s == a + StripLeft(s) && (StripLeft(s) != "" ==> !IsSpace(StripLeft(s)[0]))
  {
    if s != "" && IsSpace(s[0]) {
      var b := LeftPart(s[1..]);
      a := [s[0]] + b;
    } else {
      a := "";
    }
  }

  lemma {:induction false} RightPart(s: string) returns (d: string)
    ensures Padding(d) && s == StripRight(s) + d
    ensures StripRight(s) != "" ==> !IsSpace(StripRight(s)[|StripRight(s)| - 1])
    decreases |s|
  {
    if s != "" && IsSpace(s[|s| - 1]) {
      var e := RightPart(s[..|s| - 1]);
      d := e + [s[|s| - 1]];
      assert s == s[..|s| - 1] + [s[|s| - 1]];
    } else {
      d := "";
    }
  }

  // ---- one line ----------------------------------------------------------

  predicate NoColon(s: string) { forall i :: 0 <= i < |s| ==> s[i] != ':' }

  /** The line is a name without a colon, a colon and a value, with whitespace
      or none around each. */
  predicate Spells(line: string, a: string, name: string, b: string, c: string, value: string, d: string) {
    && line == a + name + b + ":" + (c + value + d)
    && Padding(a) && Padding(b) && Padding(c) && Padding(d)
    && NoColon(name) && Bare(name) && Bare(value)
  }

  /** The line assigns this value to this key. */
  ghost predicate Sets(line: string, key: string, value: string) {
    exists a, name, b, c, d :: Spells(line, a, name, b, c, value, d) && key == Lower(name)
  }

  lemma FirstColon(before: string, rest: string)
    requires NoColon(before)
    ensures Find(before + ":" + rest, ":", 0) == Some(|before|)
    ensures (before + ":" + rest)[..|before|] == before && (before + ":" + rest)[|before| + 1..] == rest
  {
    var line := before + ":" + rest;
    forall j | 0 <= j < |before| ensures !OccursAt(line, ":", j) {
      assert line[j..j + 1] == [line[j]] && line[j] == before[j];
    }
    assert line[|before|..|before| + 1] == ":";
    FindIs(line, ":", 0, |before|);
  }

  lemma PaddingHasNoColon(s: string)
    requires Padding(s)
    ensures NoColon(s)
  {
    forall i | 0 <= i < |s| ensures s[i] != ':' { assert IsSpace(s[i]); }
  }

  /** However it is spaced, such a line sets the lower-cased bare name to the
      bare value. */
  lemma SpelledLineSets(headers: HeaderMap, line: string, a: string, name: string, b: string,
                        c: string, value: string, d: string)
    requires Spells(line, a, name, b, c, value, d)
    ensures AddLine(headers, line) == headers[Lower(name) := value]
  {
    PaddingHasNoColon(a);
    PaddingHasNoColon(b);
    FirstColon(a + name + b, c + value + d);
    StripOf(a, name, b);
    StripOf(c, value, d);
    hide Strip, Find, Lower;
  }

  /** A line without a colon changes nothing. */
  lemma PlainLineSetsNothing(headers: HeaderMap, line: string)
    requires NoColon(line)
    ensures AddLine(headers, line) == headers && forall k, v :: !Sets(line, k, v)
  {
    forall j | 0 <= j < |line| ensures !OccursAt(line, ":", j) {
      assert line[j..j + 1] == [line[j]];
    }
    FindNone(line, ":", 0);
    forall k, v ensures !Sets(line, k, v) {
      if Sets(line, k, v) { SetsHasColon(line, k, v); }
    }
  }

  lemma SetsHasColon(line: string, key: string, value: string)
    requires Sets(line, key, value)
    ensures !NoColon(line)
  {
    var a, name, b, c, d :| Spells(line, a, name, b, c, value, d) && key == Lower(name);
    assert line[|a + name + b|] == ':';
  }

  /** Every other line has that form, so these two say what any line does. */
  lemma ColonLineSpells(line: string) returns (a: string, name: string, b: string, c: string, value: string, d: string)
    requires !NoColon(line)
    ensures Spells(line, a, name, b, c, value, d)
  {
    var i := FindColon(line);
    a, b := StripParts(line[..i]);
    c, d := StripParts(line[i + 1..]);
    name, value := Strip(line[..i]), Strip(line[i + 1..]);
    assert line == line[..i] + ":" + line[i + 1..];
    assert NoColon(name) by {
      forall j | 0 <= j < |name| ensures name[j] != ':' { assert name[j] == line[..i][|a| + j]; }
    }
    hide Strip;
  }

  lemma {:induction false} FindColon(line: string) returns (i: nat)
    requires !NoColon(line)
    ensures i < |line| && line[i] == ':' && NoColon(line[..i])
  {
    if line[0] == ':' {
      i := 0;
    } else {
      assert line == [line[0]] + line[1..];
      assert !NoColon(line[1..]);
      var j := FindColon(line[1..]);
      i := j + 1;
      forall k | 0 <= k < i ensures line[k] != ':' {
        assert k > 0 ==> line[k] == line[1..][..j][k - 1];
      }
    }
  }

  lemma SetsIff(headers: HeaderMap, line: string)
    ensures (forall k, v :: !Sets(line, k, v)) ==> AddLine(headers, line) == headers
    ensures forall k, v :: Sets(line, k, v) ==> AddLine(headers, line) == headers[k := v]
    ensures NoColon(line) <==> forall k, v :: !Sets(line, k, v)
  {
    hide AddLine;
    if NoColon(line) {
      PlainLineSetsNothing(headers, line);
    } else {
      var a, name, b, c, value, d := ColonLineSpells(line);
      hide Spells;
      assert Sets(line, Lower(name), value);
    }
    forall k, v | Sets(line, k, v) ensures AddLine(headers, line) == headers[k := v] {
      var a, name, b, c, d :| Spells(line, a, name, b, c, v, d) && k == Lower(name);
      SpelledLineSets(headers, line, a, name, b, c, v, d);
    }
  }

  /** Names that differ in the case of ASCII letters only are one key. */
  predicate SameButCase(a: string, b: string) {
    |a| == |b| && forall i :: 0 <= i < |a| ==> a[i] == b[i] || SameLetter(a[i], b[i]) || SameLetter(b[i], a[i])
  }

  predicate SameLetter(upper: char, lower: char) { 'A' <= upper <= 'Z' && lower as int == upper as int + 32 }

  lemma CaseDoesNotMatter(a: string, b: string)
    requires SameButCase(a, b)
    ensures Lower(a) == Lower(b)
    ensures (forall i :: 0 <= i < |b| ==> 'a' <= b[i] <= 'z' || b[i] == '-') ==> Lower(a) == b
  {
    forall i | 0 <= i < |a| ensures LowerChar(a[i]) == LowerChar(b[i]) {
    }
    forall i | 0 <= i < |b| && ('a' <= b[i] <= 'z' || b[i] == '-') ensures LowerChar(a[i]) == b[i] {
    }
  }

  // ---- the lines of a block ----------------------------------------------

  /** A line up to its end: it holds no LF, and a bare LF does not follow a CR. */
  predicate EndsWith(line: string, eol: string) {
    (forall i :: 0 <= i < |line| ==> line[i] != '\n')
    && (eol == "\r\n" || (eol == "\n" && (line == "" || line[|line| - 1] != '\r')))
  }

  lemma {:induction false} LineIsSplit(line: string, eol: string, rest: string)
    requires EndsWith(line, eol)
    ensures SplitLines(line + eol + rest) == [line] + SplitLines(rest)
  {
    var s := line + eol + rest;
    if line == "" {
      assert s == eol + rest;
      assert eol == "\r\n" ==> s[0..2] == "\r\n" && s[2..] == rest;
      assert eol == "\n" ==> s[0] == '\n' && s[1..] == rest;
    } else {
      LineIsSplit(line[1..], eol, rest);
      assert s[1..] == line[1..] + eol + rest && s[0] == line[0];
      NotLineEnd(line, eol, rest);
      assert [line[0]] + line[1..] == line;
    }
  }

  lemma NotLineEnd(line: string, eol: string, rest: string)
    requires line != "" && EndsWith(line, eol)
    ensures !OccursAt(line + eol + rest, "\r\n", 0)
  {
    var s := line + eol + rest;
    assert s[0] == line[0] && s[0..2] == [s[0], s[1]];
    assert s[1] == if |line| > 1 then line[1] else eol[0];
  }

  lemma {:induction false} LastLineIsSplit(line: string)
    requires forall i :: 0 <= i < |line| ==> line[i] != '\n'
    ensures SplitLines(line) == [line]
  {
    if line != "" {
      LastLineIsSplit(line[1..]);
      assert |line| >= 2 ==> line[0..2] == [line[0], line[1]];
      assert [line[0]] + line[1..] == line;
    }
  }

  // ---- the block ---------------------------------------------------------

  predicate TooLong(line: string, maxLine: int) { line != "" && |line| > maxLine }

  predicate AnyTooLong(lines: seq<string>, maxLine: int) { exists i :: 0 <= i < |lines| && TooLong(lines[i], maxLine) }

  /** The last of the lines that name this key gives it this value. */
  ghost predicate LastSets(lines: seq<string>, key: string, value: string) {
    exists i :: 0 <= i < |lines| && Sets(lines[i], key, value)
                && forall j, v :: i < j < |lines| ==> !Sets(lines[j], key, v)
  }

  ghost predicate NeverSet(lines: seq<string>, key: string) {
    forall i, v :: 0 <= i < |lines| ==> !Sets(lines[i], key, v)
  }

  lemma {:induction false} AddLinesMeans(headers: HeaderMap, lines: seq<string>, maxLine: int)
    ensures AddLines(headers, lines, maxLine).None? <==> AnyTooLong(lines, maxLine)
    ensures var r := AddLines(headers, lines, maxLine);
            r.Some? ==>
              && (forall k, v :: LastSets(lines, k, v) ==> k in r.value && r.value[k] == v)
              && (forall k :: NeverSet(lines, k) ==>
                    (k in r.value <==> k in headers) && (k in headers ==> r.value[k] == headers[k]))
    decreases |lines|
  {
    if lines != [] {
      var line, rest := lines[0], lines[1..];
      var h := AddLine(headers, line);
      hide AddLine, Sets, NoColon;
      AddLinesMeans(h, rest, maxLine);
      SetsIff(headers, line);
      assert lines == [line] + rest;
      LongInTail(lines, maxLine);
      if !TooLong(line, maxLine) && AddLines(h, rest, maxLine).Some? {
        var r := AddLines(h, rest, maxLine).value;
        forall k, v | LastSets(lines, k, v) ensures k in r && r[k] == v {
          LastInTail(lines, k, v);
        }
        forall k | NeverSet(lines, k) ensures (k in r <==> k in headers) && (k in headers ==> r[k] == headers[k]) {
          NeverInTail(lines, k);
          assert k in h <==> k in headers;
        }
      }
    }
  }

  lemma LongInTail(lines: seq<string>, maxLine: int)
    requires lines != []
    ensures AnyTooLong(lines, maxLine) <==> TooLong(lines[0], maxLine) || AnyTooLong(lines[1..], maxLine)
  {
    hide TooLong;
    if i :| 0 <= i < |lines| && TooLong(lines[i], maxLine) {
      assert i > 0 ==> lines[1..][i - 1] == lines[i];
    }
    if i :| 0 <= i < |lines[1..]| && TooLong(lines[1..][i], maxLine) {
      assert lines[i + 1] == lines[1..][i];
    }
  }

  lemma LastInTail(lines: seq<string>, key: string, value: string)
    requires lines != [] && LastSets(lines, key, value)
    ensures LastSets(lines[1..], key, value) || (Sets(lines[0], key, value) && NeverSet(lines[1..], key))
  {
    hide Sets;
    var i :| 0 <= i < |lines| && Sets(lines[i], key, value)
             && forall j, v :: i < j < |lines| ==> !Sets(lines[j], key, v);
    var rest := lines[1..];
    assert forall j :: 0 <= j < |rest| ==> rest[j] == lines[j + 1];
    if i > 0 {
      assert Sets(rest[i - 1], key, value);
    }
  }

  lemma NeverInTail(lines: seq<string>, key: string)
    requires lines != [] && NeverSet(lines, key)
    ensures NeverSet(lines[1..], key) && forall v :: !Sets(lines[0], key, v)
  {
    hide Sets;
    var rest := lines[1..];
    assert forall j :: 0 <= j < |rest| ==> rest[j] == lines[j + 1];
  }

  /** What a block parses to: refused exactly for an over-long line; otherwise
      a key is there exactly if some line names it, with the value the last
      such line gives it. */
  lemma ParseMeans(block: string, maxLine: int)
    ensures Parse(block, maxLine).None? <==> AnyTooLong(SplitLines(block), maxLine)
    ensures Parse(block, maxLine).Some? ==>
              forall k, v :: k in Parse(block, maxLine).value && Parse(block, maxLine).value[k] == v
                        <==> LastSets(SplitLines(block), k, v)
  {
    var lines := SplitLines(block);
    hide LastSets, NeverSet, SplitLines, AddLines, AnyTooLong;
    AddLinesMeans(map[], lines, maxLine);
    forall k, v | Parse(block, maxLine).Some? && k in Parse(block, maxLine).value && Parse(block, maxLine).value[k] == v
      ensures LastSets(lines, k, v)
    {
      if !NeverSet(lines, k) {
        var w := SomeLast(lines, k);
      }
    }
  }

  lemma {:induction false} SomeLast(lines: seq<string>, key: string) returns (value: string)
    requires !NeverSet(lines, key)
    ensures LastSets(lines, key, value)
    decreases |lines|
  {
    hide Sets, LastSets;
    var n := |lines| - 1;
    if v :| Sets(lines[n], key, v) {
      value := v;
      LastIsLast(lines, key, v);
    } else {
      var before := lines[..n];
      assert !NeverSet(before, key) by {
        var i, v :| 0 <= i < |lines| && Sets(lines[i], key, v);
        assert i < n && before[i] == lines[i];
      }
      value := SomeLast(before, key);
      LastStays(before, lines[n], key, value);
      assert before + [lines[n]] == lines;
    }
  }

  lemma LastIsLast(lines: seq<string>, key: string, value: string)
    requires lines != [] && Sets(lines[|lines| - 1], key, value)
    ensures LastSets(lines, key, value)
  {
    hide Sets;
  }

  lemma LastStays(before: seq<string>, line: string, key: string, value: string)
    requires LastSets(before, key, value) && forall v :: !Sets(line, key, v)
    ensures LastSets(before + [line], key, value)
  {
    hide Sets;
    var i :| 0 <= i < |before| && Sets(before[i], key, value)
             && forall j, v :: i < j < |before| ==> !Sets(before[j], key, v);
    var lines := before + [line];
    assert lines[i] == before[i];
    forall j, v | i < j < |lines| ensures !Sets(lines[j], key, v) {
      assert j < |before| ==> lines[j] == before[j];
    }
  }
}
