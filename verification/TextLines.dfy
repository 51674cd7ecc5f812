/** A settings file as text and as lines: the writer splits it where Python's
    `splitlines` does, the reader only at line feeds. */
module TextLines {

  /** Where `splitlines` ends a line. Carriage returns are gone by then: both
      sides open the file with newline translation. */
  predicate IsBreak(c: char) {
    c in ['\n', '\r', '\U{0b}', '\U{0c}', '\U{1c}', '\U{1d}', '\U{1e}', '\U{85}', '\U{2028}', '\U{2029}']
  }

  predicate IsLineFeed(c: char) { c == '\n' }

  predicate FreeOf(s: string, ends: char -> bool) { forall i :: 0 <= i < |s| ==> !ends(s[i]) }

  /** One line: what `splitlines` would leave whole. */
  predicate Unbroken(s: string) { FreeOf(s, IsBreak) }

  /** The lines of a text, their ends dropped; a last end starts no new line. */
  function Lines(text: string, ends: char -> bool): (lines: seq<string>)
    ensures text != "" ==> lines != []
  {
    if text == "" then []
    else if ends(text[0]) then [""] + Lines(text[1..], ends)
    else if |text| == 1 then [text]
    else
      var rest := Lines(text[1..], ends);
      [[text[0]] + rest[0]] + rest[1..]
  }

  /** What is written for some lines: each with a line feed. */
  function Written(lines: seq<string>): string {
    if lines == [] then "" else lines[0] + "\n" + Written(lines[1..])
  }

  lemma {:induction false} FirstLine(line: string, end: char, rest: string, ends: char -> bool)
    requires FreeOf(line, ends) && ends(end)
    ensures Lines(line + [end] + rest, ends) == [line] + Lines(rest, ends)
  {
    var t := line + [end] + rest;
    if line == "" {
      assert t[0] == end && t[1..] == rest;
    } else {
      assert t[0] == line[0] && t[1..] == line[1..] + [end] + rest;
      forall i | 0 <= i < |line[1..]| ensures !ends(line[1..][i]) { assert line[1..][i] == line[i + 1]; }
      FirstLine(line[1..], end, rest, ends);
      assert [line[0]] + line[1..] == line;
    }
  }

  /** Lines written and read back are themselves. */
  lemma {:induction false} WrittenReadsBack(lines: seq<string>, ends: char -> bool)
    requires ends('\n') && forall k :: 0 <= k < |lines| ==> FreeOf(lines[k], ends)
    ensures Lines(Written(lines), ends) == lines
  {
    if lines != [] {
      WrittenReadsBack(lines[1..], ends);
      FirstLine(lines[0], '\n', Written(lines[1..]), ends);
    }
  }

  /** No line holds its own end. */
  lemma {:induction false} LinesAreFree(text: string, ends: char -> bool)
    ensures forall k :: 0 <= k < |Lines(text, ends)| ==> FreeOf(Lines(text, ends)[k], ends)
  {
    if text != "" {
      LinesAreFree(text[1..], ends);
    }
  }

  /** The writer's lines are the reader's if and only if every break in the
      text is a line feed. */
  lemma {:induction false} SameLinesIff(text: string)
    ensures Lines(text, IsBreak) == Lines(text, IsLineFeed)
       <==> forall i :: 0 <= i < |text| && IsBreak(text[i]) ==> text[i] == '\n'
  {
    if forall i :: 0 <= i < |text| && IsBreak(text[i]) ==> text[i] == '\n' {
      SameEnds(text);
    } else {
      var i :| 0 <= i < |text| && IsBreak(text[i]) && text[i] != '\n';
      var k, j := KeptInLine(text, i);
      LinesAreFree(text, IsBreak);
      assert Lines(text, IsBreak) == Lines(text, IsLineFeed) ==> FreeOf(Lines(text, IsLineFeed)[k], IsBreak);
    }
  }

  lemma {:induction false} SameEnds(text: string)
    requires forall i :: 0 <= i < |text| && IsBreak(text[i]) ==> text[i] == '\n'
    ensures Lines(text, IsBreak) == Lines(text, IsLineFeed)
  {
    if text != "" {
      forall i | 0 <= i < |text[1..]| && IsBreak(text[1..][i]) ensures text[1..][i] == '\n' {
        assert text[1..][i] == text[i + 1];
      }
      SameEnds(text[1..]);
    }
  }

  /** A character that is no line feed stays in some line of the reader's. */
  lemma {:induction false} KeptInLine(text: string, i: nat) returns (k: nat, j: nat)
    requires i < |text| && text[i] != '\n'
    ensures var lines := Lines(text, IsLineFeed);
            k < |lines| && j < |lines[k]| && lines[k][j] == text[i]
  {
    if i == 0 {
      k, j := 0, 0;
    } else {
      k, j := KeptInLine(text[1..], i - 1);
      if text[0] == '\n' {
        k := k + 1;
      } else if k == 0 {
        j := j + 1;
      }
    }
  }

  /** Any other break, a form feed in a comment say, is inside one line to the
      reader, and two lines once the writer has saved the file. */
  lemma BreakSplits(a: string, c: char, b: string)
    requires Unbroken(a) && Unbroken(b) && IsBreak(c) && c != '\n'
    ensures Lines(a + [c] + b + "\n", IsLineFeed) == [a + [c] + b]
    ensures Lines(a + [c] + b + "\n", IsBreak) == [a, b]
  {
    hide Lines;
    NoText(IsLineFeed);
    NoText(IsBreak);
    var t := a + [c] + b + "\n";
    assert t == (a + [c] + b) + ['\n'] + "";
    FirstLine(a + [c] + b, '\n', "", IsLineFeed);
    assert t == a + [c] + (b + ['\n'] + "");
    FirstLine(a, c, b + ['\n'] + "", IsBreak);
    FirstLine(b, '\n', "", IsBreak);
  }

  lemma NoText(ends: char -> bool)
    ensures Lines("", ends) == []
  {
  }
}
