/** What the settings reader takes each line for, and what value a run of lines
    gives an option, without the functions that read them. */
module IniMeaning {
  import opened Bytes
  import opened HeaderBlock
  import opened HeaderLines
  import opened IniReading

  // ---- one line ----------------------------------------------------------

  predicate Lacks(s: string, c: char) { forall i :: 0 <= i < |s| ==> s[i] != c }

  /** The text opens a section: a bracket, a name, the last closing bracket. */
  predicate Opens(s: string, name: string, tail: string) {
    s == "[" + name + "]" + tail && name != "" && Lacks(tail, ']')
  }

  lemma {:induction false} LastBracketIs(s: string, j: nat)
    requires j < |s| && s[j] == ']' && Lacks(s[j + 1..], ']')
    ensures LastBracket(s) == Some(j)
    decreases |s|
  {
    if j < |s| - 1 {
      var t := s[..|s| - 1];
      assert s[|s| - 1] == s[j + 1..][|s| - j - 2];
      assert t[j + 1..] <= s[j + 1..];
      LastBracketIs(t, j);
    }
  }

  lemma {:induction false} LastBracketMeans(s: string)
    ensures match LastBracket(s)
            case Some(j) => s[j] == ']' && Lacks(s[j + 1..], ']')
            case None => Lacks(s, ']')
    decreases |s|
  {
    if s != "" && s[|s| - 1] != ']' {
      var t := s[..|s| - 1];
      LastBracketMeans(t);
      assert s == t + [s[|s| - 1]];
      match LastBracket(t)
      case Some(j) => assert s[j + 1..] == t[j + 1..] + [s[|s| - 1]];
      case None =>
    }
  }

  /** Which texts open which section. */
  lemma HeaderNameIff(s: string, name: string)
    ensures HeaderName(s) == Some(name) <==> exists tail :: Opens(s, name, tail)
  {
    hide LastBracket;
    LastBracketMeans(s);
    if HeaderName(s) == Some(name) {
      var j := LastBracket(s).value;
      assert s == "[" + s[1..j] + "]" + s[j + 1..];
      assert Opens(s, name, s[j + 1..]);
    }
    if tail :| Opens(s, name, tail) {
      var j := |name| + 1;
      assert s[j] == ']' && s[j + 1..] == tail && s[1..j] == name;
      LastBracketIs(s, j);
    }
  }

  /** The text assigns: a key without `=` or `:`, one of the two, a value, with
      whitespace or none around the sign. */
  predicate Assigns(s: string, k: string, b: string, sign: string, c: string, v: string, d: string) {
    && s == k + b + sign + (c + v + d) && (sign == "=" || sign == ":")
    && Padding(b) && Padding(c) && Padding(d) && Bare(v)
    && (k == "" || !IsSpace(k[|k| - 1])) && Lacks(k, '=') && Lacks(k, ':')
  }

  lemma PaddingLacks(s: string, c: char)
    requires Padding(s) && !IsSpace(c)
    ensures Lacks(s, c)
  {
    forall i | 0 <= i < |s| ensures s[i] != c { assert IsSpace(s[i]); }
  }

  lemma FirstSign(before: string, sign: string, rest: string)
    requires Lacks(before, '=') && Lacks(before, ':') && (sign == "=" || sign == ":")
    ensures Delimiter(before + sign + rest) == Some(|before|)
  {
    var s := before + sign + rest;
    assert s[|before|..|before| + 1] == sign;
    forall j | 0 <= j < |before| ensures !OccursAt(s, "=", j) && !OccursAt(s, ":", j) {
      assert s[j..j + 1] == [s[j]] && s[j] == before[j];
    }
    FindMeans(s, "=", 0);
    FindMeans(s, ":", 0);
    FindIs(s, sign, 0, |before|);
    hide OccursAt, Find;
    assert !OccursAt(s, if sign == "=" then ":" else "=", |before|) by { OtherSign(s, sign, |before|); }
  }

  lemma OtherSign(s: string, sign: string, i: nat)
    requires OccursAt(s, sign, i) && (sign == "=" || sign == ":")
    ensures !OccursAt(s, if sign == "=" then ":" else "=", i)
  {
  }

  /** However it is spaced, such a text sets the lower-cased key to the bare
      value; the first sign counts. */
  lemma AssignmentIs(s: string, k: string, b: string, sign: string, c: string, v: string, d: string)
    requires Assigns(s, k, b, sign, c, v, d)
    ensures OptionOf(s) == Some(Setting(Lower(k), v))
  {
    PaddingLacks(b, '=');
    PaddingLacks(b, ':');
    assert Lacks(k + b, '=') && Lacks(k + b, ':');
    FirstSign(k + b, sign, c + v + d);
    StripRightOf(k, b);
    StripOf(c, v, d);
    assert s[..|k + b|] == k + b && s[|k + b| + 1..] == c + v + d;
    hide Delimiter, Strip, StripRight, Lower;
  }

  lemma NoSignNoOption(s: string)
    requires Lacks(s, '=') && Lacks(s, ':')
    ensures OptionOf(s) == None
  {
    forall j | 0 <= j < |s| ensures !OccursAt(s, "=", j) && !OccursAt(s, ":", j) {
      assert s[j..j + 1] == [s[j]];
    }
    FindNone(s, "=", 0);
    FindNone(s, ":", 0);
  }

  /** The kinds of lines, in the order they are tried. */
  lemma KindMeans(line: string)
    ensures var s := Strip(line);
            && (KindOf(line).Blank? <==> Padding(line))
            && (KindOf(line).Comment? <==> s != "" && (s[0] == '#' || s[0] == ';'))
            && (forall name :: KindOf(line) == Header(name) <==> exists tail :: Opens(s, name, tail))
            && (KindOf(line).Option? ==> OptionOf(s) == Some(KindOf(line).setting) && KindOf(line).setting.key != "")
            && (KindOf(line).Junk? ==> s != "" && (OptionOf(s).None? || OptionOf(s).value.key == ""))
  {
    var s := Strip(line);
    var a, d := StripParts(line);
    assert s == "" ==> line == a + d;
    assert Padding(line) ==> s == "" by {
      if Padding(line) {
        StripOf(line, "", "");
        assert line + "" + "" == line;
      }
    }
    forall name ensures KindOf(line) == Header(name) <==> exists tail :: Opens(s, name, tail) {
      HeaderNameIff(s, name);
      HeaderKindIs(line, name);
    }
    hide Strip, HeaderName, OptionOf, Opens;
  }

  lemma HeaderKindIs(line: string, name: string)
    ensures KindOf(line) == Header(name) <==> HeaderName(Strip(line)) == Some(name)
  {
    hide Strip, OptionOf, LastBracket;
  }

  // ---- a value over several lines ----------------------------------------

  /** What lines below an option add to its value: a comment nothing, a blank
      line an empty one, any other itself. */
  function Added(lines: seq<string>): seq<string> {
    if lines == [] then [] else OneAdded(lines[0]) + Added(lines[1..])
  }

  function OneAdded(line: string): seq<string> {
    if KindOf(line).Comment? then [] else if KindOf(line).Blank? then [""] else [Strip(line)]
  }

  /** Between the two readers only this option differs. */
  ghost predicate OthersSame(r: Reader, t: Reader, name: Name)
    requires r.Reading? && t.Reading?
  {
    forall other: Name :: other != name ==>
      (other in t.opts <==> other in r.opts) && (other in r.opts ==> t.opts[other] == r.opts[other])
  }

  predicate Below(lines: seq<string>, indent: nat) {
    forall i :: 0 <= i < |lines| ==> Skipped(lines[i]) || Indent(lines[i]) > indent
  }

  /** The option has grown by these lines, and is still open. */
  ghost predicate GrownBy(r: Reader, t: Reader, name: Name, more: seq<string>)
    requires r.Reading?
  {
    && t.Reading? && name in r.opts && name in t.opts && t.opts[name] == r.opts[name] + more
    && t.open == r.open && t.indent == r.indent && t.cur == r.cur && OthersSame(r, t, name)
  }

  /** An option's value is its first line and all the deeper and blank lines
      below it, whatever they look like. */
  lemma {:induction false} ValueOfBlock(r: Reader, name: Name, lines: seq<string>)
    requires r.Reading? && Sound(r) && r.open == Some(name) && Below(lines, r.indent)
    ensures GrownBy(r, ReadOn(r, lines), name, Added(lines))
    decreases |lines|
  {
    if lines == [] {
      assert name in r.opts && r.opts[name] + [] == r.opts[name];
    } else {
      ReadKeepsSound(r, lines[0]);
      LineBelow(r, name, lines[0]);
      hide KindOf, Indent, Strip, Read, Sound, OthersSame;
      var t := Read(r, lines[0]);
      ValueOfBlock(t, name, lines[1..]);
      GrownOn(r, t, ReadOn(t, lines[1..]), name, OneAdded(lines[0]), Added(lines[1..]));
    }
  }

  lemma GrownOn(r: Reader, t: Reader, u: Reader, name: Name, a: seq<string>, b: seq<string>)
    requires r.Reading? && t.Reading? && GrownBy(r, t, name, a) && GrownBy(t, u, name, b)
    ensures GrownBy(r, u, name, a + b)
  {
    assert r.opts[name] + a + b == r.opts[name] + (a + b);
  }

  lemma LineBelow(r: Reader, name: Name, line: string)
    requires r.Reading? && Sound(r) && r.open == Some(name) && (Skipped(line) || Indent(line) > r.indent)
    ensures GrownBy(r, Read(r, line), name, OneAdded(line))
  {
    hide KindOf, Indent, Strip;
  }

  /** Line i stands in the joined text between these, at a line end or an end
      of the text on either side. */
  predicate Stands(vals: seq<string>, i: nat, before: string, after: string)
    requires i < |vals|
  {
    && JoinLines(vals) == before + vals[i] + after
    && (if i == 0 then before == "" else before != "" && before[|before| - 1] == '\n')
    && (if i == |vals| - 1 then after == "" else after != "" && after[0] == '\n')
  }

  /** Each line of a value stands in its text, between line ends. */
  lemma {:induction false} LineStands(vals: seq<string>, i: nat) returns (before: string, after: string)
    requires i < |vals|
    ensures Stands(vals, i, before, after)
    decreases |vals|
  {
    var n := |vals| - 1;
    before, after := "", "";
    if i == n {
      if n > 0 {
        before := JoinLines(vals[..n]) + "\n";
      }
    } else {
      before, after := LineStands(vals[..n], i);
      assert JoinLines(vals) == before + vals[i] + (after + "\n" + vals[n]);
      after := after + "\n" + vals[n];
    }
  }
}
