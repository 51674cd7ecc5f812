/** One line of the settings file, as the editor and as the reader see it. */
module IniLines {
  import opened Bytes
  import opened HeaderBlock
  import opened TextLines
  import opened IniReading

  predicate IsHeader(line: string) {
    var s := Strip(line);
    s != "" && s[0] == '[' && s[|s| - 1] == ']'
  }

  predicate IsBlank(line: string) { Strip(line) == "" }

  /** The editor's key: everything before the first `=`, unless a comment. */
  function EditorKey(line: string): Option<string> {
    var t := StripLeft(line);
    if t == "" || t[0] == '#' then None
    else
      match Find(t, "=", 0)
      case None => Some(Strip(t))
      case Some(i) => Some(Strip(t[..i]))
  }

  predicate Edits(line: string, key: string) { EditorKey(line) == Some(key) }

  predicate PlainChar(c: char) { 'a' <= c <= 'z' || '0' <= c <= '9' || c == '_' }

  predicate PlainKey(k: string) { k != "" && forall i :: 0 <= i < |k| ==> PlainChar(k[i]) }

  function LineFor(p: Setting): string { p.key + " = " + p.value }

  /** A plain key and a one-line value, which is what callers write. */
  predicate PlainSetting(p: Setting) { PlainKey(p.key) && Unbroken(p.value) }

  lemma StripRightCuts(s: string)
    ensures StripRight(s) <= s
    ensures forall i :: |StripRight(s)| <= i < |s| ==> IsSpace(s[i])
    ensures StripRight(s) != "" ==> !IsSpace(StripRight(s)[|StripRight(s)| - 1])
  {
    if s != [] && IsSpace(s[|s| - 1]) {
      StripRightCuts(s[..|s| - 1]);
    }
  }

  lemma StripLeftStarts(s: string)
    ensures StripLeft(s) != "" ==> !IsSpace(StripLeft(s)[0])
    ensures StripLeft(StripLeft(s)) == StripLeft(s)
  {
  }

  lemma PlainIsClean(k: string)
    requires PlainKey(k)
    ensures forall i :: 0 <= i < |k| ==> !IsSpace(k[i]) && k[i] != '=' && k[i] != ':'
    ensures k[0] != '#' && k[0] != ';' && k[0] != '['
    ensures Lower(k) == k && Strip(k) == k
  {
    forall i | 0 <= i < |k| ensures !IsSpace(k[i]) && k[i] != '=' && k[i] != ':' && LowerChar(k[i]) == k[i] {
      assert PlainChar(k[i]);
    }
    assert Lower(k) == k;
    StripClean(k);
  }

  /** Text that is a plain key followed by spaces strips to the key. */
  lemma {:induction false} KeyThenSpaces(k: string, s: string)
    requires PlainKey(k) && k <= s && forall i :: |k| <= i < |s| ==> IsSpace(s[i])
    ensures StripRight(s) == k && Strip(s) == k
    decreases |s|
  {
    PlainIsClean(k);
    assert !IsSpace(s[0]);
    if |s| > |k| {
      KeyThenSpaces(k, s[..|s| - 1]);
      assert s[..|s| - 1][0] == s[0];
    } else {
      assert s == k;
    }
  }

  lemma CharAt(s: string, c: char, i: int)
    ensures OccursAt(s, [c], i) <==> 0 <= i < |s| && s[i] == c
  {
    if 0 <= i < |s| {
      assert s[i..i + 1] == [s[i]];
    }
  }

  lemma FirstChar(s: string, c: char, i: nat)
    requires i < |s| && s[i] == c && forall j :: 0 <= j < i ==> s[j] != c
    ensures Find(s, [c], 0) == Some(i)
  {
    CharAt(s, c, i);
    forall j | 0 <= j < i ensures !OccursAt(s, [c], j) { CharAt(s, c, j); }
    FindIs(s, [c], 0, i);
  }

  lemma NotBefore(s: string, c: char, i: nat)
    requires i <= |s| && forall j :: 0 <= j < i ==> s[j] != c
    ensures Find(s, [c], 0).Some? ==> Find(s, [c], 0).value >= i
  {
    FindMeans(s, [c], 0);
    if Find(s, [c], 0).Some? {
      CharAt(s, c, Find(s, [c], 0).value);
    }
  }

  /** A line of the form key, spaces, `=`, rest: both sides see the key. */
  lemma KeyedLine(t: string, k: string, i: nat)
    requires PlainKey(k) && i < |t| && t[i] == '=' && k <= t[..i]
    requires forall j :: |k| <= j < i ==> IsSpace(t[j])
    ensures EditorKey(t) == Some(k) && i < |StripRight(t)|
    ensures KindOf(t) == Kind.Option(Setting(k, Strip(StripRight(t)[i + 1..])))
    ensures !IsHeader(t) && !IsBlank(t)
  {
    hide Find, StripRight, StripLeft, Lower, Strip, Delimiter, EditorKey, KindOf, IsHeader, IsBlank;
    KeyedStrips(t, k, i);
    EqualsIsFirst(t, k, i);
    EqualsIsFirst(StripRight(t), k, i);
    PlainIsClean(k);
    KeyThenSpaces(k, t[..i]);
    EditorSide(t, k, i);
    ReaderSide(t, k, i);
  }

  lemma EditorSide(t: string, k: string, i: nat)
    requires i < |t| && StripLeft(t) == t && t[0] != '#'
    requires Find(t, "=", 0) == Some(i) && Strip(t[..i]) == k
    ensures EditorKey(t) == Some(k)
  {
    hide StripLeft, Find, Strip;
  }

  lemma ReaderSide(t: string, k: string, i: nat)
    requires var s := StripRight(t);
             Strip(t) == s && i < |s| && i < |t| && s[..i] == t[..i] && Delimiter(s) == Some(i) && s[0] !in "#;["
    requires StripRight(t[..i]) == k && Lower(k) == k && k != ""
    ensures KindOf(t) == Kind.Option(Setting(k, Strip(StripRight(t)[i + 1..])))
    ensures !IsHeader(t) && !IsBlank(t)
  {
    hide StripRight, Delimiter, Strip, Lower;
  }

  lemma KeyedStrips(t: string, k: string, i: nat)
    requires PlainKey(k) && i < |t| && !IsSpace(t[i]) && k <= t[..i]
    ensures var s := StripRight(t);
            StripLeft(t) == t && Strip(t) == s && i < |s| && s[i] == t[i] && s[..i] == t[..i] && s[0] == t[0] == k[0]
  {
    PlainIsClean(k);
    assert t[..i][0] == k[0];
    StripRightCuts(t);
  }

  lemma EqualsIsFirst(t: string, k: string, i: nat)
    requires PlainKey(k) && i < |t| && t[i] == '=' && k <= t[..i]
    requires forall j :: |k| <= j < i ==> IsSpace(t[j])
    ensures Find(t, "=", 0) == Some(i) && Delimiter(t) == Some(i)
  {
    NoneBeforeEquals(t, k, i);
    FirstChar(t, '=', i);
    NotBefore(t, ':', i);
    FindMeans(t, ":", 0);
    if Find(t, ":", 0).Some? {
      CharAt(t, ':', Find(t, ":", 0).value);
    }
    hide Find;
  }

  lemma NoneBeforeEquals(t: string, k: string, i: nat)
    requires PlainKey(k) && i <= |t| && k <= t[..i]
    requires forall j :: |k| <= j < i ==> IsSpace(t[j])
    ensures forall j :: 0 <= j < i ==> t[j] != '=' && t[j] != ':'
  {
    PlainIsClean(k);
    forall j | 0 <= j < i ensures t[j] != '=' && t[j] != ':' {
      assert j < |k| ==> t[..i][j] == k[j];
    }
  }

  lemma WrittenLine(p: Setting)
    requires PlainKey(p.key)
    ensures EditorKey(LineFor(p)) == Some(p.key)
    ensures KindOf(LineFor(p)) == Kind.Option(Setting(p.key, Strip(p.value))) && Indent(LineFor(p)) == 0
    ensures !IsHeader(LineFor(p)) && !IsBlank(LineFor(p))
  {
    var t, n := LineFor(p), |p.key| + 1;
    assert t == p.key + (" = " + p.value);
    assert t[n] == '=' && t[n - 1] == ' ' && t[..n] == p.key + " " && t[n + 1..] == " " + p.value;
    KeyedStrips(t, p.key, n);
    hide EditorKey, KindOf, IsHeader, IsBlank, Strip, PlainKey, StripLeft, StripRight;
    KeyedLine(t, p.key, n);
    StrippedTail(t, n + 1);
    LeadingSpace(p.value);
  }

  lemma LeadingSpace(v: string)
    ensures Strip(" " + v) == Strip(v)
  {
    assert (" " + v)[1..] == v;
  }

  /** Stripping the line first does not change the stripped rest. */
  lemma {:induction false} StrippedTail(t: string, n: nat)
    requires 0 < n <= |t| && !IsSpace(t[n - 1])
    ensures n <= |StripRight(t)| && Strip(StripRight(t)[n..]) == Strip(t[n..])
    decreases |t|
  {
    if IsSpace(t[|t| - 1]) {
      var u := t[..|t| - 1];
      StrippedTail(u, n);
      TrailingSpace(u[n..], t[|t| - 1]);
      assert t[n..] == u[n..] + [t[|t| - 1]];
    }
  }

  lemma {:induction false} TrailingSpace(s: string, c: char)
    requires IsSpace(c)
    ensures Strip(s + [c]) == Strip(s)
    decreases |s|
  {
    if s == [] {
      assert s + [c] == [c] && [c][1..] == [];
    } else if IsSpace(s[0]) {
      assert (s + [c])[1..] == s[1..] + [c];
      TrailingSpace(s[1..], c);
    } else {
      assert (s + [c])[..|s|] == s;
    }
  }

  /** What the editor takes for a plain key is, to the reader, that key or no
      option at all; unless it goes on with the value above. */
  lemma EditedIsRead(line: string, k: string)
    requires PlainKey(k) && Edits(line, k)
    ensures KindOf(line).Junk? || (KindOf(line).Option? && KindOf(line).setting.key == k)
  {
    var t := StripLeft(line);
    StripLeftStarts(line);
    PlainIsClean(k);
    assert Strip(line) == Strip(t);
    match Find(t, "=", 0)
    case Some(i) =>
      FindMeans(t, "=", 0);
      StripOfStripped(t[..i], t, k);
      CharAt(t, '=', i);
      hide Find, Strip, StripRight, StripLeft, Delimiter, PlainKey;
      KeyedLine(t, k, i);
      SameStripped(line, t);
    case None =>
      StripRightCuts(t);
      assert StripRight(t) == k;
      NoDelimiterInKey(k);
  }

  lemma SameStripped(line: string, t: string)
    requires Strip(line) == Strip(t)
    ensures KindOf(line) == KindOf(t)
  {
    hide Strip;
  }

  lemma NoDelimiterInKey(k: string)
    requires PlainKey(k)
    ensures Delimiter(k).None?
  {
    PlainIsClean(k);
    NotBefore(k, '=', |k|);
    NotBefore(k, ':', |k|);
  }

  lemma StripOfStripped(a: string, t: string, k: string)
    requires a <= t && t != "" && !IsSpace(t[0]) && Strip(a) == k && k != ""
    ensures k <= a && forall j :: |k| <= j < |a| ==> IsSpace(a[j])
  {
    StripRightCuts(a);
    if a != "" {
      assert a[0] == t[0];
      assert StripLeft(a) == a;
    }
  }

  /** The reader takes every `key: value` for the key, and the editor misses it. */
  lemma ColonLine(k: string, v: string)
    requires PlainKey(k)
    ensures KindOf(k + ": " + v) == Kind.Option(Setting(k, Strip(v)))
    ensures EditorKey(k + ": " + v) != Some(k) && Indent(k + ": " + v) == 0
  {
    var t, n := k + ": " + v, |k|;
    assert t == k + (": " + v) && t[n] == ':' && t[..n] == k && t[n + 1..] == " " + v;
    PlainIsClean(k);
    KeyedStrips(t, k, n);
    ColonDelimits(StripRight(t), k);
    KeyThenSpaces(k, k);
    EditorMissesColon(t, k);
    hide Find, Strip, StripRight, StripLeft, Lower, Delimiter, KindOf, PlainKey, EditorKey;
    ReaderSide(t, k, n);
    StrippedTail(t, n + 1);
    LeadingSpace(v);
  }

  lemma ColonDelimits(s: string, k: string)
    requires PlainKey(k) && |k| < |s| && s[..|k|] == k && s[|k|] == ':'
    ensures Delimiter(s) == Some(|k|)
  {
    PlainIsClean(k);
    forall j | 0 <= j < |k| ensures s[j] != '=' && s[j] != ':' {
      assert s[..|k|][j] == s[j];
    }
    NotBefore(s, '=', |k| + 1);
    FirstChar(s, ':', |k|);
    hide Find;
  }

  lemma EditorMissesColon(t: string, k: string)
    requires PlainKey(k) && |k| < |t| && t[..|k|] == k && t[|k|] == ':' && StripLeft(t) == t
    ensures EditorKey(t) != Some(k)
  {
    PlainIsClean(k);
    forall j | 0 <= j < |k| ensures t[j] != '=' {
      assert t[..|k|][j] == t[j];
    }
    NotBefore(t, '=', |k| + 1);
    assert t[0] == t[..|k|][0] == k[0];
    hide Find;
    var a := if Find(t, "=", 0).Some? then t[..Find(t, "=", 0).value] else t;
    StripRightCuts(a);
    assert a[|k|] == ':' && StripLeft(a) == a;
  }
}
