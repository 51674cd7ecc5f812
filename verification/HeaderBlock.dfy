/** Part headers: line splitting, name/value parsing and the Content-Length
    rule, with Python's `strip`, `lower` and `int` on latin-1 text. */
module HeaderBlock {
  import opened Bytes

  type HeaderMap = map<string, string>

  datatype Length = Absent | Illegal | Exactly(size: nat)

  const CONTENT_LENGTH := "content-length"

  predicate IsSpace(c: char) {
    '\t' <= c <= '\r' || '\U{1c}' <= c <= ' ' || c == '\U{85}' || c == '\U{a0}'
  }

  function StripLeft(s: string): string
  {
    if s != [] && IsSpace(s[0]) then StripLeft(s[1..]) else s
  }

  function StripRight(s: string): string
  {
    if s != [] && IsSpace(s[|s| - 1]) then StripRight(s[..|s| - 1]) else s
  }

  function Strip(s: string): string { StripRight(StripLeft(s)) }

  function LowerChar(c: char): char {
    if 'A' <= c <= 'Z' || ('\U{c0}' <= c <= '\U{de}' && c != '\U{d7}') then
      (c as int + 32) as char
    else c
  }

  function Lower(s: string): string { seq(|s|, i requires 0 <= i < |s| => LowerChar(s[i])) }

  /** Splitting on CRLF or LF, leftmost separator first and CRLF preferred. */
  function SplitLines(s: string): (lines: seq<string>)
    ensures |lines| >= 1
  {
    if s == [] then [""]
    else if OccursAt(s, "\r\n", 0) then [""] + SplitLines(s[2..])
    else if s[0] == '\n' then [""] + SplitLines(s[1..])
    else
      var rest := SplitLines(s[1..]);
      [[s[0]] + rest[0]] + rest[1..]
  }

  /** One header line added to the map; a line without a colon is ignored. */
  function AddLine(headers: HeaderMap, line: string): HeaderMap {
    match Find(line, ":", 0)
    case None => headers
    case Some(i) => headers[Lower(Strip(line[..i])) := Strip(line[i + 1..])]
  }

  /** The remaining lines folded into the map, or None for an over-long line. */
  function AddLines(headers: HeaderMap, lines: seq<string>, maxLine: int): Option<HeaderMap>
    decreases |lines|
  {
    if lines == [] then Some(headers)
    else if lines[0] != "" && |lines[0]| > maxLine then None
    else AddLines(AddLine(headers, lines[0]), lines[1..], maxLine)
  }

  function Parse(block: string, maxLine: int): Option<HeaderMap> {
    AddLines(map[], SplitLines(block), maxLine)
  }

  predicate IsDigit(c: char) { '0' <= c <= '9' }

  /** Decimal digits with single underscores between them. */
  function ParseUnsigned(s: string): Option<nat> {
    if s == [] || !IsDigit(s[|s| - 1]) then None
    else
      var d: nat := s[|s| - 1] as int - '0' as int;
      if |s| == 1 then Some(d)
      else
        var p := if s[|s| - 2] == '_' then s[..|s| - 2] else s[..|s| - 1];
        match ParseUnsigned(p)
        case None => None
        case Some(n) => Some(10 * n + d)
  }

  function WithSign(sign: char, n: int): int { if sign == '-' then -n else n }

  const MAX_INT_DIGITS := 4300   // Python refuses to convert more

  function DigitCount(s: string): (n: nat)
    ensures n <= |s|
  {
    if s == [] then 0 else (if IsDigit(s[0]) then 1 else 0) + DigitCount(s[1..])
  }

  /** Digits and underscores without the sign. */
  function Unsigned(s: string): string { if s != [] && (s[0] == '+' || s[0] == '-') then s[1..] else s }

  /** Python's `int(text)` on latin-1 text. */
  function ParseInt(text: string): Option<int> {
    var s := Strip(text);
    match ParseUnsigned(Unsigned(s))
    case None => None
    case Some(n) => if DigitCount(Unsigned(s)) > MAX_INT_DIGITS then None else Some(WithSign(s[0], n))
  }

  /** Decimal digits, with single underscores only between two of them. */
  predicate Numeral(s: string) {
    s != [] && IsDigit(s[0]) && IsDigit(s[|s| - 1])
    && forall i :: 0 <= i < |s| && !IsDigit(s[i]) ==> s[i] == '_' && i + 1 < |s| && IsDigit(s[i + 1])
  }

  /** Positional value, the underscores passed over. */
  function Worth(s: string): nat {
    if s == [] then 0
    else if IsDigit(s[|s| - 1]) then 10 * Worth(s[..|s| - 1]) + (s[|s| - 1] as int - '0' as int)
    else Worth(s[..|s| - 1])
  }

  lemma {:induction false} NumeralIff(s: string)
    ensures ParseUnsigned(s).Some? <==> Numeral(s)
    ensures Numeral(s) ==> ParseUnsigned(s) == Some(Worth(s))
    decreases |s|
  {
    hide Numeral, Worth;
    EndOfNumeral(s);
    if s != [] && IsDigit(s[|s| - 1]) && |s| > 1 {
      var cut := if s[|s| - 2] == '_' then 2 else 1;
      NumeralIff(s[..|s| - cut]);
      LongerNumeral(s, cut);
      ShorterNumeral(s, cut);
      WorthOfLast(s, cut);
    }
  }

  lemma EndOfNumeral(s: string)
    ensures Numeral(s) ==> s != [] && IsDigit(s[|s| - 1])
    ensures |s| == 1 && IsDigit(s[0]) ==> Numeral(s) && Worth(s) == s[0] as int - '0' as int
  {
    if |s| == 1 {
      assert s[..0] == [];
    }
  }

  lemma ShorterNumeral(s: string, cut: nat)
    requires |s| > 1 && IsDigit(s[|s| - 1]) && cut == if s[|s| - 2] == '_' then 2 else 1
    ensures Numeral(s) ==> Numeral(s[..|s| - cut])
  {
    hide IsDigit;
    NoDigit();
    var p := s[..|s| - cut];
    if !Numeral(s) {
      return;
    }
    assert cut == 2 ==> |s| > 2;
    assert |s| > 2 ==> IsDigit(s[|s| - 3]) || IsDigit(s[|s| - 2]);
    forall i | 0 <= i < |p| && !IsDigit(p[i]) ensures p[i] == '_' && i + 1 < |p| && IsDigit(p[i + 1]) {
      assert p[i] == s[i];
    }
  }

  lemma NoDigit()
    ensures !IsDigit('_')
  {
  }

  lemma LongerNumeral(s: string, cut: nat)
    requires |s| > 1 && IsDigit(s[|s| - 1]) && cut == if s[|s| - 2] == '_' then 2 else 1
    ensures Numeral(s[..|s| - cut]) ==> Numeral(s)
  {
    hide IsDigit;
    var p := s[..|s| - cut];
    if Numeral(p) {
      assert s[0] == p[0];
      forall i | 0 <= i < |s| && !IsDigit(s[i]) ensures s[i] == '_' && i + 1 < |s| && IsDigit(s[i + 1]) {
        if i < |p| {
          assert s[i] == p[i] && i + 1 < |p| && s[i + 1] == p[i + 1];
        }
      }
    }
  }

  lemma WorthOfLast(s: string, cut: nat)
    requires |s| > 1 && IsDigit(s[|s| - 1]) && cut == if s[|s| - 2] == '_' then 2 else 1
    ensures Worth(s) == 10 * Worth(s[..|s| - cut]) + (s[|s| - 1] as int - '0' as int)
  {
    if cut == 2 {
      assert s[..|s| - 1][..|s| - 2] == s[..|s| - cut];
    }
  }

  function ContentLength(headers: HeaderMap, maxPart: int): (r: Length)
    ensures r.Exactly? ==> r.size <= maxPart
  {
    if CONTENT_LENGTH !in headers then Absent
    else
      match ParseInt(headers[CONTENT_LENGTH])
      case None => Illegal
      case Some(v) => if v < 0 || v > maxPart then Illegal else Exactly(v)
  }

  /** Exactly which texts declare a length of n: an optional sign on a numeral
      of at most 4300 digits that is worth n, within the part limit. */
  lemma LengthAcceptedIff(headers: HeaderMap, maxPart: int, n: nat, s: string)
    requires CONTENT_LENGTH in headers && s == Strip(headers[CONTENT_LENGTH])
    ensures ContentLength(headers, maxPart) == Exactly(n)
       <==> Numeral(Unsigned(s)) && DigitCount(Unsigned(s)) <= MAX_INT_DIGITS
            && WithSign(s[0], Worth(Unsigned(s))) == n <= maxPart
  {
    NumeralIff(Unsigned(s));
    hide Numeral, ParseUnsigned, Strip, DigitCount, Worth;
  }

  // ---- what the printer writes, read back -------------------------------

  /** `str(n)` for a non-negative n. */
  function Decimal(n: nat): (s: string)
    ensures |s| >= 1 && forall i :: 0 <= i < |s| ==> IsDigit(s[i])
  {
    var d := [('0' as int + n % 10) as char];
    if n < 10 then d else Decimal(n / 10) + d
  }

  lemma {:induction false} ParseDecimal(n: nat)
    ensures ParseUnsigned(Decimal(n)) == Some(n)
  {
    var s := Decimal(n);
    if n >= 10 {
      ParseDecimal(n / 10);
      assert s[..|s| - 1] == Decimal(n / 10);
      assert IsDigit(s[|s| - 2]);
    }
  }

  lemma StripClean(s: string)
    requires |s| > 0 && !IsSpace(s[0]) && !IsSpace(s[|s| - 1])
    ensures Strip(s) == s && Strip(" " + s) == s
  {
    assert (" " + s)[1..] == s;
    assert StripLeft(" " + s) == StripLeft(s);
  }

  lemma IntOfDecimal(n: nat)
    requires |Decimal(n)| <= MAX_INT_DIGITS
    ensures ParseInt(Decimal(n)) == Some(n)
  {
    var s := Decimal(n);
    assert IsDigit(s[0]) && IsDigit(s[|s| - 1]);
    StripClean(s);
    ParseDecimal(n);
  }

  predicate OneLine(s: string) {
    forall i :: 0 <= i < |s| ==> s[i] != '\r' && s[i] != '\n'
  }

  lemma {:induction false} SplitFirst(line: string, rest: string)
    requires OneLine(line)
    ensures SplitLines(line) == [line]
    ensures SplitLines(line + "\r\n" + rest) == [line] + SplitLines(rest)
  {
    var s := line + "\r\n" + rest;
    if line == [] {
      assert s[0..2] == "\r\n" && s[2..] == rest;
    } else {
      SplitFirst(line[1..], rest);
      assert s[1..] == line[1..] + "\r\n" + rest;
      assert s[0] == line[0];
      assert s[0..2][0] == line[0];
      assert [line[0]] + line[1..] == line;
    }
  }

  lemma ParsesTo(line: string, name: string, value: string, headers: HeaderMap)
    requires line == name + ": " + value
    requires |name| > 0 && !IsSpace(name[0]) && !IsSpace(name[|name| - 1])
    requires |value| > 0 && !IsSpace(value[0]) && !IsSpace(value[|value| - 1])
    requires forall i :: 0 <= i < |name| ==> name[i] != ':'
    ensures AddLine(headers, line) == headers[Lower(name) := value]
  {
    forall j | 0 <= j < |name| ensures !OccursAt(line, ":", j) {
      assert line[j..j + 1] == [line[j]] && line[j] == name[j];
    }
    assert line[|name|..|name| + 1] == ":";
    FindIs(line, ":", 0, |name|);
    assert line[..|name|] == name;
    assert line[|name| + 1..] == " " + value;
    StripClean(name);
    StripClean(value);
  }
}
