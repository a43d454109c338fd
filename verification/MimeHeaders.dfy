/** Header lists of a MIME part: the grammar that reads them, the loop that
    writes them, and the exact set of header lists that survive both. */
module MimeHeaders {

  const Crlf: string := "\r\n"

  datatype Parsed<+T> = Match(value: T, rest: string) | NoMatch

  datatype Header = Header(name: string, value: string)

  predicate Starts(s: string, p: string) {
    |p| <= |s| && s[..|p|] == p
  }

  // ---------- Character classes (char_ sets of the grammar) ----------

  predicate IsLetter(c: char) {
    'a' <= c <= 'z' || 'A' <= c <= 'Z'
  }

  // The set is written "a-zA-Z_0-9\\-", so a backslash belongs to it.
  predicate IsNameChar(c: char) {
    IsLetter(c) || '0' <= c <= '9' || c == '_' || c == '\\' || c == '-'
  }

  predicate IsBlank(c: char) {
    c == ' ' || c == '\t'
  }

  predicate IsValueChar(c: char) {
    c == '\t' || ' ' <= c <= '~'
  }

  /** The classes and the line break by character codes. */
  lemma CharacterCodes(c: char)
    ensures var n := c as int;
            && (IsLetter(c) <==> 65 <= n <= 90 || 97 <= n <= 122)
            && (IsNameChar(c) <==> 65 <= n <= 90 || 97 <= n <= 122 || 48 <= n <= 57 || n in {45, 92, 95})
            && (IsBlank(c) <==> n in {9, 32})
            && (IsValueChar(c) <==> n == 9 || 32 <= n <= 126)
    ensures |Crlf| == 2 && Crlf[0] as int == 13 && Crlf[1] as int == 10
  {
  }

  // ---------- The grammar ----------

  // Greedy repetition of one character class.
  function Span(p: char -> bool, s: string): (n: nat)
    ensures n <= |s|
    ensures forall i :: 0 <= i < n ==> p(s[i])
    ensures n < |s| ==> !p(s[n])
  {
    if s != "" && p(s[0]) then 1 + Span(p, s[1..]) else 0
  }

  function Literal(lit: string, s: string): (r: Parsed<()>)
    ensures r.Match? ==> |r.rest| == |s| - |lit|
  {
    if Starts(s, lit) then Match((), s[|lit|..]) else NoMatch
  }

  function ParseName(s: string): (r: Parsed<string>)
  {
    if s == "" || !IsLetter(s[0]) then NoMatch else
    var n := 1 + Span(IsNameChar, s[1..]);
    Match(s[..n], s[n..])
  }

  // Blanks, then at least one more value character.
  function ParseFold(line: string): (r: Parsed<string>)
    ensures r.Match? ==> |r.rest| <= |line|
  {
    var n := Span(IsBlank, line);
    var m := Span(IsValueChar, line[n..]);
    if n == 0 || m == 0 then NoMatch
    else Match(line[..n] + line[n..][..m], line[n..][m..])
  }

  function ParseContinuation(s: string): (r: Parsed<string>)
    ensures r.Match? ==> |r.rest| < |s|
  {
    match Literal(Crlf, s)
    case NoMatch => NoMatch
    case Match(_, line) => ParseFold(line)
  }

  function ParseContinuations(s: string): (r: Parsed<string>)
    ensures r.Match? && |r.rest| <= |s|
    decreases |s|
  {
    match ParseContinuation(s)
    case NoMatch => Match("", s)
    case Match(text, rest) =>
      var more := ParseContinuations(rest);
      Match(Crlf + text + more.value, more.rest)
  }

  function ParseValue(s: string): (r: Parsed<string>)
    ensures r.Match? && |r.rest| <= |s|
  {
    var n := Span(IsValueChar, s);
    var more := ParseContinuations(s[n..]);
    Match(s[..n] + more.value, more.rest)
  }

  function ParseHeader(s: string): (r: Parsed<Header>)
    ensures r.Match? ==> |r.rest| < |s|
  {
    match ParseName(s)
    case NoMatch => NoMatch
    case Match(name, afterName) =>
      match Literal(":", afterName)
      case NoMatch => NoMatch
      case Match(_, afterColon) =>
        var value := ParseValue(afterColon);
        match Literal(Crlf, value.rest)
        case NoMatch => NoMatch
        case Match(_, rest) => Match(Header(name, value.value), rest)
  }

  function ParseHeaders(s: string): (r: Parsed<seq<Header>>)
    ensures r.Match? ==> |r.rest| < |s|
    decreases |s|
  {
    match ParseHeader(s)
    case Match(h, rest) =>
      (match ParseHeaders(rest)
       case Match(hs, end) => Match([h] + hs, end)
       case NoMatch => NoMatch)
    case NoMatch =>
      match Literal(Crlf, s)
      case Match(_, rest) => Match([], rest)
      case NoMatch => NoMatch
  }

  // ---------- The writer ----------

  function WriteHeader(h: Header): string {
    h.name + ":" + h.value + Crlf
  }

  function WriteHeaders(hs: seq<Header>): string {
    if hs == [] then Crlf else WriteHeader(hs[0]) + WriteHeaders(hs[1..])
  }

  /** One header and the end of the list, written out. */
  lemma WrittenHeader(name: string, value: string)
    ensures WriteHeaders([Header(name, value)]) == name + ":" + value + "\r\n\r\n"
  {
    assert [Header(name, value)][1..] == [];
  }

  // ---------- Which headers are readable, said without the parser ----------

  predicate ReadableName(name: string) {
    name != "" && IsLetter(name[0]) && forall i :: 0 <= i < |name| ==> IsNameChar(name[i])
  }

  predicate ReadableLine(line: string) {
    forall i :: 0 <= i < |line| ==> IsValueChar(line[i])
  }

  // A continuation line begins with a blank and is not blank throughout.
  predicate FoldedLine(line: string) {
    && ReadableLine(line)
    && line != "" && IsBlank(line[0])
    && exists i :: 0 <= i < |line| && !IsBlank(line[i])
  }

  function Unfold(lines: seq<string>): string {
    if lines == [] then "" else Crlf + lines[0] + Unfold(lines[1..])
  }

  ghost predicate ReadableValue(value: string) {
    exists first: string, lines: seq<string> ::
      && ReadableLine(first)
      && (forall i :: 0 <= i < |lines| ==> FoldedLine(lines[i]))
      && value == first + Unfold(lines)
  }

  ghost predicate Readable(hs: seq<Header>) {
    forall i :: 0 <= i < |hs| ==> ReadableName(hs[i].name) && ReadableValue(hs[i].value)
  }

  // ---------- Reading what was written ----------

  lemma SpanOfRun(p: char -> bool, run: string, s: string)
    requires forall i :: 0 <= i < |run| ==> p(run[i])
    requires s == "" || !p(s[0])
    ensures Span(p, run + s) == |run|
  {
    assert forall i :: 0 <= i < |run| ==> (run + s)[i] == run[i];
    assert s != "" ==> (run + s)[|run|] == s[0];
  }

  lemma LiteralOf(lit: string, s: string)
    ensures Literal(lit, lit + s) == Match((), s)
  {
    assert (lit + s)[..|lit|] == lit && (lit + s)[|lit|..] == s;
  }

  // What follows a value: a line break that does not start a folded line.
  predicate EndsValue(s: string) {
    Starts(s, Crlf) && (|s| > 2 ==> !IsBlank(s[2]))
  }

  lemma FoldStarts(line: string, s: string)
    requires FoldedLine(line)
    ensures 0 < Span(IsBlank, line + s) < |line|
  {
    var k :| 0 <= k < |line| && !IsBlank(line[k]);
    assert (line + s)[k] == line[k] && (line + s)[0] == line[0];
  }

  lemma FoldOf(line: string, s: string)
    requires FoldedLine(line) && Starts(s, Crlf)
    ensures ParseFold(line + s) == Match(line, s)
  {
    var t := line + s;
    var n := Span(IsBlank, t);
    FoldStarts(line, s);
    assert t[n..] == line[n..] + s;
    SpanOfRun(IsValueChar, line[n..], s);
    assert t[..n] + line[n..] == line;
  }

  lemma ContinuationOf(line: string, s: string)
    requires FoldedLine(line) && Starts(s, Crlf)
    ensures ParseContinuation(Crlf + (line + s)) == Match(line, s)
  {
    hide ParseFold, FoldedLine;
    LiteralOf(Crlf, line + s);
    FoldOf(line, s);
  }

  lemma ContinuationStops(s: string)
    requires EndsValue(s)
    ensures ParseContinuation(s) == NoMatch
  {
    var line := s[2..];
    if line != "" { assert line[0] == s[2]; }
  }

  lemma {:induction false} ContinuationsOf(lines: seq<string>, s: string)
    requires forall i :: 0 <= i < |lines| ==> FoldedLine(lines[i])
    requires EndsValue(s)
    ensures ParseContinuations(Unfold(lines) + s) == Match(Unfold(lines), s)
  {
    hide ParseContinuation, FoldedLine;
    if lines == [] {
      assert Unfold(lines) + s == s;
      ContinuationStops(s);
    } else {
      var tail := Unfold(lines[1..]) + s;
      assert Unfold(lines) + s == Crlf + (lines[0] + tail);
      assert Starts(tail, Crlf) by { UnfoldStarts(lines[1..], s); }
      ContinuationOf(lines[0], tail);
      ContinuationsOf(lines[1..], s);
    }
  }

  lemma UnfoldStarts(lines: seq<string>, s: string)
    requires Starts(s, Crlf)
    ensures Starts(Unfold(lines) + s, Crlf)
  {
    if lines == [] {
      assert Unfold(lines) + s == s;
    } else {
      assert (Unfold(lines) + s)[..2] == Crlf;
    }
  }

  lemma ValueOf(value: string, s: string)
    requires ReadableValue(value) && EndsValue(s)
    ensures ParseValue(value + s) == Match(value, s)
  {
    hide FoldedLine, ReadableLine, ParseValue, Unfold;
    var first: string, lines: seq<string> :|
      && ReadableLine(first)
      && (forall i :: 0 <= i < |lines| ==> FoldedLine(lines[i]))
      && value == first + Unfold(lines);
    FoldedValueOf(first, lines, s);
  }

  lemma LineBreakIsNoValue(s: string)
    requires Starts(s, Crlf)
    ensures !IsValueChar(s[0])
  {
    assert s[0] == s[..2][0];
  }

  lemma FoldedValueOf(first: string, lines: seq<string>, s: string)
    requires ReadableLine(first)
    requires forall i :: 0 <= i < |lines| ==> FoldedLine(lines[i])
    requires EndsValue(s)
    ensures ParseValue(first + Unfold(lines) + s) == Match(first + Unfold(lines), s)
  {
    hide FoldedLine, ParseContinuations, Unfold, IsValueChar;
    var tail := Unfold(lines) + s;
    assert first + Unfold(lines) + s == first + tail;
    UnfoldStarts(lines, s);
    LineBreakIsNoValue(tail);
    SpanOfRun(IsValueChar, first, tail);
    assert (first + tail)[..|first|] == first && (first + tail)[|first|..] == tail;
    ContinuationsOf(lines, s);
  }

  lemma NameOf(name: string, s: string)
    requires ReadableName(name) && Starts(s, ":")
    ensures ParseName(name + s) == Match(name, s)
  {
    var t := name + s;
    assert t[1..] == name[1..] + s;
    assert s[0] == s[..1][0];
    SpanOfRun(IsNameChar, name[1..], s);
    assert t[..|name|] == name && t[|name|..] == s;
  }

  lemma HeaderOf(h: Header, s: string)
    requires ReadableName(h.name) && ReadableValue(h.value)
    requires s != "" ==> !IsBlank(s[0])
    ensures ParseHeader(WriteHeader(h) + s) == Match(h, s)
  {
    hide ParseName, ParseValue, ReadableName, ReadableValue, Literal, EndsValue, Starts;
    var end := Crlf + s;
    var afterColon := h.value + end;
    assert WriteHeader(h) + s == h.name + (":" + afterColon);
    ColonStarts(afterColon);
    NameOf(h.name, ":" + afterColon);
    LiteralOf(":", afterColon);
    LineBreakEndsValue(s);
    ValueOf(h.value, end);
    LiteralOf(Crlf, s);
  }

  lemma ColonStarts(s: string)
    ensures Starts(":" + s, ":")
  {
    assert (":" + s)[..1] == ":";
  }

  lemma LineBreakEndsValue(s: string)
    requires s != "" ==> !IsBlank(s[0])
    ensures EndsValue(Crlf + s)
  {
    var end := Crlf + s;
    assert end[..2] == Crlf;
    assert s != "" ==> end[2] == s[0];
  }

  lemma WrittenHeadersStart(hs: seq<Header>, s: string)
    requires Readable(hs)
    ensures var t := WriteHeaders(hs) + s; t != "" && !IsBlank(t[0])
  {
    if hs != [] { assert (WriteHeaders(hs) + s)[0] == hs[0].name[0]; }
  }

  lemma NoHeaderAtLineBreak(s: string)
    ensures ParseHeader(Crlf + s) == NoMatch
  {
  }

  lemma {:induction false} HeadersOf(hs: seq<Header>, s: string)
    requires Readable(hs)
    ensures ParseHeaders(WriteHeaders(hs) + s) == Match(hs, s)
  {
    hide ParseHeader, WriteHeader, ReadableName, ReadableValue, Literal;
    if hs == [] {
      NoHeaderAtLineBreak(s);
      LiteralOf(Crlf, s);
    } else {
      var tail := WriteHeaders(hs[1..]) + s;
      assert WriteHeaders(hs) + s == WriteHeader(hs[0]) + tail;
      WrittenHeadersStart(hs[1..], s);
      HeaderOf(hs[0], tail);
      HeadersOf(hs[1..], s);
      assert hs == [hs[0]] + hs[1..];
    }
  }

  // ---------- Writing what was read ----------

  lemma FoldText(line: string)
    ensures var r := ParseFold(line);
            r.Match? ==> r.value + r.rest == line && FoldedLine(r.value)
  {
    hide FoldedLine;
    if ParseFold(line).Match? {
      var n := Span(IsBlank, line);
      var m := Span(IsValueChar, line[n..]);
      FoldedLineOf(line[..n], line[n..][..m]);
    }
  }

  lemma ContinuationText(s: string)
    ensures var r := ParseContinuation(s);
            r.Match? ==> Crlf + r.value + r.rest == s && FoldedLine(r.value)
  {
    hide FoldedLine, ParseFold;
    if ParseContinuation(s).Match? {
      FoldText(s[2..]);
      assert s == Crlf + s[2..];
    }
  }

  lemma FoldedLineOf(blanks: string, text: string)
    requires blanks != "" && forall i :: 0 <= i < |blanks| ==> IsBlank(blanks[i])
    requires text != "" && !IsBlank(text[0]) && ReadableLine(text)
    ensures FoldedLine(blanks + text)
  {
    assert (blanks + text)[|blanks|] == text[0];
  }

  lemma {:induction false} ContinuationsText(s: string) returns (lines: seq<string>)
    ensures forall i :: 0 <= i < |lines| ==> FoldedLine(lines[i])
    ensures var r := ParseContinuations(s); r.value == Unfold(lines) && r.value + r.rest == s
    decreases |s|
  {
    hide ParseContinuation, FoldedLine;
    var r := ParseContinuation(s);
    if r.NoMatch? {
      lines := [];
    } else {
      ContinuationText(s);
      var more := ContinuationsText(r.rest);
      lines := [r.value] + more;
      assert lines[1..] == more;
    }
  }

  lemma ValueText(s: string)
    ensures var r := ParseValue(s); r.value + r.rest == s && ReadableValue(r.value)
  {
    hide ParseContinuations, FoldedLine, Span;
    var n := Span(IsValueChar, s);
    var lines := ContinuationsText(s[n..]);
    assert ReadableLine(s[..n]);
    assert ParseValue(s).value == s[..n] + Unfold(lines);
  }

  lemma NameText(s: string)
    ensures var r := ParseName(s); r.Match? ==> r.value + r.rest == s && ReadableName(r.value)
  {
  }

  lemma HeaderText(s: string)
    ensures var r := ParseHeader(s);
            r.Match? ==>
              && WriteHeader(r.value) + r.rest == s
              && ReadableName(r.value.name)
              && ReadableValue(r.value.value)
  {
    hide ParseValue, ParseName, ReadableName, ReadableValue;
    if ParseHeader(s).Match? {
      var name := ParseName(s);
      NameText(s);
      assert name.rest == ":" + name.rest[1..];
      ValueText(name.rest[1..]);
      var value := ParseValue(name.rest[1..]);
      assert value.rest == Crlf + value.rest[2..];
    }
  }

  lemma {:induction false} HeadersText(s: string)
    ensures var r := ParseHeaders(s);
            r.Match? ==> WriteHeaders(r.value) + r.rest == s && Readable(r.value)
    decreases |s|
  {
    hide ParseHeader, WriteHeader, ReadableName, ReadableValue;
    HeaderText(s);
    var h := ParseHeader(s);
    if h.Match? {
      HeadersText(h.rest);
      var hs := ParseHeaders(h.rest);
      if hs.Match? { assert ([h.value] + hs.value)[1..] == hs.value; }
    } else if Starts(s, Crlf) {
      assert s == Crlf + s[2..];
    }
  }

  /** The header lists that come back unchanged are exactly the readable ones. */
  lemma HeadersRoundTrip(hs: seq<Header>, s: string)
    ensures ParseHeaders(WriteHeaders(hs) + s) == Match(hs, s) <==> Readable(hs)
  {
    if Readable(hs) { HeadersOf(hs, s); } else { HeadersText(WriteHeaders(hs) + s); }
  }
}
