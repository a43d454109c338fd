/** What the content-type grammar accepts beyond the form the printer writes: white space of every
    kind, values with and without quotes, and text before and after. */
module MimeGrammar {

  import opened Common
  import opened MimeHeaders
  import opened MimeContentType

  // ---------- White space ----------

  datatype Space = Blank(c: char) | Break | Comment(text: string)

  predicate IsSpace(x: Space) {
    match x
    case Blank(c) => c == ' ' || c == '\t'
    case Break => true
    case Comment(text) => text != "" && forall i :: 0 <= i < |text| ==> ' ' <= text[i] <= '~' && text[i] != ')'
  }

  function SpaceText(x: Space): string {
    match x
    case Blank(c) => [c]
    case Break => "\r\n"
    case Comment(text) => "(" + text + ")"
  }

  function SpacesText(xs: seq<Space>): string {
    if xs == [] then "" else SpaceText(xs[0]) + SpacesText(xs[1..])
  }

  // Text that no white space starts.
  predicate NoSpace(s: string) {
    s == "" || s[0] !in {' ', '\t', '\r', '('}
  }

  lemma OneSpaceReads(x: Space, s: string)
    requires IsSpace(x)
    ensures OneSpace(SpaceText(x) + s) == Match((), s)
  {
    hide OneSpace;
    match x
    case Blank(c) => BlankReads(c, s);
    case Break => BreakReads(s);
    case Comment(text) => CommentReads(text, s);
  }

  lemma BlankReads(c: char, s: string)
    requires c == ' ' || c == '\t'
    ensures OneSpace([c] + s) == Match((), s)
  {
    hide Enclosed;
    assert ([c] + s)[1..] == s;
  }

  lemma BreakReads(s: string)
    ensures OneSpace("\r\n" + s) == Match((), s)
  {
    hide Enclosed;
    var t := "\r\n" + s;
    assert t[..2] == Crlf && t[2..] == s;
  }

  lemma CommentReads(text: string, s: string)
    requires text != "" && forall i :: 0 <= i < |text| ==> ' ' <= text[i] <= '~' && text[i] != ')'
    ensures OneSpace("(" + text + ")" + s) == Match((), s)
  {
    hide Run;
    var t := "(" + text + ")" + s;
    var p := (c: char) => IsPrintable(c) && c != ')';
    var end := ")" + s;
    assert t[1..] == text + end && end[1..] == s;
    assert t[..2][0] == '(';
    RunOf(p, text, end);
  }

  lemma {:induction false} SpacesRead(xs: seq<Space>, s: string)
    requires (forall i :: 0 <= i < |xs| ==> IsSpace(xs[i])) && NoSpace(s)
    ensures Spaces(SpacesText(xs) + s) == s
  {
    hide OneSpace, IsSpace, SpaceText;
    if xs == [] {
      assert SpacesText(xs) + s == s;
      NoSpaceReads(s);
    } else {
      var rest := SpacesText(xs[1..]) + s;
      assert SpacesText(xs) + s == SpaceText(xs[0]) + rest;
      OneSpaceReads(xs[0], rest);
      SpacesRead(xs[1..], s);
    }
  }

  lemma NoSpaceReads(s: string)
    requires NoSpace(s)
    ensures OneSpace(s) == NoMatch
  {
    assert |s| >= 2 ==> s[..2][0] == s[0];
  }

  // ---------- Phrases ----------

  datatype Value = Plain(text: string) | Quoted(text: string)

  predicate IsValue(v: Value) {
    match v
    case Plain(text) => IsToken(text)
    case Quoted(text) => Quotable(text)
  }

  function ValueText(v: Value): string {
    match v
    case Plain(text) => text
    case Quoted(text) => "\"" + text + "\""
  }

  // What may follow a value at once.
  predicate EndsValue(v: Value, s: string) {
    v.Plain? ==> s == "" || !IsTokenChar(s[0])
  }

  lemma ValueReads(v: Value, s: string)
    requires IsValue(v) && EndsValue(v, s)
    ensures ParsePhraseValue(ValueText(v) + s) == Match(v.text, s)
  {
    hide Run, Enclosed;
    match v
    case Plain(text) => TokenOf(text, s);
    case Quoted(text) => QuotedOf(text, s);
  }

  lemma SpaceEndsValue(xs: seq<Space>, s: string)
    requires xs != [] && IsSpace(xs[0])
    ensures var t := SpacesText(xs) + s; t != "" && !IsTokenChar(t[0])
  {
    assert (SpacesText(xs) + s)[0] == SpaceText(xs[0])[0];
  }

  /** A phrase is read with any white space before its name, any value, and any white space after. */
  lemma PhraseReads(before: seq<Space>, name: string, v: Value, after: seq<Space>, s: string)
    requires before != [] && (forall i :: 0 <= i < |before| ==> IsSpace(before[i])) && IsToken(name)
    requires IsValue(v) && (forall i :: 0 <= i < |after| ==> IsSpace(after[i]))
    requires NoSpace(s) && (after == [] ==> EndsValue(v, s))
    ensures ParsePhrase(";" + (SpacesText(before) + (name + ("=" + (ValueText(v) + (SpacesText(after) + s))))))
         == Match(Phrase(name, v.text), s)
  {
    hide ParseAttribute, ParsePhraseValue, SpacesText, ValueText, IsValue, IsToken, IsSpace, Spaces, IsTokenChar, NoSpace;
    var tail := SpacesText(after) + s;
    AttributeReads(before, name, ValueText(v) + tail);
    TailEndsValue(v, after, s);
    ValueReads(v, tail);
    SpacesRead(after, s);
  }

  lemma TailEndsValue(v: Value, after: seq<Space>, s: string)
    requires (forall i :: 0 <= i < |after| ==> IsSpace(after[i])) && (after == [] ==> EndsValue(v, s))
    ensures EndsValue(v, SpacesText(after) + s)
  {
    hide IsSpace, IsTokenChar;
    if after == [] { assert SpacesText(after) + s == s; } else { SpaceEndsValue(after, s); }
  }

  lemma AttributeReads(before: seq<Space>, name: string, rest: string)
    requires before != [] && (forall i :: 0 <= i < |before| ==> IsSpace(before[i])) && IsToken(name)
    ensures ParseAttribute(";" + (SpacesText(before) + (name + ("=" + rest)))) == Match(name, rest)
  {
    hide OneSpace, Spaces, Run, IsSpace, IsToken, IsTokenChar, SpaceText, SpacesText, NoSpace;
    var after := "=" + rest;
    var named := name + after;
    var body := SpacesText(before) + named;
    assert (";" + body)[1..] == body;
    FirstSpace(before, named);
    var more := SpacesText(before[1..]) + named;
    OneSpaceReads(before[0], more);
    NameIsNoSpace(name, after);
    SpacesRead(before[1..], named);
    EqualsIsNoToken();
    TokenOf(name, after);
    assert after[1..] == rest;
  }

  lemma FirstSpace(xs: seq<Space>, s: string)
    requires xs != []
    ensures SpacesText(xs) + s == SpaceText(xs[0]) + (SpacesText(xs[1..]) + s)
  {
    hide SpaceText;
  }

  lemma NameIsNoSpace(name: string, s: string)
    requires IsToken(name)
    ensures NoSpace(name + s)
  {
    assert IsTokenChar((name + s)[0]);
  }

  // ---------- The whole header ----------

  predicate AllBlanks(s: string) {
    forall i :: 0 <= i < |s| ==> s[i] == ' '
  }

  /** Type and subtype are read after any number of spaces. */
  lemma TypesRead(blanks: string, mainType: string, subType: string, s: string)
    requires AllBlanks(blanks) && IsToken(mainType) && IsToken(subType) && (s == "" || !IsTokenChar(s[0]))
    ensures ParseTypes(blanks + mainType + "/" + subType + s) == Match(ContentType(mainType, subType, []), s)
  {
    hide Run, IsToken, IsTokenChar;
    var rest := "/" + (subType + s);
    var named := mainType + rest;
    var t := blanks + mainType + "/" + subType + s;
    assert t == blanks + named;
    NameIsNoSpace(mainType, rest);
    SpanOfRun((c: char) => c == ' ', blanks, named);
    assert t[|blanks|..] == named && rest[1..] == subType + s;
    EqualsIsNoToken();
    TokenOf(mainType, rest);
    TokenOf(subType, s);
  }

  /** A content type without a slash cannot be read. */
  lemma NoSlashIsNoType(s: string)
    requires forall i :: 0 <= i < |s| ==> s[i] != '/'
    ensures ParseContentType(s) == None
  {
    hide ParsePhrases;
    var start := s[Span((c: char) => c == ' ', s)..];
    var r := Run(IsTokenChar, start);
    if r.Match? && r.rest != "" {
      var n := Span(IsTokenChar, start);
      assert r.rest[0] == start[n];
    }
  }
}
