/** What a Content-Type header says: part kind, boundary, default type of the
    sub-parts. Reader and writer of a part both ask here. */
module MimeContentType {

  import opened Common
  import opened MimeHeaders

  datatype Phrase = Phrase(attribute: string, value: string)
  datatype ContentType = ContentType(mainType: string, subType: string, phrases: seq<Phrase>)
  datatype Kind = Simple | Multi | Message

  // ---------- Grammar; it need not reach the end of the header ----------

  predicate IsPrintable(c: char) { ' ' <= c <= '~' }

  predicate IsTokenChar(c: char) { IsPrintable(c) && c !in " ()<>@,;:\\\"/[]?=" }

  function Run(p: char -> bool, s: string): (r: Parsed<string>)
    ensures r.Match? ==> |r.rest| < |s|
  {
    var n := Span(p, s);
    if n == 0 then NoMatch else Match(s[..n], s[n..])
  }

  // Text between an opening and a closing character; never empty.
  function Enclosed(open: char, close: char, s: string): (r: Parsed<string>)
    ensures r.Match? ==> |r.rest| < |s|
  {
    if s == "" || s[0] != open then NoMatch else
    match Run((c: char) => IsPrintable(c) && c != close, s[1..])
    case NoMatch => NoMatch
    case Match(text, rest) =>
      if rest != "" && rest[0] == close then Match(text, rest[1..]) else NoMatch
  }

  // Blank, line break or comment; the result is what follows.
  function OneSpace(s: string): (r: Parsed<()>)
    ensures r.Match? ==> |r.rest| < |s|
  {
    if s != "" && IsBlank(s[0]) then Match((), s[1..])
    else if Starts(s, Crlf) then Match((), s[2..])
    else match Enclosed('(', ')', s)
      case Match(_, rest) => Match((), rest)
      case NoMatch => NoMatch
  }

  function Spaces(s: string): (rest: string)
    ensures |rest| <= |s|
    decreases |s|
  {
    match OneSpace(s)
    case NoMatch => s
    case Match(_, rest) => Spaces(rest)
  }

  function ParsePhraseValue(s: string): (r: Parsed<string>)
    ensures r.Match? ==> |r.rest| < |s|
  {
    match Run(IsTokenChar, s)
    case Match(text, rest) => Match(text, rest)
    case NoMatch => Enclosed('"', '"', s)
  }

  // Semicolon, white space, name and equals sign.
  function ParseAttribute(s: string): (r: Parsed<string>)
    ensures r.Match? ==> |r.rest| + 4 <= |s|
  {
    if s == "" || s[0] != ';' then NoMatch else
    match OneSpace(s[1..])
    case NoMatch => NoMatch
    case Match(_, afterSpace) =>
      match Run(IsTokenChar, Spaces(afterSpace))
      case NoMatch => NoMatch
      case Match(attribute, afterName) =>
        if afterName == "" || afterName[0] != '=' then NoMatch else Match(attribute, afterName[1..])
  }

  function ParsePhrase(s: string): (r: Parsed<Phrase>)
    ensures r.Match? ==> |r.rest| < |s|
  {
    match ParseAttribute(s)
    case NoMatch => NoMatch
    case Match(attribute, afterEquals) =>
      match ParsePhraseValue(afterEquals)
      case NoMatch => NoMatch
      case Match(value, rest) => Match(Phrase(attribute, value), Spaces(rest))
  }

  function ParsePhrases(s: string): (r: Parsed<seq<Phrase>>)
    ensures r.Match?
    decreases |s|
  {
    match ParsePhrase(s)
    case NoMatch => Match([], s)
    case Match(phrase, rest) =>
      var more := ParsePhrases(rest);
      Match([phrase] + more.value, more.rest)
  }

  // Type and subtype.
  function ParseTypes(s: string): (r: Parsed<ContentType>) {
    match Run(IsTokenChar, s[Span((c: char) => c == ' ', s)..])
    case NoMatch => NoMatch
    case Match(mainType, rest) =>
      if rest == "" || rest[0] != '/' then NoMatch else
      match Run(IsTokenChar, rest[1..])
      case NoMatch => NoMatch
      case Match(subType, tail) => Match(ContentType(mainType, subType, []), tail)
  }

  // What the grammar reads and what it leaves unread.
  function ReadContentType(s: string): (r: Parsed<ContentType>) {
    match ParseTypes(s)
    case NoMatch => NoMatch
    case Match(ct, tail) =>
      var phrases := ParsePhrases(tail);
      Match(ct.(phrases := phrases.value), phrases.rest)
  }

  // The unread rest is ignored.
  function ParseContentType(s: string): (r: Option<ContentType>) {
    match ReadContentType(s)
    case NoMatch => None
    case Match(ct, _) => Some(ct)
  }

  // ---------- Questions ----------

  function Lower(c: char): char {
    if 'A' <= c <= 'Z' then (c as int + 32) as char else c
  }

  predicate SameIgnoringCase(a: string, b: string) {
    |a| == |b| && forall i :: 0 <= i < |a| ==> Lower(a[i]) == Lower(b[i])
  }

  predicate IsContentType(h: Header) {
    SameIgnoringCase(h.name, "Content-Type")
  }

  // The first header of that name counts.
  function ContentTypeHeader(hs: seq<Header>, defaultType: string): (r: string)
    ensures (forall i :: 0 <= i < |hs| ==> !IsContentType(hs[i])) ==> r == defaultType
    ensures forall i :: 0 <= i < |hs| && IsContentType(hs[i]) && (forall j :: 0 <= j < i ==> !IsContentType(hs[j])) ==>
              r == hs[i].value
  {
    if hs == [] then defaultType
    else if IsContentType(hs[0]) then hs[0].value
    else ContentTypeHeader(hs[1..], defaultType)
  }

  predicate IsFirst(phrases: seq<Phrase>, key: string, i: nat)
    requires i < |phrases|
  {
    && SameIgnoringCase(phrases[i].attribute, key)
    && forall j :: 0 <= j < i ==> !SameIgnoringCase(phrases[j].attribute, key)
  }

  function FindPhrase(phrases: seq<Phrase>, key: string): (r: Option<string>)
    ensures r.None? <==> forall i :: 0 <= i < |phrases| ==> !SameIgnoringCase(phrases[i].attribute, key)
    ensures r.Some? ==> exists i :: 0 <= i < |phrases| && phrases[i].value == r.value && IsFirst(phrases, key, i)
  {
    if phrases == [] then None
    else if SameIgnoringCase(phrases[0].attribute, key) then Some(phrases[0].value)
    else FindPhrase(phrases[1..], key)
  }

  function BoundaryOf(ct: ContentType): Option<string> {
    FindPhrase(ct.phrases, "boundary")
  }

  function KindOf(ct: ContentType): Kind {
    if SameIgnoringCase(ct.mainType, "multipart") then Multi
    else if SameIgnoringCase(ct.mainType, "message") && !SameIgnoringCase(ct.subType, "delivery-status") then Message
    else Simple
  }

  const PlainText: string := "text/plain"

  const MailMessage: string := "message/rfc822"

  predicate IsDigest(ct: ContentType) {
    SameIgnoringCase(ct.mainType + "/" + ct.subType, "multipart/digest")
  }

  function DefaultInside(ct: ContentType): string {
    if IsDigest(ct) then MailMessage else PlainText
  }

  // ---------- Which content types are readable, said without the parser ----------

  predicate IsToken(s: string) {
    s != "" && forall i :: 0 <= i < |s| ==> IsTokenChar(s[i])
  }

  predicate Quotable(s: string) {
    s != "" && forall i :: 0 <= i < |s| ==> IsPrintable(s[i]) && s[i] != '"'
  }

  predicate ReadablePhrase(p: Phrase) {
    IsToken(p.attribute) && Quotable(p.value)
  }

  predicate ReadableType(ct: ContentType) {
    && IsToken(ct.mainType) && IsToken(ct.subType)
    && forall i :: 0 <= i < |ct.phrases| ==> ReadablePhrase(ct.phrases[i])
  }

  // The form in which phrases are appended to a header.
  function WritePhrase(p: Phrase): string {
    "; " + p.attribute + "=\"" + p.value + "\""
  }

  function WritePhrases(ps: seq<Phrase>): string {
    if ps == [] then "" else WritePhrase(ps[0]) + WritePhrases(ps[1..])
  }

  function WriteContentType(ct: ContentType): string {
    ct.mainType + "/" + ct.subType + WritePhrases(ct.phrases)
  }

  lemma RunOf(p: char -> bool, run: string, s: string)
    requires run != "" && forall i :: 0 <= i < |run| ==> p(run[i])
    requires s == "" || !p(s[0])
    ensures Run(p, run + s) == Match(run, s)
  {
    SpanOfRun(p, run, s);
    assert (run + s)[..|run|] == run && (run + s)[|run|..] == s;
  }

  lemma QuotedOf(value: string, s: string)
    requires Quotable(value)
    ensures ParsePhraseValue("\"" + value + "\"" + s) == Match(value, s)
  {
    var t := "\"" + value + "\"" + s;
    var p := (c: char) => IsPrintable(c) && c != '"';
    var end := "\"" + s;
    assert t[1..] == value + end;
    RunOf(p, value, end);
    assert end[1..] == s;
    assert !IsTokenChar(t[0]);
    assert Run(IsTokenChar, t) == NoMatch;
  }

  lemma SpacesStop(s: string)
    requires s == "" || s[0] == ';' || IsTokenChar(s[0])
    ensures Spaces(s) == s
  {
    assert |s| >= 2 ==> s[..2][0] == s[0];
  }

  lemma TokenOf(token: string, s: string)
    requires IsToken(token)
    requires s == "" || !IsTokenChar(s[0])
    ensures Run(IsTokenChar, token + s) == Match(token, s)
  {
    RunOf(IsTokenChar, token, s);
  }

  lemma PhraseOf(p: Phrase, s: string)
    requires ReadablePhrase(p)
    requires s == "" || s[0] == ';'
    ensures ParsePhrase(WritePhrase(p) + s) == Match(p, s)
  {
    hide Run, ParsePhraseValue, Quotable, IsToken, IsTokenChar;
    var quoted := "\"" + p.value + "\"" + s;
    var afterName := "=" + quoted;
    var afterSpace := p.attribute + afterName;
    var t := WritePhrase(p) + s;
    assert t == "; " + afterSpace;
    assert t[1..][1..] == afterSpace;
    assert afterName[1..] == quoted;
    AttributeStarts(p.attribute, afterName);
    SpacesStop(afterSpace);
    EqualsIsNoToken();
    TokenOf(p.attribute, afterName);
    QuotedOf(p.value, s);
    SpacesStop(s);
  }

  lemma EqualsIsNoToken()
    ensures !IsTokenChar('=') && !IsTokenChar('/') && !IsTokenChar(';')
  {
  }

  lemma AttributeStarts(token: string, s: string)
    requires IsToken(token)
    ensures IsTokenChar((token + s)[0])
  {
  }

  lemma {:induction false} PhrasesOf(ps: seq<Phrase>)
    requires forall i :: 0 <= i < |ps| ==> ReadablePhrase(ps[i])
    ensures ParsePhrases(WritePhrases(ps)) == Match(ps, "")
    ensures WritePhrases(ps) == "" || WritePhrases(ps)[0] == ';'
  {
    hide ParsePhrase, ReadablePhrase;
    if ps != [] {
      PhrasesOf(ps[1..]);
      PhraseOf(ps[0], WritePhrases(ps[1..]));
      assert ps == [ps[0]] + ps[1..];
    } else {
      assert ParsePhrase("") == NoMatch by { NoPhrase(); }
    }
  }

  lemma NoPhrase()
    ensures ParsePhrase("") == NoMatch
  {
  }

  lemma TypeOfText(ct: ContentType)
    requires ReadableType(ct)
    ensures ReadContentType(WriteContentType(ct)) == Match(ct, "")
  {
    hide Run, IsToken, IsTokenChar, ReadablePhrase, WritePhrases, ParsePhrases;
    var tail := WritePhrases(ct.phrases);
    PhrasesOf(ct.phrases);
    var afterMain := "/" + (ct.subType + tail);
    var s := WriteContentType(ct);
    assert s == ct.mainType + afterMain;
    assert afterMain[1..] == ct.subType + tail;
    EqualsIsNoToken();
    TokenOf(ct.mainType, afterMain);
    TokenOf(ct.subType, tail);
    NoLeadingSpace(ct.mainType, afterMain);
    assert s[0..] == s;
  }

  lemma NoLeadingSpace(token: string, s: string)
    requires IsToken(token)
    ensures Span((c: char) => c == ' ', token + s) == 0
  {
    assert IsTokenChar((token + s)[0]);
  }

  // ---------- Words and letters ----------

  lemma CharacterCodesOfTokens(c: char)
    ensures var n := c as int;
            && (IsPrintable(c) <==> 32 <= n <= 126)
            && (IsTokenChar(c) <==> 33 <= n <= 126 && n !in {34, 40, 41, 44, 47, 58, 59, 60, 61, 62, 63, 64, 91, 92, 93})
  {
  }

  /** Characters are alike exactly if they are equal or the two cases of one letter. */
  lemma CaseIsIgnored(a: char, b: char)
    ensures Lower(a) == Lower(b) <==>
            || a == b
            || ('A' <= a <= 'Z' && b as int == a as int + 32)
            || ('A' <= b <= 'Z' && a as int == b as int + 32)
  {
  }

  /** So are words of the same length, character by character. */
  lemma WordsIgnoreCase(a: string, b: string)
    ensures SameIgnoringCase(a, b) <==>
            |a| == |b| && forall i :: 0 <= i < |a| ==>
              || a[i] == b[i]
              || ('A' <= a[i] <= 'Z' && b[i] as int == a[i] as int + 32)
              || ('A' <= b[i] <= 'Z' && a[i] as int == b[i] as int + 32)
  {
    hide Lower;
    if |a| == |b| {
      forall i | 0 <= i < |a| ensures Lower(a[i]) == Lower(b[i]) <==>
                || a[i] == b[i]
                || ('A' <= a[i] <= 'Z' && b[i] as int == a[i] as int + 32)
                || ('A' <= b[i] <= 'Z' && a[i] as int == b[i] as int + 32)
      {
        CaseIsIgnored(a[i], b[i]);
      }
    }
  }

  /** Kinds by words, in any letter case. */
  lemma KindByWords(ct: ContentType)
    ensures KindOf(ct) == Multi <==> SameIgnoringCase(ct.mainType, "multipart")
    ensures KindOf(ct) == Message <==>
            SameIgnoringCase(ct.mainType, "message") && !SameIgnoringCase(ct.subType, "delivery-status")
  {
  }

  lemma TokenHasNoSlash(s: string)
    requires IsToken(s)
    ensures forall i :: 0 <= i < |s| ==> s[i] != '/'
  {
  }

  lemma SameParts(a: string, b: string, x: string, y: string)
    requires |a| == |x|
    ensures SameIgnoringCase(a + b, x + y) <==> SameIgnoringCase(a, x) && SameIgnoringCase(b, y)
  {
    hide Lower;
    var s, t := a + b, x + y;
    assert forall i :: 0 <= i < |a| ==> s[i] == a[i] && t[i] == x[i];
    if |s| == |t| {
      assert forall i :: 0 <= i < |b| ==> s[|a| + i] == b[i] && t[|a| + i] == y[i];
    }
  }

  lemma SlashComesFirst(a: string, b: string, x: string, y: string)
    requires forall i :: 0 <= i < |x| ==> x[i] != '/'
    requires SameIgnoringCase(a + "/" + b, x + "/" + y)
    ensures |a| >= |x|
  {
    var s, t := a + "/" + b, x + "/" + y;
    assert s[|a|] == '/';
    assert forall i :: 0 <= i < |x| ==> t[i] == x[i];
    SlashIsNoLetter(t[|a|]);
    hide Lower;
    assert Lower(s[|a|]) == Lower(t[|a|]);
  }

  lemma SameEitherWay(a: string, b: string)
    requires SameIgnoringCase(a, b)
    ensures SameIgnoringCase(b, a)
  {
  }

  /** Two words joined by a slash are alike exactly if each is. */
  lemma JoinedWords(a: string, b: string, x: string, y: string)
    requires forall i :: 0 <= i < |a| ==> a[i] != '/'
    requires forall i :: 0 <= i < |x| ==> x[i] != '/'
    ensures SameIgnoringCase(a + "/" + b, x + "/" + y) <==> SameIgnoringCase(a, x) && SameIgnoringCase(b, y)
  {
    hide SameIgnoringCase;
    if SameIgnoringCase(a + "/" + b, x + "/" + y) {
      SlashComesFirst(a, b, x, y);
      SameEitherWay(a + "/" + b, x + "/" + y);
      SlashComesFirst(x, y, a, b);
    }
    SameLength(a, x);
    if |a| == |x| {
      SameParts(a + "/", b, x + "/", y);
      SameParts(a, "/", x, "/");
      SameSlash();
    }
  }

  lemma SameLength(a: string, b: string)
    ensures SameIgnoringCase(a, b) ==> |a| == |b|
  {
  }

  lemma SameSlash()
    ensures SameIgnoringCase("/", "/")
  {
  }

  lemma SlashIsNoLetter(c: char)
    ensures Lower(c) == Lower('/') <==> c == '/'
  {
  }

  /** Sub-parts are messages by default inside multipart/digest, in any letter case, and plain text inside all else. */
  lemma DefaultByWords(ct: ContentType)
    requires IsToken(ct.mainType) && IsToken(ct.subType)
    ensures DefaultInside(ct) ==
            if SameIgnoringCase(ct.mainType, "multipart") && SameIgnoringCase(ct.subType, "digest")
            then "message/rfc822" else "text/plain"
  {
    hide SameIgnoringCase, IsToken;
    TokenHasNoSlash(ct.mainType);
    assert "multipart" + "/" + "digest" == "multipart/digest";
    assert forall i :: 0 <= i < |"multipart"| ==> "multipart"[i] != '/';
    JoinedWords(ct.mainType, ct.subType, "multipart", "digest");
  }

  // ---------- The two default types ----------

  predicate IsPlainWord(s: string) {
    s != "" && forall i :: 0 <= i < |s| ==> IsLetter(s[i]) || '0' <= s[i] <= '9'
  }

  lemma PlainCharIsToken(c: char)
    requires IsLetter(c) || '0' <= c <= '9'
    ensures IsTokenChar(c)
  {
  }

  lemma PlainWordIsToken(s: string)
    requires IsPlainWord(s)
    ensures IsToken(s)
  {
    hide IsTokenChar;
    forall i | 0 <= i < |s| ensures IsTokenChar(s[i]) {
      PlainCharIsToken(s[i]);
    }
  }

  lemma PlainTypeOfText(mainType: string, subType: string)
    requires IsPlainWord(mainType) && IsPlainWord(subType)
    ensures ParseContentType(mainType + "/" + subType) == Some(ContentType(mainType, subType, []))
  {
    hide ReadContentType, IsPlainWord, IsToken;
    var ct := ContentType(mainType, subType, []);
    PlainWordIsToken(mainType);
    PlainWordIsToken(subType);
    assert WriteContentType(ct) == mainType + "/" + subType;
    TypeOfText(ct);
  }

  lemma DefaultTypes()
    ensures var ct := ParseContentType(PlainText); ct.Some? && KindOf(ct.value) == Simple
    ensures var ct := ParseContentType(MailMessage); ct.Some? && KindOf(ct.value) == Message
  {
    hide ParseContentType;
    assert "text" + "/" + "plain" == PlainText && "message" + "/" + "rfc822" == MailMessage;
    PlainTypeOfText("text", "plain");
    PlainTypeOfText("message", "rfc822");
  }

  lemma TypesAreTokens(s: string)
    ensures var ct := ParseContentType(s); ct.Some? ==> IsToken(ct.value.mainType) && IsToken(ct.value.subType)
  {
    hide Run, IsToken, ParsePhrases;
    var start := s[Span((c: char) => c == ' ', s)..];
    RunIsToken(start);
    var r := Run(IsTokenChar, start);
    if r.Match? && r.rest != "" { RunIsToken(r.rest[1..]); }
  }

  // ---------- Whatever is read is readable ----------

  lemma RunIsToken(s: string)
    ensures Run(IsTokenChar, s).Match? ==> IsToken(Run(IsTokenChar, s).value)
  {
  }

  lemma ValueIsQuotable(s: string)
    ensures ParsePhraseValue(s).Match? ==> Quotable(ParsePhraseValue(s).value)
  {
    RunIsToken(s);
  }

  lemma {:induction false} PhrasesAreReadable(s: string)
    ensures forall i :: 0 <= i < |ParsePhrases(s).value| ==> ReadablePhrase(ParsePhrases(s).value[i])
    decreases |s|
  {
    hide Run, ParsePhraseValue, IsToken, Quotable, Spaces, OneSpace;
    var r := ParsePhrase(s);
    if r.Match? {
      var name := Spaces(OneSpace(s[1..]).rest);
      RunIsToken(name);
      ValueIsQuotable(Run(IsTokenChar, name).rest[1..]);
      PhrasesAreReadable(r.rest);
    }
  }

  /** Written with its phrases quoted, a content type is read back unchanged
      exactly when its names are tokens and its values can be quoted; the
      content types the grammar returns are exactly these. */
  lemma ContentTypeRoundTrip(ct: ContentType)
    ensures ParseContentType(WriteContentType(ct)) == Some(ct) <==> ReadableType(ct)
  {
    hide IsToken, Run, ReadablePhrase, ParsePhrases;
    if ReadableType(ct) {
      TypeOfText(ct);
    } else {
      var s := WriteContentType(ct);
      var start := s[Span((c: char) => c == ' ', s)..];
      RunIsToken(start);
      if ParseContentType(s).Some? {
        var afterMain := Run(IsTokenChar, start).rest;
        RunIsToken(afterMain[1..]);
        PhrasesAreReadable(Run(IsTokenChar, afterMain[1..]).rest);
      }
    }
  }
}
