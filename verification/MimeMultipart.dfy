/** The body of a multipart: cut at its boundary lines by the reader, put
    together again by the writer. */
module MimeMultipart {

  import opened Common
  import opened MimeHeaders

  datatype Body = Body(prologMissing: bool, prolog: string, parts: seq<string>, epilog: string)

  // Expectation is the exception the grammar's ">" operator raises.
  datatype Error = BadHeaders | BadContentType | NoBoundary | BadProlog | BadParts | Expectation | WrongPartCount

  type Outcome<+T> = Result<T, Error>

  function Dashes(boundary: string): string {
    "--" + boundary
  }

  // Separator of the grammar for parts: nothing is required after the boundary.
  function Separator(boundary: string): (r: string)
    ensures |r| == |boundary| + 4
  {
    Crlf + Dashes(boundary)
  }

  // Reach of *(char_ - pat): one character at a time until pat starts.
  function Until(pat: string, s: string): (n: nat)
    ensures n <= |s|
    decreases |s|
  {
    if s == "" || Starts(s, pat) then 0 else 1 + Until(pat, s[1..])
  }

  // It is the least position at which pat starts, or the end.
  lemma {:induction false} UntilIsLeast(pat: string, s: string)
    ensures var n := Until(pat, s);
            && (forall i :: 0 <= i < n ==> !Starts(s[i..], pat))
            && (n < |s| ==> Starts(s[n..], pat))
    decreases |s|
  {
    hide Starts;
    if s != "" {
      assert s[0..] == s;
      if !Starts(s, pat) {
        UntilIsLeast(pat, s[1..]);
        assert forall i :: 1 <= i <= |s| ==> s[i..] == s[1..][i - 1..];
      }
    }
  }

  // ---------- The reader ----------

  datatype Prolog = Prolog(missing: bool, text: string)

  function ParseProlog(boundary: string, s: string): (r: Parsed<Prolog>)
    ensures r.Match? ==> |r.rest| < |s|
  {
    match Literal(Dashes(boundary) + Crlf, s)
    case Match(_, rest) => Match(Prolog(true, ""), rest)
    case NoMatch =>
      var n := Until(Separator(boundary) + Crlf, s);
      if n == 0 then NoMatch else
      match Literal(Separator(boundary) + Crlf, s[n..])
      case Match(_, rest) => Match(Prolog(false, s[..n]), rest)
      case NoMatch => NoMatch
  }

  // List of parts; when the text after a separator is not a part, the list
  // ends before that separator.
  function ParseParts(boundary: string, s: string): (r: Parsed<seq<string>>)
    ensures r.Match? ==> |r.rest| < |s| && forall i :: 0 <= i < |r.value| ==> |r.value[i]| <= |s|
    decreases |s|
  {
    hide Until, Starts, Separator;
    var n := Until(Separator(boundary), s);
    if n == 0 then NoMatch else
    match Literal(Separator(boundary) + Crlf, s[n..])
    case NoMatch => Match([s[..n]], s[n..])
    case Match(_, after) =>
      match ParseParts(boundary, after)
      case NoMatch => Match([s[..n]], s[n..])
      case Match(more, rest) => Match([s[..n]] + more, rest)
  }

  function ReadMultipart(boundary: string, s: string): (r: Outcome<Body>)
    ensures r.Ok? ==> forall i :: 0 <= i < |r.value.parts| ==> |r.value.parts[i]| < |s|
  {
    match ParseProlog(boundary, s)
    case NoMatch => Err(BadProlog)
    case Match(prolog, afterProlog) =>
      match ParseParts(boundary, afterProlog)
      case NoMatch => Err(BadParts)
      case Match(parts, afterParts) =>
        match Literal(Separator(boundary) + "--" + Crlf, afterParts)
        case NoMatch => Err(Expectation)
        case Match(_, epilog) => Ok(Body(prolog.missing, prolog.text, parts, epilog))
  }

  // ---------- The writer ----------

  function WriteBoundary(boundary: string, isLast: bool, leadingCR: bool): string {
    (if leadingCR then Crlf else "") + Dashes(boundary) + (if isLast then "--" else "") + Crlf
  }

  function WriteParts(boundary: string, parts: seq<string>, leadingCR: bool): string {
    if parts == [] then WriteBoundary(boundary, true, true)
    else WriteBoundary(boundary, false, leadingCR) + parts[0] + WriteParts(boundary, parts[1..], true)
  }

  function WriteMultipart(boundary: string, b: Body): string {
    b.prolog + WriteParts(boundary, b.parts, |b.prolog| > 0 || !b.prologMissing) + b.epilog
  }

  /** A body of one part, written out: without a prolog, and with one. */
  lemma WrittenBody(b: string, prolog: string, part: string, epilog: string)
    ensures WriteMultipart(b, Body(true, "", [part], epilog))
         == "--" + b + "\r\n" + part + "\r\n--" + b + "--\r\n" + epilog
    ensures prolog != "" ==>
              WriteMultipart(b, Body(false, prolog, [part], epilog))
              == prolog + "\r\n--" + b + "\r\n" + part + "\r\n--" + b + "--\r\n" + epilog
  {
    hide WriteParts;
    WrittenPart(b, part);
  }

  lemma WrittenPart(b: string, part: string)
    ensures WriteParts(b, [part], false) == "--" + b + "\r\n" + part + "\r\n--" + b + "--\r\n"
    ensures WriteParts(b, [part], true) == "\r\n--" + b + "\r\n" + part + "\r\n--" + b + "--\r\n"
  {
    assert [part][1..] == [];
    assert "\r\n--" == Crlf + "--" && "--\r\n" == "--" + Crlf;
    WritePartsLast(b);
    assert Terminator(b) == "\r\n--" + b + "--\r\n";
  }

  // ---------- Which bodies are readable, said without the parser ----------

  // pat does not start inside text, not even when it runs on into the
  // occurrence that follows the text.
  predicate FreeOf(text: string, pat: string) {
    forall i :: 0 <= i < |text| ==> !Starts((text + pat)[i..], pat)
  }

  predicate ReadableProlog(boundary: string, missing: bool, prolog: string) {
    if missing then prolog == ""
    else
      && prolog != ""
      && FreeOf(prolog, Separator(boundary) + Crlf)
      && !Starts(prolog + Separator(boundary) + Crlf, Dashes(boundary) + Crlf)
  }

  predicate ReadablePart(boundary: string, part: string) {
    part != "" && FreeOf(part, Separator(boundary))
  }

  predicate ReadableBody(boundary: string, b: Body) {
    && ReadableProlog(boundary, b.prologMissing, b.prolog)
    && b.parts != []
    && forall i :: 0 <= i < |b.parts| ==> ReadablePart(boundary, b.parts[i])
  }

  // ---------- Reading what was written ----------

  lemma StartsOf(s: string, more: string, pat: string)
    requires |pat| <= |s|
    ensures Starts(s + more, pat) == Starts(s, pat)
  {
    assert (s + more)[..|pat|] == s[..|pat|];
  }

  // Text is free of pat exactly when the reader stops at its end.
  lemma UntilFree(text: string, pat: string, more: string)
    requires pat != ""
    ensures Until(pat, text + pat + more) == |text| <==> FreeOf(text, pat)
  {
    hide Until, Starts;
    var s := text + pat + more;
    UntilIsLeast(pat, s);
    forall i | 0 <= i < |text|
      ensures Starts(s[i..], pat) == Starts((text + pat)[i..], pat)
    {
      StartsWithin(text, pat, more, i);
    }
    StartsAfter(text, pat, more);
  }

  lemma StartsWithin(text: string, pat: string, more: string, i: nat)
    requires i < |text|
    ensures Starts((text + pat + more)[i..], pat) == Starts((text + pat)[i..], pat)
  {
    hide Starts;
    assert (text + pat + more)[i..] == (text + pat)[i..] + more;
    StartsOf((text + pat)[i..], more, pat);
  }

  lemma StartsAfter(text: string, pat: string, more: string)
    ensures Starts((text + pat + more)[|text|..], pat)
  {
    assert (text + pat + more)[|text|..] == pat + more;
    assert (pat + more)[..|pat|] == pat;
  }

  lemma ConsumedText(lit: string, s: string)
    ensures Literal(lit, s).Match? ==> s == lit + Literal(lit, s).rest
  {
  }

  function Terminator(boundary: string): string {
    Separator(boundary) + "--" + Crlf
  }

  lemma WritePartsLast(boundary: string)
    ensures WriteParts(boundary, [], true) == Terminator(boundary)
  {
  }

  lemma WritePartsMore(boundary: string, parts: seq<string>)
    requires parts != []
    ensures WriteParts(boundary, parts, true)
         == Separator(boundary) + Crlf + parts[0] + WriteParts(boundary, parts[1..], true)
  {
  }

  // The separator after a part announces another part, or the terminator.
  lemma SeparatorIsNotTerminator(boundary: string, more: string, rest: string)
    ensures Separator(boundary) + Crlf + more != Terminator(boundary) + rest
  {
    var n := |Separator(boundary)|;
    assert (Separator(boundary) + Crlf + more)[n] == '\r';
    assert (Terminator(boundary) + rest)[n] == '-';
  }

  // One part and then what the writer puts after it.
  lemma PartStep(boundary: string, part: string, more: string)
    ensures var s := part + Separator(boundary) + more;
            Until(Separator(boundary), s) == |part| <==> FreeOf(part, Separator(boundary))
    ensures (part + Separator(boundary) + more)[..|part|] == part
    ensures (part + Separator(boundary) + more)[|part|..] == Separator(boundary) + more
  {
    UntilFree(part, Separator(boundary), more);
    assert (part + Separator(boundary) + more)[..|part|] == part;
    assert (part + Separator(boundary) + more)[|part|..] == Separator(boundary) + more;
  }

  lemma LastPart(boundary: string, part: string, epilog: string)
    requires ReadablePart(boundary, part)
    ensures var end := Terminator(boundary) + epilog;
            ParseParts(boundary, part + end) == Match([part], end)
  {
    hide FreeOf, Separator, Until;
    var sep := Separator(boundary);
    var end := Terminator(boundary) + epilog;
    var more := "--" + Crlf + epilog;
    assert end == sep + more;
    assert part + end == part + sep + more;
    PartStep(boundary, part, more);
    var l := Literal(sep + Crlf, end);
    ConsumedText(sep + Crlf, end);
    if l.Match? { SeparatorIsNotTerminator(boundary, l.rest, epilog); }
  }

  lemma EarlierPart(boundary: string, part: string, tail: string)
    requires ReadablePart(boundary, part)
    requires ParseParts(boundary, tail).Match?
    ensures var r := ParseParts(boundary, tail);
            ParseParts(boundary, part + (Separator(boundary) + Crlf + tail)) == Match([part] + r.value, r.rest)
  {
    hide FreeOf, Separator, Until, Literal;
    var sep := Separator(boundary);
    var more := Crlf + tail;
    assert part + (sep + Crlf + tail) == part + sep + more;
    PartStep(boundary, part, more);
    assert sep + more == (sep + Crlf) + tail;
    LiteralOf(sep + Crlf, tail);
  }

  lemma {:induction false} PartsOf(boundary: string, parts: seq<string>, epilog: string)
    requires parts != []
    requires forall i :: 0 <= i < |parts| ==> ReadablePart(boundary, parts[i])
    ensures var s := parts[0] + WriteParts(boundary, parts[1..], true) + epilog;
            ParseParts(boundary, s) == Match(parts, Terminator(boundary) + epilog)
  {
    hide ParseParts, Separator, WriteParts, ReadablePart, Terminator;
    var s := parts[0] + WriteParts(boundary, parts[1..], true) + epilog;
    if |parts| == 1 {
      WritePartsLast(boundary);
      assert parts[1..] == [] && parts == [parts[0]];
      assert s == parts[0] + (Terminator(boundary) + epilog);
      LastPart(boundary, parts[0], epilog);
    } else {
      var more := parts[1..];
      WritePartsMore(boundary, more);
      PartsOf(boundary, more, epilog);
      var tail := more[0] + WriteParts(boundary, more[1..], true) + epilog;
      assert s == parts[0] + (Separator(boundary) + Crlf + tail);
      EarlierPart(boundary, parts[0], tail);
      assert parts == [parts[0]] + more;
    }
  }

  // ---------- Writing what was read ----------

  // Where the reader stops, the text splits into what it took, the pattern
  // and the rest.
  lemma UntilSplits(pat: string, s: string)
    requires pat != ""
    ensures var n := Until(pat, s);
            n < |s| ==>
              && FreeOf(s[..n], pat)
              && n + |pat| <= |s| && s == s[..n] + pat + s[n..][|pat|..]
  {
    hide FreeOf, Until;
    var n := Until(pat, s);
    UntilIsLeast(pat, s);
    if n < |s| {
      var more := s[n..][|pat|..];
      assert s[n..] == pat + more;
      assert s == s[..n] + pat + more;
      UntilFree(s[..n], pat, more);
    }
  }

  lemma FirstPart(boundary: string, s: string)
    ensures var n := Until(Separator(boundary), s);
            0 < n < |s| ==> ReadablePart(boundary, s[..n])
  {
    hide FreeOf, Until;
    UntilSplits(Separator(boundary), s);
  }

  lemma {:induction false} PartsText(boundary: string, s: string, epilog: string)
    ensures var r := ParseParts(boundary, s);
            r.Match? && r.rest == Terminator(boundary) + epilog ==>
              && r.value != []
              && s == r.value[0] + WriteParts(boundary, r.value[1..], true) + epilog
              && forall i :: 0 <= i < |r.value| ==> ReadablePart(boundary, r.value[i])
    decreases |s|
  {
    hide FreeOf, Until, Separator, WriteParts, Terminator, ReadablePart, Literal;
    var sep := Separator(boundary);
    var r := ParseParts(boundary, s);
    if r.Match? && r.rest == Terminator(boundary) + epilog {
      var n := Until(sep, s);
      var l := Literal(sep + Crlf, s[n..]);
      ConsumedText(sep + Crlf, s[n..]);
      FirstPart(boundary, s);
      if l.Match? && ParseParts(boundary, l.rest).Match? {
        PartsText(boundary, l.rest, epilog);
        MoreText(boundary, s, n, ParseParts(boundary, l.rest).value, l.rest, epilog);
      } else {
        if l.Match? { SeparatorIsNotTerminator(boundary, l.rest, epilog); }
        LastText(boundary, s, n, epilog);
      }
    }
  }

  lemma MoreText(boundary: string, s: string, n: nat, more: seq<string>, rest: string, epilog: string)
    requires n <= |s| && s[n..] == Separator(boundary) + Crlf + rest
    requires more != [] && rest == more[0] + WriteParts(boundary, more[1..], true) + epilog
    ensures n < |s|
    ensures ([s[..n]] + more)[1..] == more
    ensures s == s[..n] + WriteParts(boundary, more, true) + epilog
  {
    hide WriteParts, Separator;
    WritePartsMore(boundary, more);
    var sep := Separator(boundary);
    assert s == s[..n] + s[n..];
    assert s[n..] == WriteParts(boundary, more, true) + epilog;
  }

  lemma LastText(boundary: string, s: string, n: nat, epilog: string)
    requires n <= |s| && s[n..] == Terminator(boundary) + epilog
    ensures n < |s|
    ensures [s[..n]][1..] == []
    ensures s == s[..n] + WriteParts(boundary, [], true) + epilog
  {
    hide WriteParts;
    WritePartsLast(boundary);
    assert s == s[..n] + s[n..];
  }

  // ---------- The whole body ----------

  lemma PrologOf(boundary: string, missing: bool, prolog: string, tail: string)
    requires ReadableProlog(boundary, missing, prolog)
    ensures ParseProlog(boundary, prolog + WriteBoundary(boundary, false, |prolog| > 0 || !missing) + tail)
         == Match(Prolog(missing, prolog), tail)
  {
    hide FreeOf, Until, Starts;
    var bare := Dashes(boundary) + Crlf;
    var sep := Separator(boundary) + Crlf;
    var s := prolog + WriteBoundary(boundary, false, |prolog| > 0 || !missing) + tail;
    if missing {
      assert s == bare + tail;
      LiteralOf(bare, tail);
    } else {
      assert s == prolog + sep + tail;
      StartsOf(prolog + sep, tail, bare);
      assert prolog + Separator(boundary) + Crlf == prolog + sep;
      UntilFree(prolog, sep, tail);
      assert s[..|prolog|] == prolog && s[|prolog|..] == sep + tail;
      LiteralOf(sep, tail);
    }
  }

  lemma PrologText(boundary: string, s: string)
    ensures var r := ParseProlog(boundary, s);
            r.Match? ==>
              && s == r.value.text + WriteBoundary(boundary, false, |r.value.text| > 0 || !r.value.missing) + r.rest
              && ReadableProlog(boundary, r.value.missing, r.value.text)
  {
    hide FreeOf, Starts, Until, Dashes;
    var bare := Dashes(boundary) + Crlf;
    var sep := Separator(boundary) + Crlf;
    var r := ParseProlog(boundary, s);
    ConsumedText(bare, s);
    if r.Match? && !r.value.missing {
      ConsumedText(sep, s[Until(sep, s)..]);
      UntilSplits(sep, s);
      var prolog := s[..Until(sep, s)];
      assert WriteBoundary(boundary, false, true) == sep;
      StartsOf(prolog + sep, r.rest, bare);
      assert prolog + Separator(boundary) + Crlf == prolog + sep;
    }
  }

  lemma WriteMultipartSteps(boundary: string, b: Body)
    requires b.parts != []
    ensures WriteMultipart(boundary, b)
         == b.prolog + WriteBoundary(boundary, false, |b.prolog| > 0 || !b.prologMissing)
          + (b.parts[0] + WriteParts(boundary, b.parts[1..], true) + b.epilog)
  {
    hide WriteBoundary;
  }

  lemma BodyOf(boundary: string, b: Body)
    requires ReadableBody(boundary, b)
    ensures ReadMultipart(boundary, WriteMultipart(boundary, b)) == Ok(b)
  {
    hide WriteBoundary, WriteParts, ReadableProlog, ReadablePart, ParseProlog, ParseParts, WriteMultipart, Literal;
    var afterProlog := b.parts[0] + WriteParts(boundary, b.parts[1..], true) + b.epilog;
    WriteMultipartSteps(boundary, b);
    PrologOf(boundary, b.prologMissing, b.prolog, afterProlog);
    PartsOf(boundary, b.parts, b.epilog);
    LiteralOf(Terminator(boundary), b.epilog);
  }

  /** A body the reader accepts is readable and is written back as it was. */
  lemma BodyText(boundary: string, s: string)
    ensures var r := ReadMultipart(boundary, s);
            r.Ok? ==> WriteMultipart(boundary, r.value) == s && ReadableBody(boundary, r.value)
  {
    hide WriteBoundary, WriteParts, ReadableProlog, ReadablePart, ParseProlog, ParseParts, WriteMultipart, Literal;
    var r := ReadMultipart(boundary, s);
    if r.Ok? {
      PrologText(boundary, s);
      var afterProlog := ParseProlog(boundary, s).rest;
      var afterParts := ParseParts(boundary, afterProlog).rest;
      ConsumedText(Terminator(boundary), afterParts);
      PartsText(boundary, afterProlog, r.value.epilog);
      WriteMultipartSteps(boundary, r.value);
    }
  }

  /** The bodies that come back unchanged are exactly the readable ones. */
  lemma BodyRoundTrip(boundary: string, b: Body)
    ensures ReadMultipart(boundary, WriteMultipart(boundary, b)) == Ok(b) <==> ReadableBody(boundary, b)
  {
    if ReadableBody(boundary, b) { BodyOf(boundary, b); } else { BodyText(boundary, WriteMultipart(boundary, b)); }
  }

  /** A prolog of length zero that is not marked missing, the state of every
      multipart built part by part, is written in a form the reader refuses. */
  lemma ZeroLengthPrologIsLost(boundary: string, parts: seq<string>, epilog: string)
    requires parts != []
    ensures ReadMultipart(boundary, WriteMultipart(boundary, Body(false, "", parts, epilog))) == Err(BadProlog)
  {
    hide WriteParts;
    var b := Body(false, "", parts, epilog);
    var tail := b.parts[0] + WriteParts(boundary, b.parts[1..], true) + b.epilog;
    var sep := Separator(boundary) + Crlf;
    var s := WriteMultipart(boundary, b);
    WriteMultipartSteps(boundary, b);
    assert s == sep + tail;
    assert s[0] == '\r';
    assert Starts(s, sep);
    ConsumedText(Dashes(boundary) + Crlf, s);
  }

  // ---------- Which error ----------

  /** After the first boundary line: nothing, or a separator at once, is no part. */
  lemma NoPartIsRefused(boundary: string, more: string)
    ensures ReadMultipart(boundary, Dashes(boundary) + Crlf) == Err(BadParts)
    ensures ReadMultipart(boundary, Dashes(boundary) + Crlf + (Separator(boundary) + more)) == Err(BadParts)
  {
    hide ParseParts, Dashes, Separator;
    var bare := Dashes(boundary) + Crlf;
    LiteralOf(bare, "");
    assert bare + "" == bare;
    LiteralOf(bare, Separator(boundary) + more);
    NoPartAt(boundary, more);
  }

  lemma NoPartAt(boundary: string, more: string)
    ensures ParseParts(boundary, "") == NoMatch && ParseParts(boundary, Separator(boundary) + more) == NoMatch
  {
    hide Separator;
    StartsAfter("", Separator(boundary), more);
    assert ("" + Separator(boundary) + more)[0..] == Separator(boundary) + more;
  }

  /** Text without a separator has no end. */
  lemma EndlessPartIsRefused(boundary: string, text: string)
    requires text != "" && forall i :: 0 <= i < |text| ==> !Starts(text[i..], Separator(boundary))
    ensures ReadMultipart(boundary, Dashes(boundary) + Crlf + text) == Err(Expectation)
  {
    hide Dashes, Separator, Starts, Until;
    LiteralOf(Dashes(boundary) + Crlf, text);
    UntilIsLeast(Separator(boundary), text);
    assert text[|text|..] == "" && text[..|text|] == text;
    NothingMatches(Separator(boundary) + Crlf);
    NothingMatches(Separator(boundary) + "--" + Crlf);
  }

  lemma NothingMatches(lit: string)
    requires lit != ""
    ensures Literal(lit, "") == NoMatch
  {
  }

  /** An empty part between two separators ends the list before it, where no terminator is. */
  lemma EmptyPartIsRefused(boundary: string, part: string, more: string)
    requires ReadablePart(boundary, part)
    ensures ReadMultipart(boundary, Dashes(boundary) + Crlf + (part + (Separator(boundary) + Crlf + (Separator(boundary) + more))))
         == Err(Expectation)
  {
    hide Dashes, Separator, ReadablePart, ParseParts, Literal;
    var sep := Separator(boundary);
    var rest := sep + Crlf + (sep + more);
    LiteralOf(Dashes(boundary) + Crlf, part + rest);
    ListStops(boundary, part, more);
    ConsumedText(sep + "--" + Crlf, rest);
    var l := Literal(sep + "--" + Crlf, rest);
    if l.Match? { SeparatorIsNotTerminator(boundary, sep + more, l.rest); }
  }

  lemma ListStops(boundary: string, part: string, more: string)
    requires ReadablePart(boundary, part)
    ensures var rest := Separator(boundary) + Crlf + (Separator(boundary) + more);
            ParseParts(boundary, part + rest) == Match([part], rest)
  {
    hide FreeOf, Separator, Until, Literal;
    var sep := Separator(boundary);
    var tail := sep + more;
    var rest := sep + Crlf + tail;
    assert part + rest == part + sep + (Crlf + tail) && rest == sep + (Crlf + tail);
    PartStep(boundary, part, Crlf + tail);
    LiteralOf(sep + Crlf, tail);
    NoPartAt(boundary, more);
  }
}
