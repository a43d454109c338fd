/** Trees of MIME parts: the recursive reader and the recursive writer. */
module Mime {

  import opened Common
  import opened MimeHeaders
  import opened MimeContentType
  import opened MimeGrammar
  import opened MimeAppend
  import opened MimeMultipart

  datatype Part = Part(kind: Kind, headers: seq<Header>, defaultType: string,
                       prologMissing: bool, body: string, epilog: string, parts: seq<Part>)

  // Content type that rules a part: its own header, else the default.
  function TypeOf(hs: seq<Header>, defaultType: string): Option<ContentType> {
    ParseContentType(ContentTypeHeader(hs, defaultType))
  }

  // ---------- The reader ----------

  function Parse(s: string, defaultType: string): (r: Outcome<Part>)
    decreases |s|, 1, 0
  {
    match ParseHeaders(s)
    case NoMatch => Err(BadHeaders)
    case Match(hs, rest) =>
      match TypeOf(hs, defaultType)
      case None => Err(BadContentType)
      case Some(ct) =>
        match KindOf(ct)
        case Simple => Ok(Part(Simple, hs, defaultType, false, rest, "", []))
        case Message =>
          (match Parse(rest, PlainText)
           case Err(e) => Err(e)
           case Ok(inner) => Ok(Part(Message, hs, defaultType, false, "", "", [inner])))
        case Multi =>
          match BoundaryOf(ct)
          case None => Err(NoBoundary)
          case Some(boundary) =>
            match ReadMultipart(boundary, rest)
            case Err(e) => Err(e)
            case Ok(b) =>
              match ParseAll(b.parts, DefaultInside(ct), |s|)
              case Err(e) => Err(e)
              case Ok(parts) => Ok(Part(Multi, hs, defaultType, b.prologMissing, b.prolog, b.epilog, parts))
  }

  // Sub-parts in order; the first failure is the failure of the whole.
  function ParseAll(texts: seq<string>, defaultType: string, bound: nat): (r: Outcome<seq<Part>>)
    requires forall i :: 0 <= i < |texts| ==> |texts[i]| < bound
    decreases bound, 0, |texts|
  {
    if texts == [] then Ok([]) else
    match Parse(texts[0], defaultType)
    case Err(e) => Err(e)
    case Ok(part) =>
      match ParseAll(texts[1..], defaultType, bound)
      case Err(e) => Err(e)
      case Ok(more) => Ok([part] + more)
  }

  // ---------- Inventing a boundary ----------

  // The printed clock: digits, or a sign.
  predicate IsStamp(s: string) {
    forall i :: 0 <= i < |s| ==> '0' <= s[i] <= '9' || s[i] == '-'
  }

  type Stamp = s: string | IsStamp(s)

  // Position of a part in its tree: which sub-part of which sub-part.
  type Path = seq<nat>

  // What the clock shows when the part at a position is printed.
  type Clock = Path -> Stamp

  function NoClock(path: Path): Stamp { "" }

  function Invented(stamp: Stamp): string {
    "------=_NextPart-Proposed.Boost.Mime." + stamp
  }

  function BoundaryPhrase(stamp: Stamp): Phrase {
    Phrase("boundary", Invented(stamp))
  }

  // Appends to the first Content-Type header, or adds one that holds the default.
  function EditHeaders(hs: seq<Header>, defaultType: string, x: string): seq<Header> {
    if hs == [] then [Header("Content-Type", defaultType + x)]
    else if IsContentType(hs[0]) then [Header(hs[0].name, hs[0].value + x)] + hs[1..]
    else [hs[0]] + EditHeaders(hs[1..], defaultType, x)
  }

  datatype Heading = Heading(headers: seq<Header>, boundary: string)

  // Headers and boundary with which a multipart is printed.
  function HeadingOf(t: Part, stamp: Stamp): (r: Outcome<Heading>) {
    match TypeOf(t.headers, t.defaultType)
    case None => Err(BadContentType)
    case Some(ct) =>
      match BoundaryOf(ct)
      case Some(boundary) => Ok(Heading(t.headers, boundary))
      case None =>
        Ok(Heading(EditHeaders(t.headers, t.defaultType, WritePhrase(BoundaryPhrase(stamp))), Invented(stamp)))
  }

  // ---------- The writer ----------

  function Print(t: Part, path: Path, clock: Clock): (r: Outcome<string>)
    decreases t
  {
    match t.kind
    case Simple => Ok(WriteHeaders(t.headers) + t.body)
    case Message =>
      if |t.parts| != 1 then Err(WrongPartCount) else
      (match Print(t.parts[0], path + [0], clock)
       case Err(e) => Err(e)
       case Ok(inner) => Ok(WriteHeaders(t.headers) + inner))
    case Multi =>
      match HeadingOf(t, clock(path))
      case Err(e) => Err(e)
      case Ok(h) =>
        match PrintAll(t.parts, path, 0, clock)
        case Err(e) => Err(e)
        case Ok(texts) =>
          Ok(WriteHeaders(h.headers) + WriteMultipart(h.boundary, Body(t.prologMissing, t.body, texts, t.epilog)))
  }

  // Sub-parts from number i on.
  function PrintAll(ts: seq<Part>, path: Path, i: nat, clock: Clock): (r: Outcome<seq<string>>)
    ensures r.Ok? ==> |r.value| == |ts|
    decreases ts
  {
    if ts == [] then Ok([]) else
    match Print(ts[0], path + [i], clock)
    case Err(e) => Err(e)
    case Ok(text) =>
      match PrintAll(ts[1..], path, i + 1, clock)
      case Err(e) => Err(e)
      case Ok(more) => Ok([text] + more)
  }

  // The tree as printing leaves it.
  function Edited(t: Part, path: Path, clock: Clock): (r: Part)
    ensures r.kind == t.kind && r.defaultType == t.defaultType
    decreases t
  {
    match t.kind
    case Simple => t
    case Message => if |t.parts| != 1 then t else t.(parts := [Edited(t.parts[0], path + [0], clock)])
    case Multi =>
      match HeadingOf(t, clock(path))
      case Err(_) => t
      case Ok(h) => t.(headers := h.headers, parts := EditedAll(t.parts, path, 0, clock))
  }

  function EditedAll(ts: seq<Part>, path: Path, i: nat, clock: Clock): (r: seq<Part>)
    ensures |r| == |ts|
    decreases ts
  {
    if ts == [] then [] else [Edited(ts[0], path + [i], clock)] + EditedAll(ts[1..], path, i + 1, clock)
  }

  // ---------- Which trees are readable: of the reader only the content type is asked ----------

  ghost predicate ReadableTree(t: Part)
    decreases t
  {
    && Readable(t.headers)
    && var ct := TypeOf(t.headers, t.defaultType);
       ct.Some? && t.kind == KindOf(ct.value) &&
       match t.kind
       case Simple =>
         !t.prologMissing && t.epilog == "" && t.parts == []
       case Message =>
         && !t.prologMissing && t.body == "" && t.epilog == "" && |t.parts| == 1
         && ReadableTree(t.parts[0]) && t.parts[0].defaultType == PlainText
       case Multi =>
         && BoundaryOf(ct.value).Some?
         && (forall i :: 0 <= i < |t.parts| ==>
               ReadableTree(t.parts[i]) && t.parts[i].defaultType == DefaultInside(ct.value))
         && var texts := PrintAll(t.parts, [], 0, NoClock);
            && texts.Ok?
            && ReadableBody(BoundaryOf(ct.value).value, Body(t.prologMissing, t.body, texts.value, t.epilog))
  }

  // ---------- Writing what was read ----------

  /** Whatever the reader accepts, at any depth, the writer gives back byte
      for byte, without inventing anything; and the tree in between is readable. */
  lemma {:induction false} ParseThenPrint(s: string, defaultType: string, path: Path, clock: Clock)
    ensures var r := Parse(s, defaultType);
            r.Ok? ==>
              && Print(r.value, path, clock) == Ok(s)
              && ReadableTree(r.value)
              && r.value.defaultType == defaultType
    decreases |s|, 1, 0
  {
    hide ParseHeaders, WriteHeaders, Readable, TypeOf, ReadMultipart, WriteMultipart, ReadableBody,
      KindOf, BoundaryOf, DefaultInside;
    var r := Parse(s, defaultType);
    if r.Ok? {
      HeadersText(s);
      var rest := ParseHeaders(s).rest;
      var ct := TypeOf(r.value.headers, defaultType).value;
      match r.value.kind
      case Simple =>
      case Message =>
        ParseThenPrint(rest, PlainText, path + [0], clock);
      case Multi =>
        var boundary := BoundaryOf(ct).value;
        var b := ReadMultipart(boundary, rest).value;
        BodyText(boundary, rest);
        ParseAllThenPrint(b.parts, DefaultInside(ct), |s|, path, 0, clock);
        ParseAllThenPrint(b.parts, DefaultInside(ct), |s|, [], 0, NoClock);
    }
  }

  lemma {:induction false} ParseAllThenPrint(texts: seq<string>, defaultType: string, bound: nat,
                                             path: Path, n: nat, clock: Clock)
    requires forall i :: 0 <= i < |texts| ==> |texts[i]| < bound
    ensures var r := ParseAll(texts, defaultType, bound);
            r.Ok? ==>
              && PrintAll(r.value, path, n, clock) == Ok(texts)
              && forall i :: 0 <= i < |r.value| ==>
                   ReadableTree(r.value[i]) && r.value[i].defaultType == defaultType
    decreases bound, 0, |texts|
  {
    hide Parse, Print, ReadableTree;
    var r := ParseAll(texts, defaultType, bound);
    if r.Ok? && texts != [] {
      ParseThenPrint(texts[0], defaultType, path + [n], clock);
      ParseAllThenPrint(texts[1..], defaultType, bound, path, n + 1, clock);
      assert r.value[1..] == ParseAll(texts[1..], defaultType, bound).value;
      assert texts == [texts[0]] + texts[1..];
    }
  }

  // ---------- Reading what was written ----------

  // Nothing is invented for a readable tree.
  lemma {:induction false} ClockFree(t: Part, path: Path, clock: Clock, path': Path, clock': Clock)
    requires ReadableTree(t)
    ensures Print(t, path, clock) == Print(t, path', clock') && Edited(t, path, clock) == t
    decreases t
  {
    hide WriteHeaders, Readable, TypeOf, WriteMultipart, ReadableBody, KindOf, BoundaryOf, DefaultInside;
    match t.kind
    case Simple =>
    case Message =>
      ClockFree(t.parts[0], path + [0], clock, path' + [0], clock');
      assert t.parts == [t.parts[0]];
    case Multi =>
      ClockFreeAll(t.parts, path, 0, clock, path', 0, clock');
  }

  lemma {:induction false} ClockFreeAll(ts: seq<Part>, path: Path, n: nat, clock: Clock, path': Path, n': nat, clock': Clock)
    requires forall i :: 0 <= i < |ts| ==> ReadableTree(ts[i])
    ensures PrintAll(ts, path, n, clock) == PrintAll(ts, path', n', clock') && EditedAll(ts, path, n, clock) == ts
    decreases ts
  {
    hide Print, Edited, ReadableTree;
    if ts != [] {
      ClockFree(ts[0], path + [n], clock, path' + [n'], clock');
      ClockFreeAll(ts[1..], path, n + 1, clock, path', n' + 1, clock');
      assert ts == [ts[0]] + ts[1..];
    }
  }

  lemma {:induction false} PrintThenParse(t: Part, path: Path, clock: Clock)
    requires ReadableTree(t)
    ensures Print(t, path, clock).Ok? && Parse(Print(t, path, clock).value, t.defaultType) == Ok(t)
    decreases t
  {
    hide ParseHeaders, WriteHeaders, Readable, TypeOf, ReadMultipart, WriteMultipart, ReadableBody,
      KindOf, BoundaryOf, DefaultInside;
    var ct := TypeOf(t.headers, t.defaultType).value;
    match t.kind
    case Simple =>
      HeadersOf(t.headers, t.body);
    case Message =>
      PrintThenParse(t.parts[0], path + [0], clock);
      HeadersOf(t.headers, Print(t.parts[0], path + [0], clock).value);
      assert t.parts == [t.parts[0]];
    case Multi =>
      ClockFreeAll(t.parts, path, 0, clock, [], 0, NoClock);
      var boundary := BoundaryOf(ct).value;
      var b := Body(t.prologMissing, t.body, PrintAll(t.parts, [], 0, NoClock).value, t.epilog);
      BodyOf(boundary, b);
      HeadersOf(t.headers, WriteMultipart(boundary, b));
      PrintAllThenParse(t.parts, DefaultInside(ct), |Print(t, path, clock).value|, [], 0, NoClock);
  }

  lemma {:induction false} PrintAllThenParse(ts: seq<Part>, defaultType: string, bound: nat,
                                             path: Path, n: nat, clock: Clock)
    requires forall i :: 0 <= i < |ts| ==> ReadableTree(ts[i]) && ts[i].defaultType == defaultType
    requires PrintAll(ts, path, n, clock).Ok?
    requires forall i :: 0 <= i < |ts| ==> |PrintAll(ts, path, n, clock).value[i]| < bound
    ensures ParseAll(PrintAll(ts, path, n, clock).value, defaultType, bound) == Ok(ts)
    decreases ts
  {
    hide Parse, Print, ReadableTree;
    if ts != [] {
      var texts, more := PrintAll(ts, path, n, clock).value, PrintAll(ts[1..], path, n + 1, clock).value;
      assert texts[1..] == more;
      assert forall i :: 0 <= i < |more| ==> more[i] == texts[i + 1];
      PrintThenParse(ts[0], path + [n], clock);
      PrintAllThenParse(ts[1..], defaultType, bound, path, n + 1, clock);
      assert ts == [ts[0]] + ts[1..];
    }
  }

  /** A tree comes back from its own text unchanged exactly when it is
      readable; so the readable trees are exactly what the reader returns. */
  lemma TreeRoundTrip(t: Part, path: Path, clock: Clock)
    ensures Print(t, path, clock).Ok? && Parse(Print(t, path, clock).value, t.defaultType) == Ok(t) <==> ReadableTree(t)
  {
    if ReadableTree(t) {
      PrintThenParse(t, path, clock);
    } else if Print(t, path, clock).Ok? {
      ParseThenPrint(Print(t, path, clock).value, t.defaultType, path, clock);
    }
  }

  // ---------- Parts that do not say what they are ----------

  predicate HasContentType(t: Part) {
    exists i :: 0 <= i < |t.headers| && IsContentType(t.headers[i])
  }

  lemma ReadableSays(t: Part)
    requires ReadableTree(t)
    ensures var ct := TypeOf(t.headers, t.defaultType);
            && ct.Some? && t.kind == KindOf(ct.value)
            && forall i :: 0 <= i < |t.parts| ==>
                 && ReadableTree(t.parts[i])
                 && t.parts[i].defaultType == if t.kind == Multi then DefaultInside(ct.value) else PlainText
  {
    hide TypeOf, KindOf, BoundaryOf, PrintAll, ReadableBody, Readable;
  }

  lemma KindWithoutHeader(t: Part)
    requires ReadableTree(t) && !HasContentType(t)
    ensures t.defaultType == PlainText ==> t.kind == Simple
    ensures t.defaultType == MailMessage ==> t.kind == Message
  {
    hide ReadableTree, ParseContentType, KindOf, IsContentType;
    ReadableSays(t);
    DefaultTypes();
    assert ContentTypeHeader(t.headers, t.defaultType) == t.defaultType;
  }

  /** In whatever the reader accepts, a part without a Content-Type is a message inside a
      multipart/digest, and a simple part inside any other multipart or message. */
  lemma KindByDefault(s: string, defaultType: string, i: nat)
    requires Parse(s, defaultType).Ok?
    requires i < |Parse(s, defaultType).value.parts| && !HasContentType(Parse(s, defaultType).value.parts[i])
    ensures var t := Parse(s, defaultType).value;
            var ct := TypeOf(t.headers, defaultType);
            ct.Some? && t.parts[i].kind ==
              if SameIgnoringCase(ct.value.mainType, "multipart") && SameIgnoringCase(ct.value.subType, "digest")
              then Message else Simple
  {
    hide Parse, Print, ReadableTree, HasContentType, SameIgnoringCase, ParseContentType, IsToken, DefaultInside;
    var t := Parse(s, defaultType).value;
    ParseThenPrint(s, defaultType, [], NoClock);
    ReadableSays(t);
    var header := ContentTypeHeader(t.headers, defaultType);
    TypesAreTokens(header);
    DefaultByWords(ParseContentType(header).value);
    KindByWords(ParseContentType(header).value);
    KindWithoutHeader(t.parts[i]);
  }

  /** What cannot begin a header list is refused as such. */
  lemma NoHeadersIsRefused(s: string, defaultType: string)
    requires !Starts(s, "\r\n") && (s == "" || !IsLetter(s[0]))
    ensures Parse(s, defaultType) == Err(BadHeaders)
  {
  }

  /** So is a content type without a slash. */
  lemma NoTypeIsRefused(hs: seq<Header>, body: string, defaultType: string)
    requires Readable(hs) && forall i :: 0 <= i < |ContentTypeHeader(hs, defaultType)| ==> ContentTypeHeader(hs, defaultType)[i] != '/'
    ensures Parse(WriteHeaders(hs) + body, defaultType) == Err(BadContentType)
  {
    hide ParseHeaders, WriteHeaders, Readable, ParseContentType, ContentTypeHeader;
    HeadersOf(hs, body);
    NoSlashIsNoType(ContentTypeHeader(hs, defaultType));
  }
}
