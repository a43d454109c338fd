/** Printing a tree in which multiparts have no boundary: when the tree that printing
    leaves behind is the tree that its text parses to. */
module MimeEdit {

  import opened Common
  import opened MimeHeaders
  import opened MimeContentType
  import opened MimeAppend
  import opened MimeMultipart
  import opened MimeDivision
  import opened Mime

  // ---------- One multipart ----------

  predicate NeedsBoundary(t: Part) {
    var ct := TypeOf(t.headers, t.defaultType);
    ct.Some? && BoundaryOf(ct.value).None?
  }

  // The grammar reads the content type of the part to its end.
  predicate TypeIsRead(t: Part) {
    var r := ReadContentType(ContentTypeHeader(t.headers, t.defaultType));
    r.Match? ==> r.rest == ""
  }

  predicate IsBoundaryChar(c: char) {
    IsLetter(c) || '0' <= c <= '9' || c == '-' || c == '=' || c == '_' || c == '.'
  }

  lemma InventedChars(stamp: Stamp)
    ensures Invented(stamp) != "" && forall i :: 0 <= i < |Invented(stamp)| ==> IsBoundaryChar(Invented(stamp)[i])
  {
    var prefix := Invented("");
    assert prefix + stamp == Invented(stamp);
    forall i | 0 <= i < |prefix| ensures IsBoundaryChar(prefix[i]) {
    }
  }

  /** Package name and clock, as they are printed. */
  lemma InventedForm(stamp: Stamp)
    ensures Invented("00000042") == "------=_NextPart-Proposed.Boost.Mime.00000042"
    ensures WritePhrase(BoundaryPhrase(stamp)) == "; boundary=\"" + Invented(stamp) + "\""
  {
    hide Invented;
    assert Invented("00000042") == "------=_NextPart-Proposed.Boost.Mime.00000042" by { InventedExample(); }
    assert "; " + "boundary" + "=\"" == "; boundary=\"";
  }

  lemma InventedExample()
    ensures Invented("00000042") == "------=_NextPart-Proposed.Boost.Mime.00000042"
  {
  }

  lemma InventedIsReadable(stamp: Stamp)
    ensures ReadablePhrase(BoundaryPhrase(stamp)) && ';' !in Invented(stamp) && NoReturn(Invented(stamp))
  {
    hide Invented, IsToken;
    InventedChars(stamp);
    PlainWordIsToken("boundary");
  }

  lemma {:induction false} EditedContentType(hs: seq<Header>, defaultType: string, x: string)
    ensures ContentTypeHeader(EditHeaders(hs, defaultType, x), defaultType) == ContentTypeHeader(hs, defaultType) + x
  {
    hide SameIgnoringCase;
    var edited := EditHeaders(hs, defaultType, x);
    if hs == [] {
      assert IsContentType(edited[0]) by { OwnName(); }
    } else if !IsContentType(hs[0]) {
      EditedContentType(hs[1..], defaultType, x);
      assert edited[1..] == EditHeaders(hs[1..], defaultType, x);
    } else {
      assert IsContentType(edited[0]);
    }
  }

  lemma OwnName()
    ensures SameIgnoringCase("Content-Type", "Content-Type")
  {
  }

  /** An invented boundary is announced by the edited header exactly when the grammar had read
      the content type to its end; the kind of the part does not change. */
  lemma AnnouncedExactlyIf(t: Part, stamp: Stamp)
    requires NeedsBoundary(t)
    ensures HeadingOf(t, stamp).Ok?
    ensures var h := HeadingOf(t, stamp).value;
            var ct := TypeOf(h.headers, t.defaultType);
            && h.boundary == Invented(stamp) && ct.Some?
            && KindOf(ct.value) == KindOf(TypeOf(t.headers, t.defaultType).value)
            && (BoundaryOf(ct.value) == Some(h.boundary) <==> TypeIsRead(t))
  {
    hide ReadContentType, WritePhrase, Invented, ReadablePhrase, FindPhrase, EditHeaders, ContentTypeHeader;
    var p := BoundaryPhrase(stamp);
    var s := ContentTypeHeader(t.headers, t.defaultType);
    InventedIsReadable(stamp);
    EditedContentType(t.headers, t.defaultType, WritePhrase(p));
    FoundExactlyIf(s, p);
  }

  // ---------- Whole trees ----------

  // Wherever a boundary has to be invented, the content type is read to its end.
  predicate Complete(t: Part)
    decreases t
  {
    match t.kind
    case Simple => true
    case Message => |t.parts| == 1 ==> Complete(t.parts[0])
    case Multi =>
      && (NeedsBoundary(t) ==> TypeIsRead(t))
      && forall i :: 0 <= i < |t.parts| ==> Complete(t.parts[i])
  }

  // Boundaries are announced by the headers they are printed under.
  lemma SameHeading(t: Part, stamp: Stamp, e: Part, stamp': Stamp)
    requires HeadingOf(t, stamp).Ok?
    requires e.headers == HeadingOf(t, stamp).value.headers && e.defaultType == t.defaultType
    requires NeedsBoundary(t) ==> TypeIsRead(t)
    ensures HeadingOf(e, stamp') == HeadingOf(t, stamp)
  {
    hide TypeIsRead, BoundaryOf, EditHeaders, Invented, WritePhrase, TypeOf;
    if NeedsBoundary(t) { AnnouncedExactlyIf(t, stamp); }
  }

  lemma {:induction false} CompletePrintsAlike(t: Part, path: Path, clock: Clock)
    requires Complete(t) && ReadableTree(Edited(t, path, clock))
    ensures Print(Edited(t, path, clock), path, clock) == Print(t, path, clock)
    decreases t
  {
    hide WriteHeaders, WriteMultipart, HeadingOf, TypeIsRead, ReadableTree, TypeOf, KindOf, DefaultInside, NeedsBoundary,
      PrintAll, EditedAll;
    var e := Edited(t, path, clock);
    ReadableSays(e);
    match t.kind
    case Simple =>
    case Message =>
      if |t.parts| == 1 {
        assert e.parts[0] == Edited(t.parts[0], path + [0], clock);
        CompletePrintsAlike(t.parts[0], path + [0], clock);
      }
    case Multi =>
      if HeadingOf(t, clock(path)).Ok? {
        SameHeading(t, clock(path), e, clock(path));
        CompleteAllPrintAlike(t.parts, path, 0, clock);
      }
  }

  lemma {:induction false} CompleteAllPrintAlike(ts: seq<Part>, path: Path, n: nat, clock: Clock)
    requires forall i :: 0 <= i < |ts| ==> Complete(ts[i]) && ReadableTree(EditedAll(ts, path, n, clock)[i])
    ensures PrintAll(EditedAll(ts, path, n, clock), path, n, clock) == PrintAll(ts, path, n, clock)
    decreases ts
  {
    hide Print, Edited, ReadableTree, Complete;
    if ts != [] {
      var es, more := EditedAll(ts, path, n, clock), EditedAll(ts[1..], path, n + 1, clock);
      assert es[0] == Edited(ts[0], path + [n], clock) && es[1..] == more;
      assert forall i :: 0 <= i < |more| ==> more[i] == es[i + 1];
      CompletePrintsAlike(ts[0], path + [n], clock);
      CompleteAllPrintAlike(ts[1..], path, n + 1, clock);
    }
  }

  // ---------- The other direction: a text fixes its boundaries and parts ----------

  lemma ReadBoundaryHasNoReturn(s: string)
    ensures var ct := ParseContentType(s);
            ct.Some? && BoundaryOf(ct.value).Some? ==> NoReturn(BoundaryOf(ct.value).value)
  {
    hide ParseTypes, ParsePhrases, FindPhrase, NoReturn;
    if ParseTypes(s).Match? {
      var tail := ParseTypes(s).rest;
      var phrases := ParsePhrases(tail).value;
      PhrasesAreReadable(tail);
      forall i | 0 <= i < |phrases| ensures NoReturn(phrases[i].value) {
        ReadableHasNoReturn(phrases[i]);
      }
    }
  }

  lemma ReadableHasNoReturn(p: Phrase)
    requires ReadablePhrase(p)
    ensures NoReturn(p.value)
  {
  }

  lemma HeadingHasNoReturn(t: Part, stamp: Stamp)
    ensures HeadingOf(t, stamp).Ok? ==> NoReturn(HeadingOf(t, stamp).value.boundary)
  {
    hide ParseContentType, BoundaryOf, Invented, NoReturn, EditHeaders;
    ReadBoundaryHasNoReturn(ContentTypeHeader(t.headers, t.defaultType));
    InventedIsReadable(stamp);
  }

  lemma HeadersStart(hs: seq<Header>, s: string)
    requires Readable(hs)
    ensures var t := WriteHeaders(hs) + s; t != "" && t[0] != '-'
  {
    if hs != [] { assert (WriteHeaders(hs) + s)[0] == hs[0].name[0]; }
  }

  lemma ReadableTextStarts(t: Part, path: Path, clock: Clock)
    requires ReadableTree(t) && Print(t, path, clock).Ok?
    ensures Print(t, path, clock).value != "" && Print(t, path, clock).value[0] != '-'
  {
    hide WriteHeaders, WriteMultipart, Readable, TypeOf, BoundaryOf, KindOf, ReadableBody, DefaultInside;
    match t.kind
    case Simple => HeadersStart(t.headers, t.body);
    case Message => HeadersStart(t.headers, Print(t.parts[0], path + [0], clock).value);
    case Multi =>
      var texts := PrintAll(t.parts, path, 0, clock).value;
      HeadersStart(t.headers, WriteMultipart(HeadingOf(t, clock(path)).value.boundary,
                                             Body(t.prologMissing, t.body, texts, t.epilog)));
  }

  lemma {:induction false} ReadableTextsStart(ts: seq<Part>, path: Path, n: nat, clock: Clock)
    requires forall i :: 0 <= i < |ts| ==> ReadableTree(ts[i])
    requires PrintAll(ts, path, n, clock).Ok?
    ensures forall i :: 0 <= i < |ts| ==>
              var text := PrintAll(ts, path, n, clock).value[i]; text != "" && text[0] != '-'
    decreases ts
  {
    hide Print, ReadableTree;
    if ts != [] {
      ReadableTextStarts(ts[0], path + [n], clock);
      ReadableTextsStart(ts[1..], path, n + 1, clock);
    }
  }

  // Two bodies with the same text, one of them readable, are the same.
  lemma SameBodies(boundary: string, b: Body, other: string, o: Body)
    requires WriteMultipart(boundary, b) == WriteMultipart(other, o)
    requires b == o.(parts := b.parts) && |b.parts| == |o.parts|
    requires NoReturn(boundary) && NoReturn(other) && ReadableBody(other, o)
    requires forall i :: 0 <= i < |o.parts| ==> o.parts[i] != "" && o.parts[i][0] != '-'
    ensures boundary == other && b.parts == o.parts
  {
    hide WriteMultipart, NoReturn, WriteParts, ReadableProlog, ReadablePart;
    BoundaryIsUnique(boundary, b, other, o);
    WriteMultipartSteps(boundary, b);
    WriteMultipartSteps(boundary, o);
    var line := o.prolog + WriteBoundary(boundary, false, |o.prolog| > 0 || !o.prologMissing);
    SameMiddle(line, Listed(boundary, b.parts), Listed(boundary, o.parts), o.epilog);
    DivisionIsUnique(boundary, b.parts, o.parts);
  }

  lemma SameMiddle(a: string, x: string, y: string, c: string)
    requires a + (x + c) == a + (y + c)
    ensures x == y
  {
    var s, t := a + (x + c), a + (y + c);
    assert |x| == |y|;
    assert x == s[|a|..|a| + |x|] && y == t[|a|..|a| + |x|];
  }

  lemma MultiPrintsAlike(t: Part, e: Part, path: Path, clock: Clock)
    requires t.kind == Multi && e == Edited(t, path, clock) && ReadableTree(e)
    requires Print(e, path, clock) == Print(t, path, clock) && Print(t, path, clock).Ok?
    ensures NeedsBoundary(t) ==> TypeIsRead(t)
    ensures e.parts == EditedAll(t.parts, path, 0, clock)
    ensures PrintAll(e.parts, path, 0, clock) == PrintAll(t.parts, path, 0, clock)
    ensures PrintAll(t.parts, path, 0, clock).Ok?
  {
    hide WriteHeaders, WriteMultipart, Readable, TypeOf, BoundaryOf, KindOf, ReadableBody, DefaultInside, TypeIsRead,
      NoReturn, EditHeaders, Invented;
    var h, g := HeadingOf(t, clock(path)).value, HeadingOf(e, clock(path)).value;
    var texts, etexts := PrintAll(t.parts, path, 0, clock).value, PrintAll(e.parts, path, 0, clock).value;
    var b, o := Body(t.prologMissing, t.body, texts, t.epilog), Body(t.prologMissing, t.body, etexts, t.epilog);
    ClockFreeAll(e.parts, path, 0, clock, [], 0, NoClock);
    assert ReadableBody(g.boundary, o);
    SameTail(WriteHeaders(h.headers), WriteMultipart(h.boundary, b), WriteMultipart(g.boundary, o));
    HeadingHasNoReturn(t, clock(path));
    HeadingHasNoReturn(e, clock(path));
    ReadableTextsStart(e.parts, path, 0, clock);
    SameBodies(h.boundary, b, g.boundary, o);
    if NeedsBoundary(t) { AnnouncedExactlyIf(t, clock(path)); }
  }

  lemma SameTail(a: string, x: string, y: string)
    requires a + x == a + y
    ensures x == y
  {
    assert x == (a + x)[|a|..] && y == (a + y)[|a|..];
  }

  lemma {:induction false} AlikeIsComplete(t: Part, path: Path, clock: Clock)
    requires ReadableTree(Edited(t, path, clock)) && Print(t, path, clock).Ok?
    requires Print(Edited(t, path, clock), path, clock) == Print(t, path, clock)
    ensures Complete(t)
    decreases t
  {
    hide WriteHeaders, WriteMultipart, Readable, TypeOf, BoundaryOf, KindOf, ReadableBody, DefaultInside, TypeIsRead,
      HeadingOf, NeedsBoundary;
    var e := Edited(t, path, clock);
    match t.kind
    case Simple =>
    case Message =>
      SameTail(WriteHeaders(t.headers), Print(t.parts[0], path + [0], clock).value,
               Print(e.parts[0], path + [0], clock).value);
      AlikeIsComplete(t.parts[0], path + [0], clock);
    case Multi =>
      MultiPrintsAlike(t, e, path, clock);
      AlikeAreComplete(t.parts, path, 0, clock);
  }

  lemma {:induction false} AlikeAreComplete(ts: seq<Part>, path: Path, n: nat, clock: Clock)
    requires forall i :: 0 <= i < |ts| ==> ReadableTree(EditedAll(ts, path, n, clock)[i])
    requires PrintAll(ts, path, n, clock).Ok?
    requires PrintAll(EditedAll(ts, path, n, clock), path, n, clock) == PrintAll(ts, path, n, clock)
    ensures forall i :: 0 <= i < |ts| ==> Complete(ts[i])
    decreases ts
  {
    hide Print, Edited, ReadableTree, Complete;
    if ts != [] {
      var es, more := EditedAll(ts, path, n, clock), EditedAll(ts[1..], path, n + 1, clock);
      assert es[0] == Edited(ts[0], path + [n], clock) && es[1..] == more;
      assert forall i :: 0 <= i < |more| ==> more[i] == es[i + 1];
      var texts := PrintAll(ts, path, n, clock).value;
      assert texts[0] == Print(ts[0], path + [n], clock).value && texts[1..] == PrintAll(ts[1..], path, n + 1, clock).value;
      AlikeIsComplete(ts[0], path + [n], clock);
      AlikeAreComplete(ts[1..], path, n + 1, clock);
    }
  }

  /** Printing edits the headers of multiparts that have no boundary. The tree so edited comes
      back from the text exactly when it is readable and every content type to which a boundary
      was appended had been read to its end; whatever the clock shows. */
  lemma EditedRoundTrip(t: Part, path: Path, clock: Clock)
    ensures var e := Edited(t, path, clock);
            Print(t, path, clock).Ok? && Parse(Print(t, path, clock).value, t.defaultType) == Ok(e) <==>
            Complete(t) && ReadableTree(e)
  {
    hide Print, Edited, Parse, ReadableTree, Complete;
    var e := Edited(t, path, clock);
    if Complete(t) && ReadableTree(e) {
      CompletePrintsAlike(t, path, clock);
      PrintThenParse(e, path, clock);
    }
    if Print(t, path, clock).Ok? && Parse(Print(t, path, clock).value, t.defaultType) == Ok(e) {
      ParseThenPrint(Print(t, path, clock).value, t.defaultType, path, clock);
      AlikeIsComplete(t, path, clock);
    }
  }

  // ---------- A boundary that is lost ----------

  lemma OneLineIsReadable(value: string)
    requires forall i :: 0 <= i < |value| ==> IsPrintable(value[i])
    ensures ReadableValue(value)
  {
    assert ReadableLine(value) && value == value + Unfold([]);
  }

  lemma SemicolonHeader(mainType: string, subType: string, stamp: Stamp)
    requires IsPlainWord(mainType) && IsPlainWord(subType)
    ensures ReadableValue(mainType + "/" + subType + ";" + WritePhrase(BoundaryPhrase(stamp)))
  {
    hide Invented;
    var value := mainType + "/" + subType + ";" + WritePhrase(BoundaryPhrase(stamp));
    InventedChars(stamp);
    assert forall i :: 0 <= i < |value| ==> IsPrintable(value[i]);
    OneLineIsReadable(value);
  }

  // Appending keeps a header list readable when the appended value is.
  lemma {:induction false} EditedIsReadable(hs: seq<Header>, defaultType: string, x: string)
    requires Readable(hs) && ReadableValue(ContentTypeHeader(hs, defaultType) + x)
    ensures Readable(EditHeaders(hs, defaultType, x))
  {
    hide ReadableName, ReadableValue, IsContentType;
    if hs == [] {
      ContentTypeIsName();
    } else if !IsContentType(hs[0]) {
      EditedIsReadable(hs[1..], defaultType, x);
    }
  }

  lemma ContentTypeIsName()
    ensures ReadableName("Content-Type")
  {
  }

  lemma ReadThenParse(s: string)
    ensures ReadContentType(s).Match? ==> ParseContentType(s) == Some(ReadContentType(s).value)
  {
  }

  lemma MultiWithoutBoundary(mainType: string, subType: string)
    requires SameIgnoringCase(mainType, "multipart")
    ensures var ct := ContentType(mainType, subType, []); KindOf(ct) == Multi && BoundaryOf(ct) == None
  {
    hide SameIgnoringCase;
  }

  /** A multipart with a content type such as "multipart/mixed;" and no boundary, whatever its
      other headers and its sub-parts, is printed in a form that the reader refuses for want
      of a boundary. */
  lemma LostBoundaryIsRefused(t: Part, mainType: string, subType: string, path: Path, clock: Clock)
    requires t.kind == Multi && Readable(t.headers)
    requires IsPlainWord(mainType) && IsPlainWord(subType) && SameIgnoringCase(mainType, "multipart")
    requires ContentTypeHeader(t.headers, t.defaultType) == mainType + "/" + subType + ";"
    requires Print(t, path, clock).Ok?
    ensures Parse(Print(t, path, clock).value, t.defaultType) == Err(NoBoundary)
  {
    hide ParseHeaders, WriteHeaders, WriteMultipart, IsPlainWord, Readable, ReadableValue, WritePhrase, Invented,
      ParseContentType, ReadContentType, KindOf, BoundaryOf, EditHeaders, ContentTypeHeader, SameIgnoringCase;
    var p := BoundaryPhrase(clock(path));
    var edited := EditHeaders(t.headers, t.defaultType, WritePhrase(p));
    TrailingSemicolonLosesPhrase(mainType, subType, p);
    ReadThenParse(mainType + "/" + subType + ";");
    EditedContentType(t.headers, t.defaultType, WritePhrase(p));
    MultiWithoutBoundary(mainType, subType);
    SemicolonHeader(mainType, subType, clock(path));
    EditedIsReadable(t.headers, t.defaultType, WritePhrase(p));
    var texts := PrintAll(t.parts, path, 0, clock).value;
    HeadersOf(edited, WriteMultipart(Invented(clock(path)), Body(t.prologMissing, t.body, texts, t.epilog)));
  }
}
