/** Appending a phrase to the raw text of a Content-Type header, as the printer does
    when it invents a boundary. The grammar need not have read that text to its end. */
module MimeAppend {

  import opened Common
  import opened MimeHeaders
  import opened MimeContentType

  // ---------- How the grammar reads a text that is continued ----------

  lemma SpanExtends(p: char -> bool, u: string, x: string)
    requires x != "" && (Span(p, u) < |u| || !p(x[0]))
    ensures Span(p, u + x) == Span(p, u)
  {
    hide Span;
    assert forall i :: 0 <= i < |u| ==> (u + x)[i] == u[i];
    assert (u + x)[|u|] == x[0];
  }

  lemma SpanInside(p: char -> bool, u: string, x: string)
    ensures Span(p, u + x) < |u| ==> Span(p, u) == Span(p, u + x) && u[Span(p, u)] == (u + x)[Span(p, u)]
  {
    hide Span;
    assert forall i :: 0 <= i < |u| ==> (u + x)[i] == u[i];
  }

  // What is read inside u is read there too when x follows.
  lemma RunExtends(p: char -> bool, u: string, x: string)
    requires u != "" && x != "" && (Span(p, u) < |u| || !p(x[0]))
    ensures Run(p, u) == NoMatch ==> Run(p, u + x) == NoMatch
    ensures Run(p, u).Match? ==> Run(p, u + x) == Match(Run(p, u).value, Run(p, u).rest + x)
  {
    hide Span;
    SpanExtends(p, u, x);
    SliceExtends(u, x, Span(p, u));
  }

  lemma SliceExtends(u: string, x: string, n: nat)
    requires n <= |u|
    ensures (u + x)[..n] == u[..n] && (u + x)[n..] == u[n..] + x
  {
  }

  lemma EnclosedExtends(open: char, close: char, u: string, x: string)
    requires x != ""
    ensures Enclosed(open, close, u).Match? ==>
              Enclosed(open, close, u + x) == Match(Enclosed(open, close, u).value, Enclosed(open, close, u).rest + x)
  {
    hide Run, Span;
    if Enclosed(open, close, u).Match? {
      var p := (c: char) => IsPrintable(c) && c != close;
      assert (u + x)[1..] == u[1..] + x;
      RunStops(p, u[1..]);
      RunExtends(p, u[1..], x);
      var rest := Run(p, u[1..]).rest;
      assert (rest + x)[1..] == rest[1..] + x;
    }
  }

  lemma RunStops(p: char -> bool, u: string)
    ensures Run(p, u).Match? && Run(p, u).rest != "" ==> u != "" && Span(p, u) < |u|
  {
  }

  lemma OneSpaceExtends(u: string, x: string)
    requires x != ""
    ensures OneSpace(u).Match? ==> OneSpace(u + x) == Match((), OneSpace(u).rest + x)
  {
    hide Enclosed;
    EnclosedExtends('(', ')', u, x);
    if OneSpace(u).Match? {
      assert (u + x)[1..] == u[1..] + x;
      if |u| >= 2 { assert (u + x)[..2] == u[..2] && (u + x)[2..] == u[2..] + x; }
      CommentStart(u);
    }
  }

  lemma CommentStart(u: string)
    ensures Enclosed('(', ')', u).Match? ==> |u| >= 2 && u[0] == '('
  {
  }

  lemma {:induction false} SpacesExtend(u: string, x: string)
    requires x != ""
    ensures Spaces(u + x) == Spaces(Spaces(u) + x)
    decreases |u|
  {
    hide OneSpace;
    OneSpaceExtends(u, x);
    if OneSpace(u).Match? { SpacesExtend(OneSpace(u).rest, x); }
  }

  lemma {:induction false} SpacesAreDone(u: string)
    ensures OneSpace(Spaces(u)) == NoMatch
    decreases |u|
  {
    hide OneSpace;
    if OneSpace(u).Match? { SpacesAreDone(OneSpace(u).rest); }
  }

  // ---------- How it reads on into an appended phrase ----------

  lemma WrittenPhraseStarts(p: Phrase)
    ensures WritePhrase(p) != "" && WritePhrase(p)[0] == ';' && !IsTokenChar(';') && Spaces(WritePhrase(p)) == WritePhrase(p)
    ensures OneSpace(WritePhrase(p)) == NoMatch && Run(IsTokenChar, WritePhrase(p)) == NoMatch
  {
    hide Enclosed;
    CommentStart(WritePhrase(p));
    assert |WritePhrase(p)| >= 2 ==> WritePhrase(p)[..2][0] == ';';
  }

  // A closing parenthesis in a written phrase stands in its value.
  lemma ParenthesisIsInValue(p: Phrase, k: nat)
    requires ReadablePhrase(p) && k < |WritePhrase(p)|
    ensures WritePhrase(p)[k] == ')' ==> |WritePhrase(p)| - k - 1 <= |p.value|
  {
    var x, n := WritePhrase(p), |p.attribute|;
    if k < n + 4 {
      assert x[k] == if k < 2 then "; "[k] else if k < n + 2 then p.attribute[k - 2] else "=\""[k - n - 2];
      assert 2 <= k < n + 2 ==> IsTokenChar(p.attribute[k - 2]);
    }
  }

  // White space that stops in v goes on in the phrase only if v opens a
  // comment, and then it ends inside the value.
  lemma BlockedSpace(v: string, p: Phrase)
    requires v != "" && OneSpace(v) == NoMatch && ReadablePhrase(p)
    ensures var r := OneSpace(v + WritePhrase(p));
            r.Match? ==> v[0] == '(' && |r.rest| <= |p.value|
  {
    hide Enclosed, ReadablePhrase, WritePhrase;
    var x := WritePhrase(p);
    var r := OneSpace(v + x);
    WrittenPhraseStarts(p);
    if r.Match? {
      assert (v + x)[0] == v[0];
      LineBreakExtends(v, x);
      BlockedComment(v, p);
    }
  }

  lemma LineBreakExtends(v: string, x: string)
    requires v != "" && x != "" && x[0] != '\n'
    ensures Starts(v + x, Crlf) == Starts(v, Crlf)
  {
    if |v| == 1 { assert (v + x)[1] == x[0]; } else { assert (v + x)[..2] == v[..2]; }
  }

  lemma BlockedComment(v: string, p: Phrase)
    requires v != "" && Enclosed('(', ')', v) == NoMatch && ReadablePhrase(p)
    ensures var r := Enclosed('(', ')', v + WritePhrase(p));
            r.Match? ==> v[0] == '(' && |r.rest| <= |p.value|
  {
    hide ReadablePhrase, WritePhrase, Span;
    var x := WritePhrase(p);
    WrittenPhraseStarts(p);
    if Enclosed('(', ')', v + x).Match? {
      var q := (c: char) => IsPrintable(c) && c != ')';
      var w := v[1..];
      assert (v + x)[1..] == w + x;
      var n := Span(q, w + x);
      SpanInside(q, w, x);
      assert n >= |w|;
      assert (w + x)[n] == x[n - |w|];
      ParenthesisIsInValue(p, n - |w|);
    }
  }

  // An attribute begun in u is read on as before, or the phrase is used up
  // down to a part of its value.
  lemma AttributeExtends(u: string, p: Phrase)
    requires u != "" && ReadablePhrase(p)
    ensures var x := WritePhrase(p);
            var r, r' := ParseAttribute(u), ParseAttribute(u + x);
            && (r.Match? ==> r' == Match(r.value, r.rest + x))
            && (r == NoMatch && r'.Match? ==> |r'.rest| < |p.value|)
  {
    hide OneSpace, Run, Spaces, WritePhrase, ReadablePhrase, IsTokenChar;
    var x := WritePhrase(p);
    WrittenPhraseStarts(p);
    assert (u + x)[0] == u[0] && (u + x)[1..] == u[1..] + x;
    var v := u[1..];
    if u[0] == ';' {
      OneSpaceExtends(v, x);
      if OneSpace(v).Match? {
        NameExtends(OneSpace(v).rest, p);
      } else if v == "" {
        assert v + x == x;
      } else {
        BlockedSpace(v, p);
      }
    }
  }

  // The name after white space.
  lemma NameExtends(v: string, p: Phrase)
    requires ReadablePhrase(p)
    ensures var x := WritePhrase(p);
            var r, r' := Run(IsTokenChar, Spaces(v)), Run(IsTokenChar, Spaces(v + x));
            && (r.Match? ==> r' == Match(r.value, r.rest + x))
            && (r == NoMatch && r'.Match? ==> |r'.rest| < |p.value|)
  {
    hide OneSpace, Run, WritePhrase, ReadablePhrase, IsTokenChar, Spaces;
    var x := WritePhrase(p);
    WrittenPhraseStarts(p);
    var t := Spaces(v);
    SpacesExtend(v, x);
    SpacesAreDone(v);
    if t == "" {
      assert t + x == x;
      NothingToRun(IsTokenChar);
    } else {
      BlockedSpace(t, p);
      SpacesStep(t + x);
      RunExtends(IsTokenChar, t, x);
      if OneSpace(t + x).Match? { ParenthesisIsNoName(t); }
    }
  }

  lemma NothingToRun(p: char -> bool)
    ensures Run(p, "") == NoMatch
  {
  }

  lemma SpacesStep(s: string)
    ensures OneSpace(s) == NoMatch ==> Spaces(s) == s
    ensures OneSpace(s).Match? ==> |Spaces(s)| <= |OneSpace(s).rest|
  {
  }

  lemma ParenthesisIsNoName(t: string)
    requires t != "" && t[0] == '('
    ensures Run(IsTokenChar, t) == NoMatch
  {
  }

  // ---------- Values ----------

  // A quoted value that the text leaves open.
  predicate OpenQuote(b: string) {
    b != "" && b[0] == '"' && forall i :: 1 <= i < |b| ==> IsPrintable(b[i]) && b[i] != '"'
  }

  lemma ValueExtends(b: string, x: string)
    requires x != "" && x[0] == ';' && ParsePhraseValue(b).Match?
    ensures ParsePhraseValue(b + x) == Match(ParsePhraseValue(b).value, ParsePhraseValue(b).rest + x)
  {
    hide Run, Enclosed, IsTokenChar;
    EqualsIsNoToken();
    EnclosedExtends('"', '"', b, x);
    if b == "" {
      NoValue();
      assert false;
    }
    RunExtends(IsTokenChar, b, x);
  }

  lemma NoValue()
    ensures ParsePhraseValue("") == NoMatch
  {
  }

  // The value an open quote makes of a phrase that follows it.
  function Swallow(open: string, p: Phrase): string {
    open + "; " + p.attribute + "="
  }

  lemma SwallowIsQuotable(b: string, p: Phrase)
    requires OpenQuote(b) && IsToken(p.attribute)
    ensures Quotable(Swallow(b[1..], p))
  {
    var v, n := Swallow(b[1..], p), |b| - 1;
    forall i | 0 <= i < |v| ensures IsPrintable(v[i]) && v[i] != '"' {
      if n + 2 <= i < n + 2 + |p.attribute| { assert IsTokenChar(p.attribute[i - n - 2]); }
    }
  }

  lemma OpenQuoteSwallows(b: string, p: Phrase)
    requires OpenQuote(b) && ReadablePhrase(p)
    ensures ParsePhraseValue(b + WritePhrase(p)) == Match(Swallow(b[1..], p), p.value + "\"")
  {
    hide ParsePhraseValue, OpenQuote, Quotable, IsToken;
    QuoteStarts(b);
    SwallowIsQuotable(b, p);
    QuotedOf(Swallow(b[1..], p), p.value + "\"");
    assert b + WritePhrase(p) == "\"" + Swallow(b[1..], p) + "\"" + (p.value + "\"");
  }

  lemma QuoteStarts(b: string)
    requires OpenQuote(b)
    ensures b != "" && b == "\"" + b[1..]
  {
  }

  lemma ValueStaysStuck(b: string, x: string)
    requires x != "" && x[0] == ';' && ParsePhraseValue(b) == NoMatch && !OpenQuote(b)
    ensures ParsePhraseValue(b + x) == NoMatch
  {
    hide Run, IsTokenChar, Enclosed, OpenQuote;
    EqualsIsNoToken();
    QuoteStaysStuck(b, x);
    if b == "" {
      assert b + x == x;
      NoNameAt(x);
    } else {
      RunExtends(IsTokenChar, b, x);
    }
  }

  lemma NoNameAt(x: string)
    requires x != "" && x[0] == ';'
    ensures Run(IsTokenChar, x) == NoMatch
  {
  }

  lemma QuoteStaysStuck(b: string, x: string)
    requires x != "" && x[0] == ';' && Enclosed('"', '"', b) == NoMatch && !OpenQuote(b)
    ensures Enclosed('"', '"', b + x) == NoMatch
  {
    hide Span;
    if b != "" && b[0] == '"' {
      var q := (c: char) => IsPrintable(c) && c != '"';
      var w := b[1..];
      assert (b + x)[1..] == w + x;
      StopsInside(q, w);
      SpanExtends(q, w, x);
      var n := Span(q, w);
      assert (w + x)[n] == w[n];
    } else {
      assert (b + x)[0] == if b == "" then x[0] else b[0];
    }
  }

  lemma StopsInside(q: char -> bool, w: string)
    requires exists i :: 0 <= i < |w| && !q(w[i])
    ensures Span(q, w) < |w|
  {
  }

  // ---------- Phrases ----------

  lemma ValueFits(b: string)
    ensures var r := ParsePhraseValue(b); r.Match? ==> |r.value| + |r.rest| <= |b|
  {
  }

  lemma PhraseFits(u: string)
    ensures var r := ParsePhrase(u); r.Match? ==> |r.value.value| + |r.rest| + 4 <= |u|
  {
    hide ParsePhraseValue, ParseAttribute, Spaces;
    if ParseAttribute(u).Match? { ValueFits(ParseAttribute(u).rest); }
  }

  // No phrase read from a text fills it.
  lemma {:induction false} PhrasesFit(u: string)
    ensures forall i :: 0 <= i < |ParsePhrases(u).value| ==> |ParsePhrases(u).value[i].value| + 4 <= |u|
    decreases |u|
  {
    hide ParsePhrase;
    PhraseFits(u);
    var r := ParsePhrase(u);
    if r.Match? { PhrasesFit(r.rest); }
  }

  // A phrase whose quoted value the text leaves open, with what there is of it.
  function OpenPhrase(u: string): Option<Phrase> {
    match ParseAttribute(u)
    case NoMatch => None
    case Match(attribute, b) => if OpenQuote(b) then Some(Phrase(attribute, b[1..])) else None
  }

  lemma StuckPhraseExtends(u: string, p: Phrase)
    requires u != "" && ParsePhrase(u) == NoMatch && ReadablePhrase(p)
    ensures var r, open := ParsePhrase(u + WritePhrase(p)), OpenPhrase(u);
            && (open.Some? ==>
                  r == Match(Phrase(open.value.attribute, Swallow(open.value.value, p)), Spaces(p.value + "\"")))
            && (open.None? && r.Match? ==> |r.value.value| < |p.value| && |r.rest| < |p.value|)
  {
    hide ParseAttribute, ParsePhraseValue, WritePhrase, ReadablePhrase, Swallow, Spaces;
    var x := WritePhrase(p);
    WrittenPhraseStarts(p);
    AttributeExtends(u, p);
    var a, a' := ParseAttribute(u), ParseAttribute(u + x);
    if a.Match? {
      if OpenQuote(a.rest) { OpenQuoteSwallows(a.rest, p); } else { ValueStaysStuck(a.rest, x); }
    } else if a'.Match? {
      ValueFits(a'.rest);
    }
  }

  lemma ReadPhraseExtends(u: string, p: Phrase)
    requires ParsePhrase(u).Match? && ReadablePhrase(p)
    ensures var r, r' := ParsePhrase(u), ParsePhrase(u + WritePhrase(p));
            && r'.Match? && r'.value == r.value
            && (r'.rest == r.rest + WritePhrase(p)
                || (r.rest != "" && ParsePhrase(r.rest) == NoMatch && OpenPhrase(r.rest).None? && |r'.rest| <= |p.value|))
  {
    hide ParseAttribute, ParsePhraseValue, WritePhrase, ReadablePhrase, Spaces, OneSpace, OpenQuote;
    var x := WritePhrase(p);
    WrittenPhraseStarts(p);
    NoPhraseInNothing();
    AttributeExtends(u, p);
    var b := ParseAttribute(u).rest;
    ValueExtends(b, x);
    var v := ParsePhraseValue(b).rest;
    var rest := Spaces(v);
    SpacesExtend(v, x);
    SpacesAreDone(v);
    if rest == "" {
      assert rest + x == x;
    } else {
      BlockedSpace(rest, p);
      SpacesStep(rest + x);
      if OneSpace(rest + x).Match? { NoAttributeAt(rest); }
    }
  }

  lemma NoPhraseInNothing()
    ensures ParseAttribute("") == NoMatch
  {
  }

  lemma NoAttributeAt(u: string)
    requires u != "" && u[0] != ';'
    ensures ParseAttribute(u) == NoMatch
  {
  }

  // The text stops inside a quoted value of the same name, and the appended
  // phrase completes that value to its own.
  predicate Completes(rest: string, p: Phrase) {
    var open := OpenPhrase(rest);
    && open.Some?
    && open.value.attribute == p.attribute
    && Swallow(open.value.value, p) == p.value
    && ParsePhrases(Spaces(p.value + "\"")).value == []
  }

  // What the phrases of u become when p follows them.
  lemma {:induction false} PhrasesExtend(u: string, p: Phrase) returns (more: seq<Phrase>)
    requires ReadablePhrase(p)
    ensures ParsePhrases(u + WritePhrase(p)).value == ParsePhrases(u).value + more
    ensures var rest := ParsePhrases(u).rest;
            && (rest == "" ==> more == [p])
            && (rest != "" ==> (more == [p] <==> Completes(rest, p)))
            && (rest != "" && ';' !in p.value ==> forall i :: 0 <= i < |more| ==> more[i].value != p.value)
    decreases |u|
  {
    hide ParsePhrase, ReadablePhrase, WritePhrase, OpenPhrase, Completes, Spaces;
    var x := WritePhrase(p);
    var r, r' := ParsePhrase(u), ParsePhrase(u + x);
    if r.Match? {
      ReadPhraseExtends(u, p);
      if r'.rest == r.rest + x {
        more := PhrasesExtend(r.rest, p);
      } else {
        more := ParsePhrases(r'.rest).value;
        PhrasesFit(r'.rest);
        assert more != [] ==> more[0] != p;
        NotCompleted(r.rest, p);
      }
    } else {
      more := ParsePhrases(u + x).value;
      if u == "" { WrittenAlone(p); } else { StuckPhrasesExtend(u, p); }
    }
  }

  lemma NotCompleted(rest: string, p: Phrase)
    requires OpenPhrase(rest).None?
    ensures !Completes(rest, p)
  {
  }

  lemma WrittenAlone(p: Phrase)
    requires ReadablePhrase(p)
    ensures ParsePhrases("" + WritePhrase(p)).value == [p]
  {
    hide ParsePhrase, WritePhrase, ReadablePhrase;
    PhraseOf(p, "");
    NoPhrase();
    assert "" + WritePhrase(p) == WritePhrase(p) == WritePhrase(p) + "";
  }

  lemma StuckPhrasesExtend(u: string, p: Phrase)
    requires u != "" && ParsePhrase(u) == NoMatch && ReadablePhrase(p)
    ensures var more := ParsePhrases(u + WritePhrase(p)).value;
            && (more == [p] <==> Completes(u, p))
            && (';' !in p.value ==> forall i :: 0 <= i < |more| ==> more[i].value != p.value)
  {
    hide ParsePhrase, ReadablePhrase, WritePhrase, OpenPhrase, Spaces, Swallow;
    var r := ParsePhrase(u + WritePhrase(p));
    StuckPhraseExtends(u, p);
    if r.Match? {
      PhrasesFit(r.rest);
      var tail := ParsePhrases(r.rest).value;
      assert ([r.value] + tail)[0] == r.value && ([r.value] + tail)[1..] == tail;
      assert [r.value] + tail == [p] <==> r.value == p && tail == [];
      if OpenPhrase(u).Some? {
        SwallowHasSemicolon(OpenPhrase(u).value.value, p);
        SpacesShrink(p.value + "\"");
      }
    }
  }

  lemma SwallowHasSemicolon(open: string, p: Phrase)
    ensures ';' in Swallow(open, p)
  {
    assert Swallow(open, p)[|open|] == ';';
  }

  lemma SpacesShrink(s: string)
    ensures |Spaces(s)| <= |s|
  {
  }

  // ---------- Content types ----------

  lemma TypesExtend(s: string, x: string)
    requires x != "" && x[0] == ';' && ParseTypes(s).Match?
    ensures ParseTypes(s + x) == Match(ParseTypes(s).value, ParseTypes(s).rest + x)
  {
    hide Run, IsTokenChar;
    var blank := (c: char) => c == ' ';
    var n := Span(blank, s);
    SpanExtends(blank, s, x);
    SliceExtends(s, x, n);
    EqualsIsNoToken();
    NothingToRun(IsTokenChar);
    RunExtends(IsTokenChar, s[n..], x);
    var rest := Run(IsTokenChar, s[n..]).rest;
    assert (rest + x)[0] == rest[0] && (rest + x)[1..] == rest[1..] + x;
    RunExtends(IsTokenChar, rest[1..], x);
  }

  /** A phrase appended to any header text the grammar accepts is read back, with everything
      else as before, exactly when the grammar had read that text to its end, or the text stops
      inside a quoted value that the phrase completes to its own. */
  lemma AppendedExactlyIf(s: string, p: Phrase)
    requires ReadContentType(s).Match? && ReadablePhrase(p)
    ensures var ct, rest := ReadContentType(s).value, ReadContentType(s).rest;
            ParseContentType(s + WritePhrase(p)) == Some(ct.(phrases := ct.phrases + [p])) <==>
            rest == "" || Completes(rest, p)
  {
    hide ParseTypes, ParsePhrases, WritePhrase, ReadablePhrase, Completes;
    WrittenPhraseStarts(p);
    NothingCompletes(p);
    TypesExtend(s, WritePhrase(p));
    var tail := ParseTypes(s).rest;
    var more := PhrasesExtend(tail, p);
    var ps := ParsePhrases(tail).value;
    assert ps + more == ps + [p] <==> more == [p] by {
      assert (ps + more)[|ps|..] == more && (ps + [p])[|ps|..] == [p];
    }
  }

  lemma NothingCompletes(p: Phrase)
    ensures !Completes("", p)
  {
  }

  lemma {:induction false} FindPhraseLater(ps: seq<Phrase>, more: seq<Phrase>, key: string)
    requires FindPhrase(ps, key).None?
    ensures FindPhrase(ps + more, key) == FindPhrase(more, key)
  {
    if ps == [] {
      assert ps + more == more;
    } else {
      assert (ps + more)[0] == ps[0] && (ps + more)[1..] == ps[1..] + more;
      FindPhraseLater(ps[1..], more, key);
    }
  }

  /** For a value without a semicolon, such as an invented boundary, this is one condition: the
      phrase is found exactly when the grammar had read the text to its end. */
  lemma FoundExactlyIf(s: string, p: Phrase)
    requires ReadContentType(s).Match? && ReadablePhrase(p) && ';' !in p.value
    requires FindPhrase(ReadContentType(s).value.phrases, p.attribute).None?
    ensures var ct, rest := ReadContentType(s).value, ReadContentType(s).rest;
            var r := ParseContentType(s + WritePhrase(p));
            && r.Some? && r.value.mainType == ct.mainType && r.value.subType == ct.subType
            && (FindPhrase(r.value.phrases, p.attribute) == Some(p.value) <==> rest == "")
  {
    hide ParseTypes, ParsePhrases, WritePhrase, ReadablePhrase, Completes, FindPhrase;
    WrittenPhraseStarts(p);
    TypesExtend(s, WritePhrase(p));
    var tail := ParseTypes(s).rest;
    var more := PhrasesExtend(tail, p);
    FindPhraseLater(ParsePhrases(tail).value, more, p.attribute);
    FindOnly(p);
  }

  lemma FindOnly(p: Phrase)
    ensures FindPhrase([p], p.attribute) == Some(p.value)
  {
  }

  // ---------- Texts that are not read to their end ----------

  lemma PlainTypes(mainType: string, subType: string, x: string)
    requires IsPlainWord(mainType) && IsPlainWord(subType) && x != "" && x[0] == ';'
    ensures ParseTypes(mainType + "/" + subType + x) == Match(ContentType(mainType, subType, []), x)
  {
    hide ParseTypes, IsPlainWord;
    var s := mainType + "/" + subType;
    PlainTypesAlone(mainType, subType);
    TypesExtend(s, x);
    assert "" + x == x;
  }

  lemma PlainTypesAlone(mainType: string, subType: string)
    requires IsPlainWord(mainType) && IsPlainWord(subType)
    ensures ParseTypes(mainType + "/" + subType) == Match(ContentType(mainType, subType, []), "")
  {
    hide Run, IsPlainWord, IsTokenChar, IsToken;
    PlainWordIsToken(mainType);
    PlainWordIsToken(subType);
    EqualsIsNoToken();
    var after := "/" + subType;
    var s := mainType + "/" + subType;
    assert s == mainType + after && after[1..] == subType && subType == subType + "";
    TokenOf(mainType, after);
    TokenOf(subType, "");
    NoLeadingSpace(mainType, after);
    assert s[0..] == s;
  }

  /** After a type such as "multipart/mixed;" whatever is appended is not read at all, so a
      boundary invented for it is lost. */
  lemma TrailingSemicolonLosesPhrase(mainType: string, subType: string, p: Phrase)
    requires IsPlainWord(mainType) && IsPlainWord(subType)
    ensures var s := mainType + "/" + subType + ";";
            && ReadContentType(s) == Match(ContentType(mainType, subType, []), ";")
            && ParseContentType(s + WritePhrase(p)) == Some(ContentType(mainType, subType, []))
  {
    hide ParseTypes, IsPlainWord, WritePhrase, ParseAttribute;
    var s, x := mainType + "/" + subType, WritePhrase(p);
    PlainTypes(mainType, subType, ";");
    PlainTypes(mainType, subType, ";" + x);
    assert s + ";" + x == s + (";" + x);
    NoAttributeAfterSemicolon(p);
  }

  lemma NoAttributeAfterSemicolon(p: Phrase)
    ensures ParseAttribute(";") == NoMatch && ParseAttribute(";" + WritePhrase(p)) == NoMatch
  {
    hide OneSpace, WritePhrase;
    WrittenPhraseStarts(p);
    assert (";" + WritePhrase(p))[1..] == WritePhrase(p);
    assert OneSpace("") == NoMatch by { NoSpaceInNothing(); }
  }

  lemma NoSpaceInNothing()
    ensures OneSpace("") == NoMatch
  {
  }

  /** The second half of the condition is needed: here the text is not read to its end, and yet
      the appended phrase comes back, its value made of the open quote and its own name. */
  lemma OpenQuoteIsCompleted(mainType: string, subType: string, name: string, open: string)
    requires IsPlainWord(mainType) && IsPlainWord(subType) && IsPlainWord(name) && IsPlainWord(open)
    ensures var s, p := mainType + "/" + subType + "; " + name + "=\"" + open, Phrase(name, open + "; " + name + "=");
            && ReadContentType(s) == Match(ContentType(mainType, subType, []), "; " + name + "=\"" + open)
            && ReadablePhrase(p)
            && ParseContentType(s + WritePhrase(p)) == Some(ContentType(mainType, subType, [p]))
  {
    hide ParseTypes, IsPlainWord, WritePhrase, ParseAttribute, ParsePhraseValue, ReadablePhrase;
    var tail := "; " + name + "=\"" + open;
    var s, p := mainType + "/" + subType, Phrase(name, open + "; " + name + "=");
    assert s + "; " + name + "=\"" + open == s + tail;
    PlainTypes(mainType, subType, tail);
    OpenTail(name, open);
    AppendedExactlyIf(s + tail, p);
    assert [] + [p] == [p];
  }

  lemma OpenTail(name: string, open: string)
    requires IsPlainWord(name) && IsPlainWord(open)
    ensures var tail, p := "; " + name + "=\"" + open, Phrase(name, open + "; " + name + "=");
            ParsePhrases(tail) == Match([], tail) && ReadablePhrase(p) && Completes(tail, p)
  {
    hide OneSpace, IsTokenChar, Run, ParsePhraseValue;
    var tail, p := "; " + name + "=\"" + open, Phrase(name, open + "; " + name + "=");
    var quote := "\"" + open;
    AttributeOf(name, quote);
    assert tail == "; " + name + "=" + quote;
    OpenWord(open);
    PlainWordIsToken(name);
    SwallowIsQuotable(quote, p);
    assert quote[1..] == open;
    var after := p.value + "\"";
    assert after[0] == open[0];
    PlainCharIsToken(open[0]);
    SpacesStop(after);
    SemicolonIsNoPlainChar(open);
  }

  lemma SemicolonIsNoPlainChar(open: string)
    requires IsPlainWord(open)
    ensures open[0] != ';'
  {
  }

  lemma AttributeOf(name: string, b: string)
    requires IsPlainWord(name)
    ensures ParseAttribute("; " + name + "=" + b) == Match(name, b)
  {
    hide Run, IsToken, IsTokenChar;
    var s, after := "; " + name + "=" + b, "=" + b;
    PlainWordIsToken(name);
    assert s[1..] == " " + (name + after) && s[1..][1..] == name + after;
    AttributeStarts(name, after);
    SpacesStop(name + after);
    EqualsIsNoToken();
    TokenOf(name, after);
    assert after[1..] == b;
  }

  lemma OpenWord(open: string)
    requires IsPlainWord(open)
    ensures OpenQuote("\"" + open) && ParsePhraseValue("\"" + open) == NoMatch
  {
    var b := "\"" + open;
    var q := (c: char) => IsPrintable(c) && c != '"';
    assert b[1..] == open;
    assert forall i :: 0 <= i < |open| ==> q(open[i]);
    assert open + "" == open;
    SpanOfRun(q, open, "");
  }
}
