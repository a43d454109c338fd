/** The recursive parser and printer as programs: loops over sub-parts, a stream that is
    written to, and what an exception leaves behind. */
module MimeProgram {

  import opened Common
  import opened MimeHeaders
  import opened MimeContentType
  import opened MimeAppend
  import opened MimeMultipart
  import opened Mime

  // ---------- The reader ----------

  function Prepend<T>(done: seq<T>, r: Outcome<seq<T>>): Outcome<seq<T>> {
    match r
    case Err(e) => Err(e)
    case Ok(more) => Ok(done + more)
  }

  lemma PrependNothing<T>(r: Outcome<seq<T>>)
    ensures Prepend([], r) == r
  {
    if r.Ok? { assert [] + r.value == r.value; }
  }

  lemma PrependSteps<T>(done: seq<T>, x: T, r: Outcome<seq<T>>)
    ensures Prepend(done, Prepend([x], r)) == Prepend(done + [x], r)
  {
    if r.Ok? {
      assert done + ([x] + r.value) == done + [x] + r.value;
    }
  }

  method ParseMime(s: string, defaultType: string) returns (r: Outcome<Part>)
    ensures r == Parse(s, defaultType)
    decreases |s|
  {
    hide ParseHeaders, TypeOf, ReadMultipart, KindOf, BoundaryOf, DefaultInside;
    var headers := ParseHeaders(s);
    if headers.NoMatch? { return Err(BadHeaders); }
    var hs, rest := headers.value, headers.rest;
    var ct := TypeOf(hs, defaultType);
    if ct.None? { return Err(BadContentType); }
    match KindOf(ct.value)
    case Simple =>
      r := Ok(Part(Simple, hs, defaultType, false, rest, "", []));
    case Message =>
      var inner := ParseMime(rest, PlainText);
      if inner.Err? { return Err(inner.error); }
      r := Ok(Part(Message, hs, defaultType, false, "", "", [inner.value]));
    case Multi =>
      var boundary := BoundaryOf(ct.value);
      if boundary.None? { return Err(NoBoundary); }
      var body := ReadMultipart(boundary.value, rest);
      if body.Err? { return Err(body.error); }
      var b := body.value;
      var parts := ParseSubParts(b.parts, DefaultInside(ct.value), |s|);
      if parts.Err? { return Err(parts.error); }
      r := Ok(Part(Multi, hs, defaultType, b.prologMissing, b.prolog, b.epilog, parts.value));
  }

  method ParseSubParts(texts: seq<string>, defaultType: string, bound: nat) returns (r: Outcome<seq<Part>>)
    requires forall i :: 0 <= i < |texts| ==> |texts[i]| < bound
    ensures r == ParseAll(texts, defaultType, bound)
    decreases bound, 0
  {
    hide Parse;
    var parts: seq<Part> := [];
    assert texts[0..] == texts;
    PrependNothing(ParseAll(texts, defaultType, bound));
    for i := 0 to |texts|
      invariant ParseAll(texts, defaultType, bound) == Prepend(parts, ParseAll(texts[i..], defaultType, bound))
    {
      assert texts[i..][1..] == texts[i + 1..];
      var part := ParseMime(texts[i], defaultType);
      if part.Err? { return Err(part.error); }
      PrependSteps(parts, part.value, ParseAll(texts[i + 1..], defaultType, bound));
      parts := parts + [part.value];
    }
    assert parts + [] == parts;
    r := Ok(parts);
  }

  class Stream {
    var text: string

    constructor ()
      ensures text == ""
    {
      text := "";
    }

    method Put(s: string)
      modifies this
      ensures text == old(text) + s
    {
      text := text + s;
    }
  }

  // ---------- What printing does, up to the end or to an exception ----------

  datatype Output = Output(text: string, tree: Part, error: Option<Error>)
  datatype Outputs = Outputs(text: string, trees: seq<Part>, error: Option<Error>)

  // Text written, tree left, and exception raised. A content type that cannot be
  // read is noticed only after a missing header has been added.
  function Streamed(t: Part, path: Path, clock: Clock): (o: Output)
    decreases t
  {
    match t.kind
    case Simple => Output(WriteHeaders(t.headers) + t.body, t, None)
    case Message =>
      if |t.parts| != 1 then Output("", t, Some(WrongPartCount)) else
      var inner := Streamed(t.parts[0], path + [0], clock);
      Output(WriteHeaders(t.headers) + inner.text, t.(parts := [inner.tree]), inner.error)
    case Multi =>
      match HeadingOf(t, clock(path))
      case Err(e) => Output("", t.(headers := EditHeaders(t.headers, t.defaultType, "")), Some(e))
      case Ok(h) =>
        var all := StreamedAll(t.parts, path, 0, clock, h.boundary, |t.body| > 0 || !t.prologMissing);
        Output(WriteHeaders(h.headers) + t.body + all.text + Ending(h.boundary, t.epilog, all.error),
               t.(headers := h.headers, parts := all.trees), all.error)
  }

  // Terminator and epilog, unless an exception came before.
  function Ending(boundary: string, epilog: string, error: Option<Error>): string {
    if error.Some? then "" else WriteBoundary(boundary, true, true) + epilog
  }

  // Boundary lines and sub-parts from number i on; those after a failure are untouched.
  function StreamedAll(ts: seq<Part>, path: Path, i: nat, clock: Clock, boundary: string, cr: bool): (o: Outputs)
    decreases ts
  {
    if ts == [] then Outputs("", [], None) else
    var first := Streamed(ts[0], path + [i], clock);
    var text := WriteBoundary(boundary, false, cr) + first.text;
    if first.error.Some? then Outputs(text, [first.tree] + ts[1..], first.error) else
    var more := StreamedAll(ts[1..], path, i + 1, clock, boundary, true);
    Outputs(text + more.text, [first.tree] + more.trees, more.error)
  }

  /** Printing fails exactly when Print does, with the same error; otherwise it writes the
      printed form and leaves the edited tree. */
  lemma {:induction false} StreamedIsPrinted(t: Part, path: Path, clock: Clock)
    ensures match Print(t, path, clock)
            case Ok(text) => Streamed(t, path, clock) == Output(text, Edited(t, path, clock), None)
            case Err(e) => Streamed(t, path, clock).error == Some(e)
    decreases t
  {
    hide WriteHeaders, HeadingOf, WriteBoundary, WriteParts, StreamedAll, PrintAll, EditedAll;
    match t.kind
    case Simple =>
    case Message =>
      if |t.parts| == 1 { StreamedIsPrinted(t.parts[0], path + [0], clock); }
    case Multi =>
      var h := HeadingOf(t, clock(path));
      if h.Ok? {
        var cr := |t.body| > 0 || !t.prologMissing;
        StreamedAllIsPrinted(t.parts, path, 0, clock, h.value.boundary, cr);
        var texts := PrintAll(t.parts, path, 0, clock);
        if texts.Ok? {
          SameText(WriteHeaders(h.value.headers), t.body, StreamedAll(t.parts, path, 0, clock, h.value.boundary, cr).text,
                   WriteBoundary(h.value.boundary, true, true), WriteParts(h.value.boundary, texts.value, cr), t.epilog);
        }
      }
  }

  lemma SameText(a: string, body: string, x: string, y: string, w: string, e: string)
    requires x + y == w
    ensures a + body + x + (y + e) == a + (body + w + e)
  {
  }

  lemma {:induction false} StreamedAllIsPrinted(ts: seq<Part>, path: Path, i: nat, clock: Clock, boundary: string, cr: bool)
    ensures var all := StreamedAll(ts, path, i, clock, boundary, cr);
            match PrintAll(ts, path, i, clock)
            case Ok(texts) =>
              && all.error == None && all.trees == EditedAll(ts, path, i, clock)
              && all.text + WriteBoundary(boundary, true, true) == WriteParts(boundary, texts, cr)
            case Err(e) => all.error == Some(e)
    decreases ts
  {
    hide Print, Streamed, Edited, WriteBoundary;
    if ts != [] {
      StreamedIsPrinted(ts[0], path + [i], clock);
      StreamedAllIsPrinted(ts[1..], path, i + 1, clock, boundary, true);
      var texts := PrintAll(ts, path, i, clock);
      if texts.Ok? { assert texts.value[1..] == PrintAll(ts[1..], path, i + 1, clock).value; }
    }
  }

  /** A message that does not hold exactly one part: nothing is written and nothing changes. */
  lemma WrongCountLeaves(t: Part, path: Path, clock: Clock)
    requires t.kind == Message && |t.parts| != 1
    ensures Streamed(t, path, clock) == Output("", t, Some(WrongPartCount))
  {
  }

  /** A multipart whose content type cannot be read: nothing is written, and only a missing header is added. */
  lemma UnreadableTypeLeaves(t: Part, path: Path, clock: Clock)
    requires t.kind == Multi && TypeOf(t.headers, t.defaultType).None?
    ensures var o := Streamed(t, path, clock);
            && o.text == "" && o.error == Some(BadContentType)
            && o.tree == t.(headers := if HasContentType(t) then t.headers else t.headers + [Header("Content-Type", t.defaultType)])
  {
    hide TypeOf;
    EditedByNothing(t.headers, t.defaultType);
  }

  lemma {:induction false} EditedByNothing(hs: seq<Header>, defaultType: string)
    ensures EditHeaders(hs, defaultType, "") ==
            if exists i :: 0 <= i < |hs| && IsContentType(hs[i]) then hs else hs + [Header("Content-Type", defaultType)]
  {
    hide IsContentType;
    if hs == [] {
      assert defaultType + "" == defaultType;
    } else {
      assert hs == [hs[0]] + hs[1..] && hs[0].value + "" == hs[0].value;
      if !IsContentType(hs[0]) {
        EditedByNothing(hs[1..], defaultType);
        var more := hs[1..];
        assert (exists i :: 0 <= i < |hs| && IsContentType(hs[i])) <==> exists i :: 0 <= i < |more| && IsContentType(more[i]) by {
          if i :| 0 <= i < |hs| && IsContentType(hs[i]) { assert hs[i] == more[i - 1]; }
          if i :| 0 <= i < |more| && IsContentType(more[i]) { assert more[i] == hs[i + 1]; }
        }
      }
    }
  }

  /** Where a sub-part fails, its own output up to the failure is the last that is written, the sub-parts before it are
      as printed, and those after it are as they were. */
  lemma {:induction false} FailureStops(good: seq<Part>, bad: Part, rest: seq<Part>, path: Path, i: nat, clock: Clock,
                                        boundary: string, cr: bool)
    requires StreamedAll(good, path, i, clock, boundary, cr).error == None
    requires Streamed(bad, path + [i + |good|], clock).error.Some?
    ensures var done, last := StreamedAll(good, path, i, clock, boundary, cr), Streamed(bad, path + [i + |good|], clock);
            StreamedAll(good + [bad] + rest, path, i, clock, boundary, cr) ==
            Outputs(done.text + (WriteBoundary(boundary, false, cr || good != []) + last.text),
                    done.trees + ([last.tree] + rest), last.error)
    decreases good
  {
    hide Streamed, StreamedAll, WriteBoundary, Follow;
    if good == [] {
      StreamedCons(bad, rest, path, i, clock, boundary, cr);
      NothingStreamed(path, i, clock, boundary, cr);
      assert good + [bad] + rest == [bad] + rest;
    } else {
      var first, more := good[0], good[1..];
      assert good == [first] + more && good + [bad] + rest == [first] + (more + [bad] + rest);
      StreamedCons(first, more, path, i, clock, boundary, cr);
      StreamedCons(first, more + [bad] + rest, path, i, clock, boundary, cr);
      FailureStops(more, bad, rest, path, i + 1, clock, boundary, true);
      var o, done := Streamed(first, path + [i], clock), StreamedAll(more, path, i + 1, clock, boundary, true);
      FollowTwice(WriteBoundary(boundary, false, cr) + o.text, o.tree, done,
                  WriteBoundary(boundary, false, true) + Streamed(bad, path + [i + |good|], clock).text,
                  [Streamed(bad, path + [i + |good|], clock).tree] + rest);
    }
  }

  lemma NothingStreamed(path: Path, i: nat, clock: Clock, boundary: string, cr: bool)
    ensures StreamedAll([], path, i, clock, boundary, cr) == Outputs("", [], None)
  {
  }

  lemma StreamedCons(first: Part, ts: seq<Part>, path: Path, i: nat, clock: Clock, boundary: string, cr: bool)
    ensures var o, more := Streamed(first, path + [i], clock), StreamedAll(ts, path, i + 1, clock, boundary, true);
            var text := WriteBoundary(boundary, false, cr) + o.text;
            StreamedAll([first] + ts, path, i, clock, boundary, cr) ==
            if o.error.Some? then Outputs(text, [o.tree] + ts, o.error)
            else Outputs(text + more.text, [o.tree] + more.trees, more.error)
  {
    hide Streamed, WriteBoundary;
    assert ([first] + ts)[1..] == ts;
  }

  lemma FollowTwice(text: string, tree: Part, done: Outputs, x: string, ts: seq<Part>)
    ensures text + (done.text + x) == (text + done.text) + x
    ensures [tree] + (done.trees + ts) == ([tree] + done.trees) + ts
  {
  }

  // ---------- The printer ----------

  // The edited tree is a result, where the program edits in place.
  method StreamOut(t: Part, path: Path, clock: Clock, out: Stream) returns (tree: Part, error: Option<Error>)
    modifies out
    ensures var o := Streamed(t, path, clock);
            out.text == old(out.text) + o.text && tree == o.tree && error == o.error
    decreases t, 1
  {
    hide WriteHeaders, HeadingOf, StreamedAll, EditHeaders, Ending;
    tree, error := t, None;
    match t.kind
    case Simple =>
      out.Put(WriteHeaders(t.headers));
      out.Put(t.body);
    case Message =>
      if |t.parts| != 1 { return t, Some(WrongPartCount); }
      out.Put(WriteHeaders(t.headers));
      var inner;
      inner, error := StreamOut(t.parts[0], path + [0], clock, out);
      tree := t.(parts := [inner]);
    case Multi =>
      tree, error := StreamMultipart(t, path, clock, out);
  }

  // Boundary and headers, invented and edited if need be.
  method ChooseHeading(t: Part, stamp: Stamp) returns (h: Outcome<Heading>)
    ensures h == HeadingOf(t, stamp)
  {
    hide TypeOf, BoundaryOf, EditHeaders;
    var ct := TypeOf(t.headers, t.defaultType);
    if ct.Some? && BoundaryOf(ct.value).Some? { return Ok(Heading(t.headers, BoundaryOf(ct.value).value)); }
    var boundary := Invented(stamp);
    if ct.None? { return Err(BadContentType); }
    h := Ok(Heading(EditHeaders(t.headers, t.defaultType, WritePhrase(Phrase("boundary", boundary))), boundary));
  }

  lemma StreamedMultipart(t: Part, path: Path, clock: Clock)
    requires t.kind == Multi
    ensures var heading := HeadingOf(t, clock(path));
            match heading
            case Err(e) =>
              Streamed(t, path, clock) == Output("", t.(headers := EditHeaders(t.headers, t.defaultType, "")), Some(e))
            case Ok(h) =>
              var all := StreamedAll(t.parts, path, 0, clock, h.boundary, |t.body| > 0 || !t.prologMissing);
              && Streamed(t, path, clock).text
                 == WriteHeaders(h.headers) + t.body + all.text + Ending(h.boundary, t.epilog, all.error)
              && Streamed(t, path, clock).tree == t.(headers := h.headers, parts := all.trees)
              && Streamed(t, path, clock).error == all.error
  {
    hide WriteHeaders, HeadingOf, StreamedAll, EditHeaders, Ending;
  }

  method StreamMultipart(t: Part, path: Path, clock: Clock, out: Stream) returns (tree: Part, error: Option<Error>)
    requires t.kind == Multi
    modifies out
    ensures var o := Streamed(t, path, clock);
            out.text == old(out.text) + o.text && tree == o.tree && error == o.error
    decreases t, 0
  {
    hide Streamed, WriteHeaders, HeadingOf, WriteBoundary, StreamedAll, EditHeaders;
    StreamedMultipart(t, path, clock);
    var heading := ChooseHeading(t, clock(path));
    if heading.Err? { return t.(headers := EditHeaders(t.headers, t.defaultType, "")), Some(heading.error); }
    var h := heading.value;
    out.Put(WriteHeaders(h.headers));
    out.Put(t.body);
    var parts;
    parts, error := StreamParts(t.parts, path, clock, h.boundary, |t.body| > 0 || !t.prologMissing, out);
    tree := t.(headers := h.headers, parts := parts);
    if error.None? {
      out.Put(WriteBoundary(h.boundary, true, true));
      out.Put(t.epilog);
    }
  }

  // Outputs so far, and those still to come.
  function Follow(text: string, trees: seq<Part>, o: Outputs): Outputs {
    Outputs(text + o.text, trees + o.trees, o.error)
  }

  lemma FollowNothing(o: Outputs)
    ensures Follow("", [], o) == o
  {
    assert "" + o.text == o.text && [] + o.trees == o.trees;
  }

  // One sub-part more.
  lemma FollowOne(ts: seq<Part>, path: Path, i: nat, clock: Clock, boundary: string, cr: bool, text: string, trees: seq<Part>)
    requires i < |ts|
    ensures var first := Streamed(ts[i], path + [i], clock);
            var text' := text + WriteBoundary(boundary, false, cr) + first.text;
            Follow(text, trees, StreamedAll(ts[i..], path, i, clock, boundary, cr)) ==
            if first.error.Some? then Outputs(text', trees + [first.tree] + ts[i + 1..], first.error)
            else Follow(text', trees + [first.tree], StreamedAll(ts[i + 1..], path, i + 1, clock, boundary, true))
  {
    hide Streamed, WriteBoundary;
    assert ts[i..][1..] == ts[i + 1..];
    var first, more := Streamed(ts[i], path + [i], clock), StreamedAll(ts[i + 1..], path, i + 1, clock, boundary, true);
    assert trees + ([first.tree] + more.trees) == trees + [first.tree] + more.trees;
    assert trees + ([first.tree] + ts[i + 1..]) == trees + [first.tree] + ts[i + 1..];
  }

  lemma FollowEnd(path: Path, i: nat, clock: Clock, boundary: string, cr: bool, text: string, trees: seq<Part>)
    ensures Follow(text, trees, StreamedAll([], path, i, clock, boundary, cr)) == Outputs(text, trees, None)
  {
    assert text + "" == text && trees + [] == trees;
  }

  // Boundary lines and sub-parts; `writeCR` is off before the first sub-part
  // when there is no prolog.
  method StreamParts(parts: seq<Part>, path: Path, clock: Clock, boundary: string, first: bool, out: Stream)
    returns (trees: seq<Part>, error: Option<Error>)
    modifies out
    ensures var o := StreamedAll(parts, path, 0, clock, boundary, first);
            out.text == old(out.text) + o.text && trees == o.trees && error == o.error
    decreases parts, 2
  {
    hide Streamed, StreamedAll, WriteBoundary, Follow;
    var writeCR := first;
    trees, error := [], None;
    ghost var all, text := StreamedAll(parts, path, 0, clock, boundary, first), "";
    assert parts[0..] == parts;
    FollowNothing(all);
    for i := 0 to |parts|
      invariant all == Follow(text, trees, StreamedAll(parts[i..], path, i, clock, boundary, writeCR))
      invariant out.text == old(out.text) + text
      invariant error == None
    {
      FollowOne(parts, path, i, clock, boundary, writeCR, text, trees);
      out.Put(WriteBoundary(boundary, false, writeCR));
      var tree;
      tree, error := StreamOut(parts[i], path + [i], clock, out);
      text := text + WriteBoundary(boundary, false, writeCR) + Streamed(parts[i], path + [i], clock).text;
      trees := trees + [tree];
      if error.Some? { return trees + parts[i + 1..], error; }
      writeCR := true;
    }
    assert parts[|parts|..] == [];
    FollowEnd(path, |parts|, clock, boundary, writeCR, text, trees);
  }
}
