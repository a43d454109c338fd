/** A written multipart body can have been written in one way only: its text fixes the
    boundary and the division into parts. */
module MimeDivision {

  import opened Common
  import opened MimeHeaders
  import opened MimeMultipart

  predicate NoReturn(s: string) {
    forall i :: 0 <= i < |s| ==> s[i] != '\r'
  }

  lemma FirstLineIsUnique(a: string, r: string, b: string, s: string)
    requires NoReturn(a) && NoReturn(b) && a + Crlf + r == b + Crlf + s
    ensures a == b
  {
    var t := a + Crlf + r;
    assert t[|a|] == '\r' && t[|b|] == '\r';
    assert forall i :: 0 <= i < |a| ==> t[i] == a[i];
    assert forall i :: 0 <= i < |b| ==> t[i] == (b + Crlf + s)[i] == b[i];
    assert a == t[..|a|] && b == t[..|b|];
  }

  /** A text cannot have been written with two boundaries after the same prolog. */
  lemma BoundaryIsUnique(boundary: string, b: Body, other: string, o: Body)
    requires NoReturn(boundary) && NoReturn(other) && b.parts != [] && o.parts != []
    requires b.prolog == o.prolog && b.prologMissing == o.prologMissing
    requires WriteMultipart(boundary, b) == WriteMultipart(other, o)
    ensures boundary == other
  {
    hide WriteMultipart, WriteParts, NoReturn;
    WriteMultipartSteps(boundary, b);
    WriteMultipartSteps(other, o);
    var cr := |b.prolog| > 0 || !b.prologMissing;
    var r := b.parts[0] + WriteParts(boundary, b.parts[1..], true) + b.epilog;
    var s := o.parts[0] + WriteParts(other, o.parts[1..], true) + o.epilog;
    BoundaryLine(b.prolog, boundary, cr, r);
    BoundaryLine(b.prolog, other, cr, s);
    var n := |b.prolog| + (if cr then 4 else 2);
    FirstLineIsUnique(boundary, r, other, s);
  }

  lemma BoundaryLine(prolog: string, boundary: string, cr: bool, r: string)
    ensures var n := |prolog| + (if cr then 4 else 2);
            var t := prolog + WriteBoundary(boundary, false, cr) + r;
            n <= |t| && t[n..] == boundary + Crlf + r
  {
  }

  // The text from the first part to the terminator.
  function Listed(boundary: string, parts: seq<string>): string
    requires parts != []
  {
    parts[0] + WriteParts(boundary, parts[1..], true)
  }

  // What follows the separator after the first part.
  function AfterFirst(boundary: string, parts: seq<string>): (r: string)
    requires parts != []
    ensures |r| >= 4
  {
    if |parts| == 1 then "--" + Crlf else Crlf + Listed(boundary, parts[1..])
  }

  lemma FirstOfParts(boundary: string, parts: seq<string>)
    requires parts != []
    ensures Listed(boundary, parts) == parts[0] + Separator(boundary) + AfterFirst(boundary, parts)
  {
    if |parts| > 1 { WritePartsMore(boundary, parts[1..]); } else { WritePartsLast(boundary); }
  }

  // Separators after which a part can begin: those in `parts` and no others.
  predicate Separable(boundary: string, parts: seq<string>) {
    && NoReturn(boundary)
    && forall i :: 0 <= i < |parts| ==> ReadablePart(boundary, parts[i]) && parts[i][0] != '-'
  }

  lemma SeparatorsLine(boundary: string, k: nat)
    requires NoReturn(boundary) && k < |Separator(boundary)|
    ensures Separator(boundary)[k] == '\r' <==> k == 0
    ensures |Separator(boundary)| >= 4 && Separator(boundary)[2] == '-'
  {
    if k >= 4 { assert Separator(boundary)[k] == boundary[k - 4]; }
  }

  lemma StartsAt(s: string, pat: string, k: nat)
    requires k < |pat|
    ensures Starts(s, pat) ==> k < |s| && s[k] == pat[k]
  {
    if Starts(s, pat) { assert s[..|pat|][k] == s[k]; }
  }

  // No other separator starts within the first one or its line break.
  lemma NoSeparatorWithin(boundary: string, parts: seq<string>, k: nat)
    requires |parts| > 1 && Separable(boundary, parts) && 0 < k < |Separator(boundary)| + 2
    ensures var s := Listed(boundary, parts);
            |parts[0]| + k <= |s| && !Starts(s[|parts[0]| + k..], Separator(boundary))
  {
    hide Listed, Separator, Starts, ReadablePart, AfterFirst;
    var s, sep, a := Listed(boundary, parts), Separator(boundary), |parts[0]|;
    FirstLine(boundary, parts);
    SeparatorsLine(boundary, 0);
    StartsAt(s[a + k..], sep, 0);
    StartsAt(s[a + k..], sep, 2);
    if k < |sep| {
      SeparatorsLine(boundary, k);
    } else if k == |sep| {
      assert s[a + k..][2] == s[a + k + 2];
    }
  }

  // The first separator, its line break, and a character that is no dash.
  lemma FirstLine(boundary: string, parts: seq<string>)
    requires |parts| > 1 && Separable(boundary, parts)
    ensures var s, sep, a := Listed(boundary, parts), Separator(boundary), |parts[0]|;
            && a + |sep| + 2 < |s|
            && (forall k :: 0 <= k < |sep| ==> s[a + k] == sep[k])
            && s[a + |sep|] == '\r' && s[a + |sep| + 1] == '\n' && s[a + |sep| + 2] != '-'
  {
    hide Listed, Separator, Starts, ReadablePart, NoReturn;
    var more := parts[1..];
    FirstOfParts(boundary, parts);
    FirstOfParts(boundary, more);
    PartNotEmpty(boundary, more[0]);
    assert Listed(boundary, more)[0] == more[0][0];
  }

  // A separator further on than the first one comes after its line.
  lemma NextSeparator(boundary: string, parts: seq<string>, q: nat)
    requires |parts| > 1 && Separable(boundary, parts)
    requires |parts[0]| < q <= |Listed(boundary, parts)| && Starts(Listed(boundary, parts)[q..], Separator(boundary))
    ensures q >= |parts[0]| + |Separator(boundary)| + 2
  {
    hide Listed, Separator, Starts, Separable;
    if q < |parts[0]| + |Separator(boundary)| + 2 { NoSeparatorWithin(boundary, parts, q - |parts[0]|); }
  }

  lemma PartNotEmpty(boundary: string, part: string)
    requires ReadablePart(boundary, part)
    ensures part != ""
  {
  }

  // The first part of a separable list is the shorter one.
  lemma FirstPartsCompare(boundary: string, some: seq<string>, parts: seq<string>)
    requires some != [] && parts != [] && ReadablePart(boundary, parts[0])
    requires Listed(boundary, some) == Listed(boundary, parts)
    ensures |parts[0]| <= |some[0]|
    ensures |some[0]| <= |Listed(boundary, parts)| && Starts(Listed(boundary, parts)[|some[0]|..], Separator(boundary))
  {
    hide Listed, FreeOf, Until, AfterFirst;
    var sep, s := Separator(boundary), Listed(boundary, parts);
    FirstOfParts(boundary, some);
    FirstOfParts(boundary, parts);
    PartStep(boundary, parts[0], AfterFirst(boundary, parts));
    UntilIsLeast(sep, s);
    assert s[|some[0]|..] == sep + AfterFirst(boundary, some);
    assert (sep + AfterFirst(boundary, some))[..|sep|] == sep;
  }

  /** A text divides in one way into a separable list of parts and no longer list. */
  lemma {:induction false} DivisionIsUnique(boundary: string, some: seq<string>, parts: seq<string>)
    requires parts != [] && |some| >= |parts| && Separable(boundary, parts)
    requires Listed(boundary, some) == Listed(boundary, parts)
    ensures some == parts
    decreases |parts|, 1
  {
    hide Listed, Separator, ReadablePart, NoReturn, Starts, AfterFirst;
    var sep, s, a, q := Separator(boundary), Listed(boundary, parts), |parts[0]|, |some[0]|;
    FirstPartsCompare(boundary, some, parts);
    FirstOfParts(boundary, some);
    FirstOfParts(boundary, parts);
    AfterLast(boundary, parts);
    if q == a {
      assert some[0] == s[..a] && parts[0] == s[..a];
      assert AfterFirst(boundary, some) == s[a + |sep|..] && AfterFirst(boundary, parts) == s[a + |sep|..];
      RestIsUnique(boundary, some, parts);
    } else if |parts| > 1 {
      NextSeparator(boundary, parts, q);
      var m := a + |sep| + 2;
      var rest := [some[0][m..]] + some[1..];
      assert Listed(boundary, rest) == s[m..] by { ListedDrop(boundary, some, m); }
      ListedAfterFirst(boundary, parts);
      DivisionIsUnique(boundary, rest, parts[1..]);
    }
  }

  lemma AfterLast(boundary: string, parts: seq<string>)
    requires parts != []
    ensures |parts| == 1 ==> |AfterFirst(boundary, parts)| == 4
  {
  }

  lemma ListedAfterFirst(boundary: string, parts: seq<string>)
    requires |parts| > 1
    ensures var m := |parts[0]| + |Separator(boundary)| + 2;
            m <= |Listed(boundary, parts)| && Listed(boundary, parts)[m..] == Listed(boundary, parts[1..])
  {
    hide Listed, Separator;
    FirstOfParts(boundary, parts);
  }

  lemma ListedDrop(boundary: string, parts: seq<string>, m: nat)
    requires parts != [] && m <= |parts[0]|
    ensures Listed(boundary, [parts[0][m..]] + parts[1..]) == Listed(boundary, parts)[m..]
  {
    hide WriteParts;
    assert ([parts[0][m..]] + parts[1..])[1..] == parts[1..];
  }

  lemma RestIsUnique(boundary: string, some: seq<string>, parts: seq<string>)
    requires parts != [] && |some| >= |parts| && Separable(boundary, parts)
    requires some[0] == parts[0] && AfterFirst(boundary, some) == AfterFirst(boundary, parts)
    ensures some == parts
    decreases |parts|, 0
  {
    hide Listed, Separator, ReadablePart, NoReturn;
    assert some == [some[0]] + some[1..] && parts == [parts[0]] + parts[1..];
    assert |some| > 1 ==> AfterFirst(boundary, some)[0] == '\r';
    assert |parts| == 1 ==> AfterFirst(boundary, parts)[0] == '-';
    if |parts| > 1 {
      var r := AfterFirst(boundary, parts);
      assert Listed(boundary, some[1..]) == r[2..] && Listed(boundary, parts[1..]) == r[2..];
      DivisionIsUnique(boundary, some[1..], parts[1..]);
    }
  }

  /** Without that condition it fails: a second part that begins with the boundary line can be
      read as the line of a division one part further on. */
  lemma DashedPartDividesTwice(boundary: string, first: string, second: string)
    ensures var a, b := [first, Dashes(boundary) + Crlf + second], [first + Separator(boundary), second];
            a != b && Listed(boundary, a) == Listed(boundary, b)
  {
    hide Listed;
    var line := Dashes(boundary) + Crlf + second;
    ListedTwo(boundary, first, line);
    ListedTwo(boundary, first + Separator(boundary), second);
    assert [first, line][0] != [first + Separator(boundary), second][0];
    assert first + Separator(boundary) + Crlf + line == first + Separator(boundary) + Separator(boundary) + Crlf + second;
  }

  lemma ListedTwo(boundary: string, x: string, y: string)
    ensures Listed(boundary, [x, y]) == x + Separator(boundary) + Crlf + y + Terminator(boundary)
  {
    hide Separator, Terminator;
    assert [x, y][1..] == [y] && [y][1..] == [];
    WritePartsMore(boundary, [y]);
    WritePartsLast(boundary);
  }
}
