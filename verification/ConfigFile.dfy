/** Configuration files: sections in brackets, one `key = value` a line. */
module ConfigFile {

  import opened Common

  datatype Error = OpenFailed | SectionError | NoSection | OutOfRange
  type Outcome<+T> = Result<T, Error>

  datatype Entry = Entry(key: string, value: string)
  type Table = map<string, map<string, string>>

  // ---------- Reading lines ----------

  // Size of the line buffer, its terminator included.
  const StreamSize: nat := 255

  // Index of the first c, or the length.
  function Find(s: string, c: char): (n: nat)
    ensures n <= |s|
    ensures forall i :: 0 <= i < n ==> s[i] != c
    ensures n < |s| ==> s[n] == c
  {
    if s == "" || s[0] == c then 0 else 1 + Find(s[1..], c)
  }

  // Text that remains after a line of length n and its line feed.
  function AfterLine(s: string, n: nat): (r: string)
    requires n <= |s|
    ensures s != "" ==> |r| < |s|
  {
    if n < |s| then s[n + 1..] else ""
  }

  // Lines of a text; no empty line follows the last line feed.
  function AllLines(s: string): seq<string>
    decreases |s|
  {
    if s == "" then [] else
    var n := Find(s, '\n');
    [s[..n]] + AllLines(AfterLine(s, n))
  }

  // Lines the loop sees: a line that does not fit the buffer sets the
  // stream's fail bit, and the loop ends as if the file ended there.
  function ReadLines(s: string): seq<string>
    decreases |s|
  {
    if s == "" then [] else
    var n := Find(s, '\n');
    if n >= StreamSize then [] else [s[..n]] + ReadLines(AfterLine(s, n))
  }

  // A line as the C string in the buffer.
  function CString(line: string): string {
    line[..Find(line, '\0')]
  }

  function CStrings(lines: seq<string>): (r: seq<string>)
    ensures |r| == |lines|
  {
    if lines == [] then [] else [CString(lines[0])] + CStrings(lines[1..])
  }

  // ---------- One line ----------

  // find_first_not_of(" "), |s| for npos.
  function FirstNotSpace(s: string): (n: nat)
    ensures n <= |s|
    ensures forall i :: 0 <= i < n ==> s[i] == ' '
    ensures n < |s| ==> s[n] != ' '
  {
    if s != "" && s[0] == ' ' then 1 + FirstNotSpace(s[1..]) else 0
  }

  // One past find_last_not_of(" "), 0 for npos.
  function AfterLastNotSpace(s: string): (n: nat)
    ensures n <= |s|
    ensures forall i :: n <= i < |s| ==> s[i] == ' '
    ensures n > 0 ==> s[n - 1] != ' '
  {
    if s != "" && s[|s| - 1] == ' ' then AfterLastNotSpace(s[..|s| - 1]) else |s|
  }

  // Trims spaces; when there is nothing else, substr throws out_of_range.
  function Strip(s: string): (r: Option<string>) {
    var start := FirstNotSpace(s);
    if start == |s| then None else Some(s[start..AfterLastNotSpace(s)])
  }

  predicate IsHeader(line: string) {
    line != "" && line[0] == '['
  }

  function SectionName(line: string): (r: Outcome<string>)
    requires IsHeader(line)
  {
    if line[|line| - 1] != ']' then Err(SectionError) else
    match Strip(line[1..|line| - 1])
    case None => Err(OutOfRange)
    case Some(name) => Ok(name)
  }

  // None for a line without '='.
  function KeyAndValue(line: string): (r: Outcome<Option<Entry>>) {
    var pos := Find(line, '=');
    if pos == |line| then Ok(None) else
    match Strip(line[..pos])
    case None => Err(OutOfRange)
    case Some(key) =>
      match Strip(line[pos + 1..])
      case None => Err(OutOfRange)
      case Some(value) => Ok(Some(Entry(key, value)))
  }

  // ---------- The loop, line by line ----------

  datatype State = State(sections: Table, current: Option<string>)

  predicate Valid(st: State) {
    st.current.Some? ==> st.current.value in st.sections
  }

  const Start: State := State(map[], None)

  function Step(st: State, line: string): (r: Outcome<State>)
    requires Valid(st)
    ensures r.Ok? ==> Valid(r.value)
  {
    if IsHeader(line) then
      match SectionName(line)
      case Err(e) => Err(e)
      case Ok(name) =>
        if name in st.sections then Err(SectionError)
        else Ok(State(st.sections[name := map[]], Some(name)))
    else if st.current.None? then Err(NoSection)
    else
      match KeyAndValue(line)
      case Err(e) => Err(e)
      case Ok(None) => Ok(st)
      case Ok(Some(e)) =>
        var entries := st.sections[st.current.value];
        if e.key in entries then Ok(st)
        else Ok(st.(sections := st.sections[st.current.value := entries[e.key := e.value]]))
  }

  function Run(st: State, lines: seq<string>): (r: Outcome<State>)
    requires Valid(st)
    ensures r.Ok? ==> Valid(r.value)
    decreases |lines|
  {
    if lines == [] then Ok(st) else
    match Step(st, lines[0])
    case Err(e) => Err(e)
    case Ok(next) => Run(next, lines[1..])
  }

  function Parse(text: string): (r: Outcome<State>) {
    Run(Start, CStrings(ReadLines(text)))
  }

  function Lookup(sections: Table, section: string, key: string): (r: Option<string>) {
    if section in sections && key in sections[section] then Some(sections[section][key]) else None
  }

  // ---------- The program ----------

  class ConfigFile {
    var sections: Table

    constructor ()
      ensures sections == map[]
    {
      sections := map[];
    }

    // A file that cannot be opened is None. When an exception leaves the
    // constructor there is no object, so nothing is said of its sections.
    method Analyze(file: Option<string>) returns (r: Outcome<()>)
      requires sections == map[]
      modifies this
      ensures file.None? ==> r == Err(OpenFailed)
      ensures file.Some? && Parse(file.value).Ok? ==> r == Ok(()) && sections == Parse(file.value).value.sections
      ensures file.Some? && Parse(file.value).Err? ==> r == Err(Parse(file.value).error)
    {
      hide Step;
      if file.None? { return Err(OpenFailed); }
      var rest := file.value;
      var current: Option<string> := None;
      while rest != "" && Find(rest, '\n') < StreamSize
        invariant Valid(State(sections, current))
        invariant Parse(file.value) == Run(State(sections, current), CStrings(ReadLines(rest)))
        decreases |rest|
      {
        var n := Find(rest, '\n');
        var buf := CString(rest[..n]);
        ghost var st := State(sections, current);
        ghost var more := ReadLines(AfterLine(rest, n));
        assert ReadLines(rest) == [rest[..n]] + more;
        CStringsCons(rest[..n], more);
        assert ([buf] + CStrings(more))[1..] == CStrings(more);
        rest := AfterLine(rest, n);
        var stepped, now := Body(buf, current);
        if stepped.Err? { return Err(stepped.error); }
        current := now;
      }
      r := Ok(());
    }

    // Body of the loop.
    method Body(buf: string, current: Option<string>) returns (r: Outcome<()>, now: Option<string>)
      requires Valid(State(sections, current))
      modifies this
      ensures var next := Step(State(old(sections), current), buf);
              && (next.Ok? ==> r == Ok(()) && next.value == State(sections, now))
              && (next.Err? ==> r == Err(next.error))
    {
      now := current;
      if IsHeader(buf) {
        var name := SectionName(buf);
        if name.Err? { return Err(name.error), now; }
        if name.value in sections { return Err(SectionError), now; }
        sections := sections[name.value := map[]];
        now := Some(name.value);
      } else {
        if current.None? { return Err(NoSection), now; }
        var item := KeyAndValue(buf);
        if item.Err? { return Err(item.error), now; }
        if item.value.Some? {
          var e := item.value.value;
          var entries := sections[current.value];
          if e.key !in entries {
            sections := sections[current.value := entries[e.key := e.value]];
          }
        }
      }
      r := Ok(());
    }

    method GetString(section: string, key: string) returns (found: bool, val: string)
      ensures found == Lookup(sections, section, key).Some?
      ensures found ==> val == Lookup(sections, section, key).value
    {
      if section in sections && key in sections[section] {
        return true, sections[section][key];
      }
      return false, "";
    }
  }

  lemma CStringsCons(line: string, more: seq<string>)
    ensures CStrings([line] + more) == [CString(line)] + CStrings(more)
  {
    assert ([line] + more)[1..] == more;
  }

  // ---------- Trimming ----------

  predicate Trimmed(s: string) {
    s != "" && s[0] != ' ' && s[|s| - 1] != ' '
  }

  predicate AllSpaces(s: string) {
    forall i :: 0 <= i < |s| ==> s[i] == ' '
  }

  /** Strip takes off all spaces at both ends, and fails exactly on a blank
      string. */
  lemma StripMeaning(s: string, before: string, core: string, after: string)
    requires s == before + core + after && AllSpaces(before) && AllSpaces(after)
    ensures Trimmed(core) ==> Strip(s) == Some(core)
    ensures core == "" ==> Strip(s) == None
  {
    var a, b := FirstNotSpace(s), AfterLastNotSpace(s);
    if core == "" {
      assert forall i :: 0 <= i < |s| ==> s[i] == ' ';
    } else if Trimmed(core) {
      var n, m := |before|, |before| + |core|;
      assert s[n] == core[0] && s[m - 1] == core[|core| - 1];
      assert forall i :: m <= i < |s| ==> s[i] == after[i - m];
      assert a == n && b == m;
      assert s[n..m] == core;
    }
  }

  // ---------- Lines ----------

  /** The loop sees the lines of the file up to the first that does not fit
      its buffer. */
  lemma {:induction false} ReadLinesMeaning(s: string)
    ensures var all, seen := AllLines(s), ReadLines(s);
            && |seen| <= |all| && seen == all[..|seen|]
            && (forall i :: 0 <= i < |seen| ==> |seen[i]| < 255)
            && (|seen| < |all| ==> |all[|seen|]| >= 255)
    decreases |s|
  {
    if s != "" {
      var n := Find(s, '\n');
      var rest := AfterLine(s, n);
      ReadLinesMeaning(rest);
      if n < StreamSize {
        assert AllLines(s)[1..] == AllLines(rest);
      }
    }
  }

  /** So no line is lost exactly when every line fits. */
  lemma AllLinesSeen(s: string)
    ensures ReadLines(s) == AllLines(s) <==> forall i :: 0 <= i < |AllLines(s)| ==> |AllLines(s)[i]| < 255
  {
    hide ReadLines, AllLines;
    ReadLinesMeaning(s);
    var all, seen := AllLines(s), ReadLines(s);
    if |seen| == |all| { assert all[..|seen|] == all; }
  }

  /** A line as the program sees it ends before its first NUL. */
  lemma CStringStops(line: string, more: string)
    requires forall i :: 0 <= i < |line| ==> line[i] != '\0'
    ensures CString(line) == line && CString(line + ['\0'] + more) == line
  {
    var s := line + ['\0'] + more;
    assert s[|line|] == '\0' && forall i :: 0 <= i < |line| ==> s[i] == line[i];
    assert s[..|line|] == line;
  }

  // ---------- Which exception ----------

  /** A header: not closed, blank, or known already. */
  lemma HeaderErrors(st: State, line: string)
    requires Valid(st) && line != "" && line[0] == '['
    ensures line[|line| - 1] != ']' ==> Step(st, line) == Err(SectionError)
    ensures line[|line| - 1] == ']' ==>
              var inner := line[1..|line| - 1];
              && (AllSpaces(inner) ==> Step(st, line) == Err(OutOfRange))
              && (forall name :: Strip(inner) == Some(name) && name in st.sections ==> Step(st, line) == Err(SectionError))
  {
    hide Strip;
    if line[|line| - 1] == ']' {
      var inner := line[1..|line| - 1];
      if AllSpaces(inner) { BlankHasNothing(inner); }
    }
  }

  lemma BlankHasNothing(s: string)
    requires AllSpaces(s)
    ensures Strip(s) == None
  {
    assert s == s + "" + "";
    StripMeaning(s, s, "", "");
  }

  /** Any other line: before the first section, or with a blank key or value; one without '=' changes nothing. */
  lemma EntryErrors(st: State, line: string)
    requires Valid(st) && (line == "" || line[0] != '[')
    ensures st.current == None ==> Step(st, line) == Err(NoSection)
    ensures st.current != None && (forall i :: 0 <= i < |line| ==> line[i] != '=') ==> Step(st, line) == Ok(st)
    ensures forall n: nat :: st.current != None && BlankAround(line, n) ==> Step(st, line) == Err(OutOfRange)
  {
    hide Strip;
    forall n: nat | st.current != None && BlankAround(line, n) ensures Step(st, line) == Err(OutOfRange) {
      assert Find(line, '=') == n;
      if AllSpaces(line[..n]) { BlankHasNothing(line[..n]); }
      if AllSpaces(line[n + 1..]) { BlankHasNothing(line[n + 1..]); }
    }
  }

  // The first '=' is at n, and nothing but spaces is before it or after it.
  predicate BlankAround(line: string, n: nat) {
    && n < |line| && line[n] == '=' && (forall i :: 0 <= i < n ==> line[i] != '=')
    && (AllSpaces(line[..n]) || AllSpaces(line[n + 1..]))
  }

  // ---------- Runs grow line by line ----------

  lemma {:induction false} RunAppend(st: State, a: seq<string>, b: seq<string>)
    requires Valid(st)
    ensures Run(st, a + b) == match Run(st, a) case Err(e) => Err(e) case Ok(mid) => Run(mid, b)
    decreases |a|
  {
    hide Step;
    if a == [] {
      assert a + b == b;
    } else {
      assert (a + b)[1..] == a[1..] + b;
      var next := Step(st, a[0]);
      if next.Ok? { RunAppend(next.value, a[1..], b); }
    }
  }

  lemma RunSnoc(st: State, lines: seq<string>, line: string)
    requires Valid(st)
    ensures Run(st, lines + [line]) == match Run(st, lines) case Err(e) => Err(e) case Ok(mid) => Step(mid, line)
  {
    hide Step;
    RunAppend(st, lines, [line]);
  }

  // ---------- What a file says, in terms of its lines alone ----------

  // Section of line j: the nearest header above it.
  function Owner(lines: seq<string>, j: nat): Option<string>
    requires j <= |lines|
  {
    if j == 0 then None
    else if IsHeader(lines[j - 1]) then
      match SectionName(lines[j - 1]) case Ok(name) => Some(name) case Err(_) => None
    else Owner(lines, j - 1)
  }

  predicate Names(line: string, section: string) {
    IsHeader(line) && SectionName(line) == Ok(section)
  }

  predicate Binds(lines: seq<string>, j: nat, section: string, key: string)
    requires j < |lines|
  {
    && !IsHeader(lines[j]) && Owner(lines, j) == Some(section)
    && var item := KeyAndValue(lines[j]);
       item.Ok? && item.value.Some? && item.value.value.key == key
  }

  function BoundValue(line: string): string {
    match KeyAndValue(line) case Ok(Some(e)) => e.value case _ => ""
  }

  // Line j is the first to bind the key in the section, and gives it the value.
  predicate FirstBinding(lines: seq<string>, j: nat, section: string, key: string, value: string)
    requires j < |lines|
  {
    && Binds(lines, j, section, key)
    && BoundValue(lines[j]) == value
    && forall i :: 0 <= i < j ==> !Binds(lines, i, section, key)
  }

  // No stray text before the first header, no header without a name, no
  // section twice, no blank key or value.
  predicate WellFormed(lines: seq<string>) {
    && (lines != [] ==> IsHeader(lines[0]))
    && (forall i :: 0 <= i < |lines| ==> ReadableLine(lines[i]))
    && (forall i, j :: 0 <= i < j < |lines| && IsHeader(lines[i]) && IsHeader(lines[j]) ==>
          SectionName(lines[i]) != SectionName(lines[j]))
  }

  predicate ReadableLine(line: string) {
    if IsHeader(line) then SectionName(line).Ok? else KeyAndValue(line).Ok?
  }

  // ---------- The state after a run is what the lines say ----------

  lemma {:induction false} OwnerOfPrefix(lines: seq<string>, line: string, j: nat)
    requires j <= |lines|
    ensures Owner(lines + [line], j) == Owner(lines, j)
  {
    if j > 0 { OwnerOfPrefix(lines, line, j - 1); }
  }

  // Current section and set of sections.
  predicate Tracks(st: State, lines: seq<string>) {
    && st.current == Owner(lines, |lines|)
    && (forall i :: 0 <= i < |lines| && IsHeader(lines[i]) ==>
          SectionName(lines[i]).Ok? && SectionName(lines[i]).value in st.sections)
    && (forall name <- st.sections :: exists i :: 0 <= i < |lines| && Names(lines[i], name))
  }

  lemma TracksStep(st: State, lines: seq<string>, line: string)
    requires Valid(st) && Tracks(st, lines) && Step(st, line).Ok?
    ensures Tracks(Step(st, line).value, lines + [line])
  {
    hide SectionName, KeyAndValue;
    var st', all := Step(st, line).value, lines + [line];
    OwnerOfPrefix(lines, line, |lines|);
    assert all[|lines|] == line;
    forall name | name in st'.sections ensures exists i :: 0 <= i < |all| && Names(all[i], name) {
      if name in st.sections {
        var i :| 0 <= i < |lines| && Names(lines[i], name);
        assert all[i] == lines[i];
      } else {
        assert Names(all[|lines|], name);
      }
    }
  }

  lemma {:induction false} RunTracks(lines: seq<string>)
    ensures Run(Start, lines).Ok? ==> Tracks(Run(Start, lines).value, lines)
    decreases |lines|
  {
    hide Step, Tracks;
    if lines == [] {
      assert Tracks(Start, []) by { TracksStart(); }
    } else {
      var init, line := lines[..|lines| - 1], lines[|lines| - 1];
      assert lines == init + [line];
      RunTracks(init);
      RunSnoc(Start, init, line);
      var mid := Run(Start, init);
      if mid.Ok? && Step(mid.value, line).Ok? { TracksStep(mid.value, init, line); }
    }
  }

  lemma TracksStart()
    ensures Tracks(Start, [])
  {
  }

  // ---------- When the file is accepted ----------

  lemma {:induction false} OwnerExists(lines: seq<string>, j: nat)
    requires WellFormed(lines) && 0 < j <= |lines|
    ensures Owner(lines, j).Some?
  {
    hide SectionName, KeyAndValue;
    if !IsHeader(lines[j - 1]) {
      if j > 1 { OwnerExists(lines, j - 1); }
    } else {
      assert ReadableLine(lines[j - 1]);
    }
  }

  lemma WellFormedPrefix(lines: seq<string>, line: string)
    requires WellFormed(lines + [line])
    ensures WellFormed(lines)
  {
    hide SectionName, KeyAndValue, ReadableLine;
    var all := lines + [line];
    assert forall i :: 0 <= i < |lines| ==> all[i] == lines[i];
  }

  lemma AcceptedStep(st: State, lines: seq<string>, line: string)
    requires Valid(st) && Tracks(st, lines) && WellFormed(lines)
    ensures Step(st, line).Ok? <==> WellFormed(lines + [line])
  {
    hide SectionName, KeyAndValue;
    var all := lines + [line];
    assert all[|lines|] == line;
    assert forall i :: 0 <= i < |lines| ==> all[i] == lines[i];
    if lines != [] { OwnerExists(lines, |lines|); }
    if IsHeader(line) && SectionName(line).Ok? {
      var name := SectionName(line).value;
      if name in st.sections {
        var i :| 0 <= i < |lines| && Names(lines[i], name);
        assert all[i] == lines[i] && all[|lines|] == line;
        assert !WellFormed(all);
      }
    }
  }

  /** Exactly the well-formed files are accepted. */
  lemma {:induction false} AcceptedExactlyIf(lines: seq<string>)
    ensures Run(Start, lines).Ok? <==> WellFormed(lines)
    decreases |lines|
  {
    hide Step, Tracks, WellFormed;
    if lines == [] {
      assert WellFormed([]) by { NothingIsWellFormed(); }
    } else {
      var init, line := lines[..|lines| - 1], lines[|lines| - 1];
      assert lines == init + [line];
      AcceptedExactlyIf(init);
      RunTracks(init);
      RunSnoc(Start, init, line);
      if Run(Start, init).Ok? {
        AcceptedStep(Run(Start, init).value, init, line);
      } else if WellFormed(lines) {
        WellFormedPrefix(init, line);
      }
    }
  }

  lemma NothingIsWellFormed()
    ensures WellFormed([])
  {
  }

  // ---------- What is found ----------

  predicate BoundIn(lines: seq<string>, section: string, key: string) {
    exists j :: 0 <= j < |lines| && Binds(lines, j, section, key)
  }

  lemma BindsOfPrefix(lines: seq<string>, line: string, j: nat, section: string, key: string)
    requires j < |lines|
    ensures Binds(lines + [line], j, section, key) == Binds(lines, j, section, key)
  {
    OwnerOfPrefix(lines, line, j);
  }

  // The sections hold exactly the first bindings.
  ghost predicate Holds(sections: Table, lines: seq<string>, section: string, key: string) {
    && (Lookup(sections, section, key).Some? <==> BoundIn(lines, section, key))
    && forall j :: 0 <= j < |lines| && FirstBinding(lines, j, section, key, BoundValue(lines[j])) ==>
         Lookup(sections, section, key) == Some(BoundValue(lines[j]))
  }

  lemma NewlyBound(st: State, lines: seq<string>, line: string, section: string, key: string)
    requires Valid(st) && Tracks(st, lines) && Step(st, line).Ok?
    ensures var st', all := Step(st, line).value, lines + [line];
            && (!Binds(all, |lines|, section, key) ==>
                  Lookup(st'.sections, section, key) == Lookup(st.sections, section, key))
            && (Binds(all, |lines|, section, key) ==>
                  Lookup(st'.sections, section, key) ==
                  if Lookup(st.sections, section, key).Some? then Lookup(st.sections, section, key)
                  else Some(BoundValue(line)))
  {
    hide SectionName;
    OwnerOfPrefix(lines, line, |lines|);
  }

  lemma BoundInSnoc(lines: seq<string>, line: string, section: string, key: string)
    ensures var all := lines + [line];
            BoundIn(all, section, key) <==> BoundIn(lines, section, key) || Binds(all, |lines|, section, key)
  {
    hide Binds;
    var all := lines + [line];
    if BoundIn(all, section, key) {
      var j :| 0 <= j < |all| && Binds(all, j, section, key);
      if j < |lines| { BindsOfPrefix(lines, line, j, section, key); }
    }
    if BoundIn(lines, section, key) {
      var j :| 0 <= j < |lines| && Binds(lines, j, section, key);
      BindsOfPrefix(lines, line, j, section, key);
    }
  }

  lemma FirstOfPrefix(lines: seq<string>, line: string, j: nat, section: string, key: string, value: string)
    requires j <= |lines|
    requires FirstBinding(lines + [line], j, section, key, value)
    ensures j < |lines| ==> FirstBinding(lines, j, section, key, value)
    ensures j == |lines| ==> !BoundIn(lines, section, key)
  {
    hide Binds, BoundValue;
    var all := lines + [line];
    forall i | 0 <= i < |lines| ensures Binds(all, i, section, key) == Binds(lines, i, section, key) {
      BindsOfPrefix(lines, line, i, section, key);
    }
  }

  lemma HoldsStep(st: State, lines: seq<string>, line: string, section: string, key: string)
    requires Valid(st) && Tracks(st, lines) && Step(st, line).Ok?
    requires Holds(st.sections, lines, section, key)
    ensures Holds(Step(st, line).value.sections, lines + [line], section, key)
  {
    hide Step, Tracks, Binds, Lookup, BoundIn, BoundValue, FirstBinding;
    var all := lines + [line];
    NewlyBound(st, lines, line, section, key);
    BoundInSnoc(lines, line, section, key);
    forall j | 0 <= j < |all| && FirstBinding(all, j, section, key, BoundValue(all[j]))
      ensures Lookup(Step(st, line).value.sections, section, key) == Some(BoundValue(all[j]))
    {
      FirstOfPrefix(lines, line, j, section, key, BoundValue(all[j]));
      FirstBinds(all, j, section, key, BoundValue(all[j]));
    }
  }

  lemma FirstBinds(lines: seq<string>, j: nat, section: string, key: string, value: string)
    requires j < |lines| && FirstBinding(lines, j, section, key, value)
    ensures Binds(lines, j, section, key)
  {
  }

  lemma {:induction false} RunHolds(lines: seq<string>, section: string, key: string)
    ensures Run(Start, lines).Ok? ==> Holds(Run(Start, lines).value.sections, lines, section, key)
    decreases |lines|
  {
    hide Step, Tracks, Holds;
    if lines == [] {
      assert Holds(map[], [], section, key) by { NothingHeld(section, key); }
    } else {
      var init, line := lines[..|lines| - 1], lines[|lines| - 1];
      assert lines == init + [line];
      RunHolds(init, section, key);
      RunTracks(init);
      RunSnoc(Start, init, line);
      var mid := Run(Start, init);
      if mid.Ok? && Step(mid.value, line).Ok? { HoldsStep(mid.value, init, line, section, key); }
    }
  }

  lemma NothingHeld(section: string, key: string)
    ensures Holds(map[], [], section, key)
  {
  }

  lemma {:induction false} SomeFirst(lines: seq<string>, j: nat, section: string, key: string) returns (i: nat)
    requires j < |lines| && Binds(lines, j, section, key)
    ensures i <= j && FirstBinding(lines, i, section, key, BoundValue(lines[i]))
  {
    hide Binds, BoundValue;
    if k: nat :| k < j && Binds(lines, k, section, key) {
      i := SomeFirst(lines, k, section, key);
    } else {
      i := j;
    }
  }

  /** After an accepted file, a value is found exactly when it is given by
      the first line that binds the key inside the section. */
  lemma LookupIsFirstBinding(lines: seq<string>, section: string, key: string, value: string)
    requires WellFormed(lines)
    ensures Run(Start, lines).Ok?
    ensures Lookup(Run(Start, lines).value.sections, section, key) == Some(value) <==>
            exists j :: 0 <= j < |lines| && FirstBinding(lines, j, section, key, value)
  {
    hide Binds, BoundValue, Lookup, Run, WellFormed;
    AcceptedExactlyIf(lines);
    RunHolds(lines, section, key);
    if Lookup(Run(Start, lines).value.sections, section, key) == Some(value) {
      var j :| 0 <= j < |lines| && Binds(lines, j, section, key);
      var i := SomeFirst(lines, j, section, key);
      assert BoundValue(lines[i]) == value;
    }
  }
}
