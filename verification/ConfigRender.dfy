/** Writing a configuration out and reading it back. */
module ConfigRender {

  import opened Common
  import opened ConfigFile

  // Sections and entries in the order in which they are written.
  datatype Section = Section(name: string, entries: seq<Entry>)

  // ---------- The text ----------

  function HeaderLine(name: string): string { "[" + name + "]" }

  function EntryLine(e: Entry): string { e.key + "=" + e.value }

  function EntryLines(es: seq<Entry>): seq<string> {
    if es == [] then [] else EntryLines(es[..|es| - 1]) + [EntryLine(es[|es| - 1])]
  }

  function SectionLines(s: Section): seq<string> {
    [HeaderLine(s.name)] + EntryLines(s.entries)
  }

  function ConfigLines(cfg: seq<Section>): seq<string> {
    if cfg == [] then [] else ConfigLines(cfg[..|cfg| - 1]) + SectionLines(cfg[|cfg| - 1])
  }

  function Join(lines: seq<string>): string {
    if lines == [] then "" else lines[0] + "\n" + Join(lines[1..])
  }

  function Render(cfg: seq<Section>): string { Join(ConfigLines(cfg)) }

  // ---------- The table it stands for ----------

  function EntriesOf(es: seq<Entry>): map<string, string> {
    if es == [] then map[] else EntriesOf(es[..|es| - 1])[es[|es| - 1].key := es[|es| - 1].value]
  }

  function TableOf(cfg: seq<Section>): Table {
    if cfg == [] then map[] else TableOf(cfg[..|cfg| - 1])[cfg[|cfg| - 1].name := EntriesOf(cfg[|cfg| - 1].entries)]
  }

  // ---------- What can be written ----------

  // Fits a line: no line feed, no NUL, short enough.
  predicate Fits(line: string) {
    |line| < 255 && forall i :: 0 <= i < |line| ==> line[i] != '\n' && line[i] != '\0'
  }

  predicate WritableEntry(e: Entry) {
    && Trimmed(e.key) && Trimmed(e.value)
    && e.key[0] != '[' && (forall i :: 0 <= i < |e.key| ==> e.key[i] != '=')
    && Fits(EntryLine(e))
  }

  predicate WritableEntries(es: seq<Entry>) {
    && (forall i :: 0 <= i < |es| ==> WritableEntry(es[i]))
    && (forall i, j :: 0 <= i < j < |es| ==> es[i].key != es[j].key)
  }

  predicate WritableSection(s: Section) {
    Trimmed(s.name) && Fits(HeaderLine(s.name)) && WritableEntries(s.entries)
  }

  predicate Writable(cfg: seq<Section>) {
    && (forall i :: 0 <= i < |cfg| ==> WritableSection(cfg[i]))
    && (forall i, j :: 0 <= i < j < |cfg| ==> cfg[i].name != cfg[j].name)
  }

  // ---------- Lines read back ----------

  lemma LineRead(line: string, more: string)
    requires Fits(line)
    ensures ReadLines(line + "\n" + more) == [line] + ReadLines(more)
    ensures CString(line) == line
  {
    var s := line + "\n" + more;
    assert s[|line|] == '\n';
    assert forall i :: 0 <= i < |line| ==> s[i] == line[i];
    assert Find(s, '\n') == |line|;
    assert s[..|line|] == line && s[|line| + 1..] == more;
    assert Find(line, '\0') == |line|;
  }

  lemma {:induction false} LinesRead(lines: seq<string>)
    requires forall i :: 0 <= i < |lines| ==> Fits(lines[i])
    ensures CStrings(ReadLines(Join(lines))) == lines
  {
    hide ReadLines, CString, Fits;
    if lines == [] {
      assert ReadLines("") == [] by { NoLines(); }
    } else {
      LineRead(lines[0], Join(lines[1..]));
      LinesRead(lines[1..]);
      CStringsCons(lines[0], ReadLines(Join(lines[1..])));
    }
  }

  lemma NoLines()
    ensures ReadLines("") == []
  {
  }

  // ---------- Steps on written lines ----------

  lemma HeaderRead(name: string)
    requires Trimmed(name)
    ensures IsHeader(HeaderLine(name)) && SectionName(HeaderLine(name)) == Ok(name)
  {
    hide Strip;
    var line := HeaderLine(name);
    assert line[1..|line| - 1] == name;
    assert "" + name + "" == name;
    StripMeaning(name, "", name, "");
  }

  lemma EntryRead(e: Entry)
    requires WritableEntry(e)
    ensures !IsHeader(EntryLine(e)) && KeyAndValue(EntryLine(e)) == Ok(Some(e))
  {
    hide Strip, Fits, Find;
    var line, n := EntryLine(e), |e.key|;
    FindAfter(e.key, '=', e.value);
    assert line[0] == e.key[0];
    assert line[..n] == e.key && line[n + 1..] == e.value;
    TrimmedIsStripped(e.key);
    TrimmedIsStripped(e.value);
  }

  lemma FindAfter(key: string, c: char, value: string)
    requires forall i :: 0 <= i < |key| ==> key[i] != c
    ensures Find(key + [c] + value, c) == |key|
  {
    var line, n := key + [c] + value, |key|;
    assert line[n] == c && forall i :: 0 <= i < n ==> line[i] == key[i];
  }

  lemma TrimmedIsStripped(s: string)
    requires Trimmed(s)
    ensures Strip(s) == Some(s)
  {
    hide Strip;
    assert "" + s + "" == s;
    StripMeaning(s, "", s, "");
  }

  lemma {:induction false} KeysOf(es: seq<Entry>, key: string)
    ensures key in EntriesOf(es) <==> exists i :: 0 <= i < |es| && es[i].key == key
  {
    if es != [] {
      var init := es[..|es| - 1];
      KeysOf(init, key);
      assert es == init + [es[|es| - 1]];
    }
  }

  lemma {:induction false} NamesOf(cfg: seq<Section>, name: string)
    ensures name in TableOf(cfg) <==> exists i :: 0 <= i < |cfg| && cfg[i].name == name
  {
    if cfg != [] {
      var init := cfg[..|cfg| - 1];
      NamesOf(init, name);
      assert cfg == init + [cfg[|cfg| - 1]];
    }
  }

  // Entries written under a new header fill exactly that section.
  lemma {:induction false} EntriesRead(t: Table, name: string, es: seq<Entry>)
    requires WritableEntries(es)
    ensures Run(State(t[name := map[]], Some(name)), EntryLines(es)) == Ok(State(t[name := EntriesOf(es)], Some(name)))
  {
    hide WritableEntry;
    var st := State(t[name := map[]], Some(name));
    if es != [] {
      var init, e := es[..|es| - 1], es[|es| - 1];
      EntriesRead(t, name, init);
      RunSnoc(st, EntryLines(init), EntryLine(e));
      EntryRead(e);
      KeysOf(init, e.key);
      EntryStep(t, name, EntriesOf(init), e);
    }
  }

  lemma EntryStep(t: Table, name: string, entries: map<string, string>, e: Entry)
    requires WritableEntry(e) && e.key !in entries
    ensures Step(State(t[name := entries], Some(name)), EntryLine(e))
         == Ok(State(t[name := entries[e.key := e.value]], Some(name)))
  {
    hide KeyAndValue, IsHeader, WritableEntry;
    EntryRead(e);
    assert t[name := entries][name := entries[e.key := e.value]] == t[name := entries[e.key := e.value]];
  }

  lemma SectionRead(t: Table, current: Option<string>, s: Section)
    requires WritableSection(s) && s.name !in t && Valid(State(t, current))
    ensures Run(State(t, current), SectionLines(s)) == Ok(State(t[s.name := EntriesOf(s.entries)], Some(s.name)))
  {
    hide WritableEntries, EntriesOf, EntryLines, SectionName, IsHeader;
    HeaderRead(s.name);
    EntriesRead(t, s.name, s.entries);
    assert SectionLines(s)[1..] == EntryLines(s.entries);
  }

  lemma {:induction false} ConfigRead(cfg: seq<Section>)
    requires Writable(cfg)
    ensures Run(Start, ConfigLines(cfg)).Ok? && Run(Start, ConfigLines(cfg)).value.sections == TableOf(cfg)
  {
    hide WritableSection, SectionLines, Step, EntriesOf;
    if cfg != [] {
      var init, s := cfg[..|cfg| - 1], cfg[|cfg| - 1];
      ConfigRead(init);
      RunAppend(Start, ConfigLines(init), SectionLines(s));
      NamesOf(init, s.name);
      SectionRead(TableOf(init), Run(Start, ConfigLines(init)).value.current, s);
    }
  }

  lemma {:induction false} EntriesFit(es: seq<Entry>)
    requires WritableEntries(es)
    ensures forall i :: 0 <= i < |EntryLines(es)| ==> Fits(EntryLines(es)[i])
  {
    hide Fits;
    if es != [] { EntriesFit(es[..|es| - 1]); }
  }

  lemma {:induction false} ConfigFits(cfg: seq<Section>)
    requires Writable(cfg)
    ensures forall i :: 0 <= i < |ConfigLines(cfg)| ==> Fits(ConfigLines(cfg)[i])
  {
    hide Fits, WritableEntries, EntryLines;
    if cfg != [] {
      ConfigFits(cfg[..|cfg| - 1]);
      EntriesFit(cfg[|cfg| - 1].entries);
    }
  }

  /** A configuration written out, in any order of its sections and entries,
      is read back as the same table. */
  lemma RenderThenParse(cfg: seq<Section>)
    requires Writable(cfg)
    ensures Parse(Render(cfg)).Ok? && Parse(Render(cfg)).value.sections == TableOf(cfg)
  {
    hide Run, ConfigLines, Fits, ReadLines, CStrings, Join;
    ConfigFits(cfg);
    LinesRead(ConfigLines(cfg));
    ConfigRead(cfg);
  }
}
