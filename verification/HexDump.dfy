/** Hex dump of a buffer, sixteen bytes a row, with runs of equal rows
    collapsed to a marker. */
module HexDump {

  import opened Common

  // A printed line; the closing line that holds only the count is a row
  // without bytes.
  datatype Line = Row(address: nat, bytes: seq<Byte>) | Dots

  const Zeros: seq<Byte> := [0, 0, 0, 0, 0, 0, 0, 0, 0, 0, 0, 0, 0, 0, 0, 0]

  // ---------- What is printed ----------

  // Lines for the bytes from `address` on: `last` is the row before them,
  // `dots` says that a marker is already showing.
  function Lines(rest: seq<Byte>, address: nat, last: seq<Byte>, dots: bool): (r: seq<Line>)
    decreases |rest|
  {
    if |rest| <= 16 then
      [Row(address, rest)] + (if rest == [] then [] else [Row(address + |rest|, [])])
    else if last == rest[..16] then
      (if dots then [] else [Dots]) + Lines(rest[16..], address + 16, rest[..16], true)
    else
      [Row(address, rest[..16])] + Lines(rest[16..], address + 16, rest[..16], false)
  }

  function Dump(buf: seq<Byte>): seq<Line> {
    Lines(buf, 0, Zeros, false)
  }

  // ---------- Reading a dump ----------

  function Repeat(row: seq<Byte>, n: nat): (r: seq<Byte>)
    ensures |row| == 16 ==> |r| == 16 * n
  {
    if n == 0 then [] else row + Repeat(row, n - 1)
  }

  // A marker stands for copies of the row before it, up to the address of
  // the row after it; two markers together, or a gap without one, mean
  // nothing.
  function Rebuild(lines: seq<Line>, sofar: seq<Byte>, last: seq<Byte>, dots: bool): Option<seq<Byte>> {
    if lines == [] then if dots then None else Some(sofar) else
    match lines[0]
    case Dots => if dots then None else Rebuild(lines[1..], sofar, last, true)
    case Row(address, bytes) =>
      if !dots then
        if address == |sofar| then Rebuild(lines[1..], sofar + bytes, bytes, false) else None
      else if address > |sofar| && (address - |sofar|) % 16 == 0 then
        Rebuild(lines[1..], sofar + Repeat(last, (address - |sofar|) / 16) + bytes, bytes, false)
      else None
  }

  function Undump(lines: seq<Line>): Option<seq<Byte>> {
    Rebuild(lines, [], Zeros, false)
  }

  // ---------- The dump is lossless ----------

  lemma LinesStep(rest: seq<Byte>, address: nat, last: seq<Byte>, dots: bool)
    requires |rest| > 16
    ensures var same := last == rest[..16];
            var line := if !same then [Row(address, rest[..16])] else if dots then [] else [Dots];
            Lines(rest, address, last, dots) == line + Lines(rest[16..], address + 16, rest[..16], same)
  {
  }

  lemma LinesEnd(rest: seq<Byte>, address: nat, last: seq<Byte>, dots: bool)
    requires |rest| <= 16
    ensures Lines(rest, address, last, dots)
         == [Row(address, rest)] + (if rest == [] then [] else [Row(address + |rest|, [])])
  {
  }

  lemma {:induction false} RepeatSnoc(row: seq<Byte>, n: nat)
    ensures Repeat(row, n + 1) == Repeat(row, n) + row
  {
    if n > 0 { RepeatSnoc(row, n - 1); }
  }

  // n copies of the last row have been left out so far.
  lemma {:induction false} RebuildLines(rest: seq<Byte>, sofar: seq<Byte>, last: seq<Byte>, n: nat)
    requires |last| == 16
    ensures Rebuild(Lines(rest, |sofar| + 16 * n, last, n > 0), sofar, last, n > 0)
         == Some(sofar + Repeat(last, n) + rest)
    decreases |rest|
  {
    hide Lines, Rebuild;
    if |rest| <= 16 {
      RebuildEnd(rest, sofar, last, n);
    } else if last == rest[..16] {
      RebuildLines(rest[16..], sofar, last, n + 1);
      RepeatSnoc(last, n);
      assert sofar + Repeat(last, n) + rest == sofar + Repeat(last, n + 1) + rest[16..];
      RebuildSkip(rest, sofar, last, n);
    } else {
      var next := sofar + Repeat(last, n) + rest[..16];
      RebuildLines(rest[16..], next, rest[..16], 0);
      assert next + Repeat(rest[..16], 0) + rest[16..] == sofar + Repeat(last, n) + rest;
      RebuildRow(rest, sofar, last, n);
    }
  }

  lemma RebuildSkip(rest: seq<Byte>, sofar: seq<Byte>, last: seq<Byte>, n: nat)
    requires |rest| > 16 && last == rest[..16]
    ensures Rebuild(Lines(rest, |sofar| + 16 * n, last, n > 0), sofar, last, n > 0)
         == Rebuild(Lines(rest[16..], |sofar| + 16 * (n + 1), last, true), sofar, last, true)
  {
    var more := Lines(rest[16..], |sofar| + 16 * (n + 1), last, true);
    assert n > 0 ==> [] + more == more;
    assert ([Dots] + more)[1..] == more;
  }

  // A row printed at its place is appended after the copies left out.
  lemma RebuildOne(address: nat, bytes: seq<Byte>, more: seq<Line>, sofar: seq<Byte>, last: seq<Byte>, n: nat)
    requires |last| == 16 && address == |sofar| + 16 * n
    ensures Rebuild([Row(address, bytes)] + more, sofar, last, n > 0)
         == Rebuild(more, sofar + Repeat(last, n) + bytes, bytes, false)
  {
    var lines := [Row(address, bytes)] + more;
    assert lines[1..] == more;
    if n == 0 {
      assert sofar + Repeat(last, n) + bytes == sofar + bytes;
    } else {
      hide Repeat;
      var gap := address - |sofar|;
      assert gap % 16 == 0 && gap / 16 == n;
    }
  }

  lemma RebuildRow(rest: seq<Byte>, sofar: seq<Byte>, last: seq<Byte>, n: nat)
    requires |rest| > 16 && |last| == 16 && last != rest[..16]
    ensures var next := sofar + Repeat(last, n) + rest[..16];
            Rebuild(Lines(rest, |sofar| + 16 * n, last, n > 0), sofar, last, n > 0)
            == Rebuild(Lines(rest[16..], |next|, rest[..16], false), next, rest[..16], false)
  {
    hide Rebuild, Lines, Repeat;
    var address := |sofar| + 16 * n;
    LinesStep(rest, address, last, n > 0);
    RebuildOne(address, rest[..16], Lines(rest[16..], address + 16, rest[..16], false), sofar, last, n);
  }

  lemma RebuildEnd(rest: seq<Byte>, sofar: seq<Byte>, last: seq<Byte>, n: nat)
    requires |rest| <= 16 && |last| == 16
    ensures Rebuild(Lines(rest, |sofar| + 16 * n, last, n > 0), sofar, last, n > 0)
         == Some(sofar + Repeat(last, n) + rest)
  {
    hide Rebuild, Lines, Repeat;
    var address := |sofar| + 16 * n;
    LinesEnd(rest, address, last, n > 0);
    var all := sofar + Repeat(last, n) + rest;
    var end: seq<Line> := if rest == [] then [] else [Row(|all|, [])];
    RebuildOne(address, rest, end, sofar, last, n);
    RebuildLast(all, rest);
  }

  lemma RebuildLast(all: seq<Byte>, last: seq<Byte>)
    ensures Rebuild([], all, last, false) == Some(all)
    ensures Rebuild([Row(|all|, [])], all, last, false) == Some(all)
  {
    assert all + [] == all;
  }

  /** Every buffer is recovered from its dump, leading rows of zeros included. */
  lemma Lossless(buf: seq<Byte>)
    ensures Undump(Dump(buf)) == Some(buf)
  {
    hide Lines, Rebuild;
    RebuildLines(buf, [], Zeros, 0);
    assert [] + Repeat(Zeros, 0) + buf == buf;
  }

  lemma DumpInjective(a: seq<Byte>, b: seq<Byte>)
    ensures Dump(a) == Dump(b) <==> a == b
  {
    Lossless(a);
    Lossless(b);
  }

  // ---------- What a reader of the dump can rely on ----------

  // No two markers are adjacent, nor does one follow a marker shown before.
  predicate MarkersAlone(lines: seq<Line>, dots: bool) {
    lines == [] || (!(dots && lines[0].Dots?) && MarkersAlone(lines[1..], lines[0].Dots?))
  }

  lemma {:induction false} MarkersStandAlone(rest: seq<Byte>, address: nat, last: seq<Byte>, dots: bool)
    ensures MarkersAlone(Lines(rest, address, last, dots), dots)
    decreases |rest|
  {
    hide Lines;
    if |rest| <= 16 {
      LinesEnd(rest, address, last, dots);
      RowsAlone(Row(address, rest), Row(address + |rest|, []), dots);
    } else {
      var same := last == rest[..16];
      MarkersStandAlone(rest[16..], address + 16, rest[..16], same);
      LinesStep(rest, address, last, dots);
      var more := Lines(rest[16..], address + 16, rest[..16], same);
      if same && dots {
        assert [] + more == more;
      } else {
        AloneBefore(if same then Dots else Row(address, rest[..16]), more, dots);
      }
    }
  }

  lemma RowsAlone(a: Line, b: Line, dots: bool)
    requires a.Row? && b.Row?
    ensures MarkersAlone([a] + [], dots) && MarkersAlone([a] + [b], dots)
  {
    assert ([a] + [b])[1..] == [b];
  }

  lemma AloneBefore(line: Line, more: seq<Line>, dots: bool)
    requires MarkersAlone(more, line.Dots?) && !(dots && line.Dots?)
    ensures MarkersAlone([line] + more, dots)
  {
    assert ([line] + more)[1..] == more;
  }

  lemma {:induction false} AloneMeansApart(lines: seq<Line>, dots: bool, i: nat)
    requires MarkersAlone(lines, dots) && i + 1 < |lines|
    ensures !(lines[i].Dots? && lines[i + 1].Dots?)
  {
    if i > 0 { AloneMeansApart(lines[1..], lines[0].Dots?, i - 1); }
  }

  /** In no dump are two markers adjacent. */
  lemma NoTwoMarkers(buf: seq<Byte>, i: nat)
    requires i + 1 < |Dump(buf)|
    ensures !(Dump(buf)[i].Dots? && Dump(buf)[i + 1].Dots?)
  {
    MarkersStandAlone(buf, 0, Zeros, false);
    AloneMeansApart(Dump(buf), false, i);
  }

  // ---------- How a dump begins ----------

  /** A full first row that is not the last collapses exactly if it is all zeros; otherwise it is shown at
      address 0. */
  lemma FirstRow(buf: seq<Byte>)
    requires |buf| > 16
    ensures Dump(buf) != [] && (Dump(buf)[0] == Dots <==> forall i :: 0 <= i < 16 ==> buf[i] == 0)
    ensures Dump(buf)[0] != Dots ==> Dump(buf)[0] == Row(0, buf[..16])
  {
    hide Lines;
    LinesStep(buf, 0, Zeros, false);
    var row := buf[..16];
    if forall i :: 0 <= i < 16 ==> buf[i] == 0 {
      assert row == Zeros;
    } else if row == Zeros {
      assert forall i :: 0 <= i < 16 ==> buf[i] == row[i] == Zeros[i] == 0;
    }
  }

  /** Up to sixteen bytes are one row and the count; nothing is one row without bytes. */
  lemma ShortDump(buf: seq<Byte>)
    requires |buf| <= 16
    ensures Dump(buf) == if buf == [] then [Row(0, [])] else [Row(0, buf), Row(|buf|, [])]
  {
    LinesEnd(buf, 0, Zeros, false);
  }

  // ---------- The program ----------

  method RowsEqual(a: array<Byte>, b: array<Byte>) returns (eq: bool)
    requires a.Length == 16 && b.Length == 16
    ensures eq <==> a[..] == b[..]
  {
    for i := 0 to 16
      invariant a[..i] == b[..i]
    {
      if a[i] != b[i] { return false; }
    }
    assert a[..16] == a[..] && b[..16] == b[..];
    return true;
  }

  method CopyRow(from: array<Byte>, to: array<Byte>)
    requires from.Length == 16 && to.Length == 16 && from != to
    modifies to
    ensures to[..] == from[..]
  {
    for i := 0 to 16
      invariant to[..i] == from[..i]
    {
      to[i] := from[i];
    }
    assert to[..16] == to[..] && from[..16] == from[..];
  }

  /** A full row: emitted, or a marker, or nothing; it becomes the row to compare with. */
  method FlushRow(chs: array<Byte>, oldchs: array<Byte>, count: nat, showedDots: bool) returns (dots: bool, lines: seq<Line>)
    requires chs.Length == 16 && oldchs.Length == 16 && chs != oldchs && count >= 16
    modifies oldchs
    ensures dots <==> old(oldchs[..]) == chs[..]
    ensures lines == if !dots then [Row(count - 16, chs[..])] else if showedDots then [] else [Dots]
    ensures oldchs[..] == chs[..]
  {
    dots, lines := showedDots, [];
    var eq := RowsEqual(oldchs, chs);
    if eq {
      if !dots {
        dots := true;
        lines := [Dots];
      }
    } else {
      dots := false;
      lines := [Row(count - 16, chs[..])];
    }
    CopyRow(chs, oldchs);
  }

  // What has been emitted, and what the bytes from `done` on will add to it.
  ghost predicate Emitted(buf: seq<Byte>, out: seq<Line>, done: nat, last: seq<Byte>, dots: bool) {
    done <= |buf| && Dump(buf) == out + Lines(buf[done..], done, last, dots)
  }

  lemma NothingEmitted(buf: seq<Byte>)
    ensures Emitted(buf, [], 0, Zeros, false)
  {
    hide Lines;
    assert buf[0..] == buf;
  }

  lemma RowEmitted(buf: seq<Byte>, out: seq<Line>, done: nat, last: seq<Byte>, dots: bool)
    requires Emitted(buf, out, done, last, dots) && done + 16 < |buf|
    ensures var row := buf[done..done + 16];
            var same := last == row;
            var lines := if !same then [Row(done, row)] else if dots then [] else [Dots];
            Emitted(buf, out + lines, done + 16, row, same)
  {
    hide Lines;
    var rest := buf[done..];
    assert rest[..16] == buf[done..done + 16] && rest[16..] == buf[done + 16..];
    LinesStep(rest, done, last, dots);
  }

  lemma AllEmitted(buf: seq<Byte>, out: seq<Line>, done: nat, last: seq<Byte>, dots: bool)
    requires Emitted(buf, out, done, last, dots) && |buf| <= done + 16
    ensures done == |buf| ==> out + [Row(done, [])] == Dump(buf)
    ensures done < |buf| ==> out + [Row(done, buf[done..])] + [Row(|buf|, [])] == Dump(buf)
  {
    hide Lines;
    LinesEnd(buf[done..], done, last, dots);
    assert done == |buf| ==> buf[done..] == [];
  }

  lemma RowGrows(buf: seq<Byte>, done: nat, i: nat)
    requires done <= i < |buf|
    ensures buf[done..i + 1] == buf[done..i] + [buf[i]]
  {
  }

  method AmqpDump(buf: seq<Byte>) returns (out: seq<Line>)
    ensures out == Dump(buf)
  {
    hide Dump, Emitted;
    out := [];
    var count, numinrow, showedDots := 0, 0, false;
    var chs, oldchs := new Byte[16], new Byte[16](_ => 0);
    assert oldchs[..] == Zeros;
    NothingEmitted(buf);
    ghost var done := 0;
    for i := 0 to |buf|
      invariant 0 <= numinrow <= 16 && done + numinrow == i == count
      invariant chs[..numinrow] == buf[done..i]
      invariant Emitted(buf, out, done, oldchs[..], showedDots)
    {
      if numinrow == 16 {
        RowEmitted(buf, out, done, oldchs[..], showedDots);
        assert chs[..] == chs[..16];
        var lines;
        showedDots, lines := FlushRow(chs, oldchs, count, showedDots);
        out := out + lines;
        numinrow := 0;
        done := i;
        assert chs[..numinrow] == buf[done..i];
      }
      ghost var row := chs[..numinrow];
      count := count + 1;
      chs[numinrow] := buf[i];
      numinrow := numinrow + 1;
      assert chs[..numinrow] == row + [buf[i]];
      RowGrows(buf, done, i);
    }
    AllEmitted(buf, out, done, oldchs[..], showedDots);
    assert buf[done..|buf|] == buf[done..];
    out := out + [Row(count - numinrow, chs[..numinrow])];
    if numinrow != 0 {
      out := out + [Row(count, [])];
    }
  }
}
