/**
 Base64 as section 4 of RFC 4648 defines it, and its round trips in both directions.  Module
 Base64Codec proves the table-driven codec equal to it.
 */
module Base64 {
  import opened Base64Tables

  // ---------- Section 4 of RFC 4648 ----------

  /** Three octets as one 24-bit group. */
  function Group(a: Octet, b: Octet, c: Octet): Quad {
    ((a as Quad) << 16) | ((b as Quad) << 8) | (c as Quad)
  }

  /** The four 6-bit values of a 24-bit group, first to last. */
  function Sextets(g: Quad): (Octet, Octet, Octet, Octet) {
    (((g >> 18) & 63) as Octet, ((g >> 12) & 63) as Octet, ((g >> 6) & 63) as Octet, (g & 63) as Octet)
  }

  /** Four 6-bit values as one 24-bit group. */
  function Join(v0: Octet, v1: Octet, v2: Octet, v3: Octet): Quad {
    ((v0 as Quad) << 18) | ((v1 as Quad) << 12) | ((v2 as Quad) << 6) | (v3 as Quad)
  }

  function Octets(g: Quad): (Octet, Octet, Octet) {
    (((g >> 16) & 255) as Octet, ((g >> 8) & 255) as Octet, (g & 255) as Octet)
  }

  function EncodeGroup(a: Octet, b: Octet, c: Octet): (s: seq<Octet>)
    ensures |s| == 4
  {
    var (v0, v1, v2, v3) := Sextets(Group(a, b, c));
    [Symbol(v0), Symbol(v1), Symbol(v2), Symbol(v3)]
  }

  function DecodeGroup(c0: Octet, c1: Octet, c2: Octet, c3: Octet): (b: seq<Octet>)
    ensures |b| == 3
  {
    var (o0, o1, o2) := Octets(Join(Value(c0), Value(c1), Value(c2), Value(c3)));
    [o0, o1, o2]
  }

  function EncodeGroups(b: seq<Octet>): (s: seq<Octet>)
    requires |b| % 3 == 0
    ensures |s| == |b| / 3 * 4
  {
    if b == [] then []
    else
      var n := |b|;
      EncodeGroups(b[..n - 3]) + EncodeGroup(b[n - 3], b[n - 2], b[n - 1])
  }

  function DecodeGroups(s: seq<Octet>): (b: seq<Octet>)
    requires |s| % 4 == 0
    ensures |b| == |s| / 4 * 3
  {
    if s == [] then []
    else
      var n := |s|;
      DecodeGroups(s[..n - 4]) + DecodeGroup(s[n - 4], s[n - 3], s[n - 2], s[n - 1])
  }

  /** One or two octets left over are filled up with zero bits and padded. */
  function EncodeTail(b: seq<Octet>): (s: seq<Octet>)
    requires |b| < 3
    ensures |s| == if b == [] then 0 else 4
  {
    if b == [] then []
    else if |b| == 1 then EncodeGroup(b[0], 0, 0)[..2] + [PAD, PAD]
    else EncodeGroup(b[0], b[1], 0)[..3] + [PAD]
  }

  function Encode(b: seq<Octet>): (s: seq<Octet>)
    ensures |s| == (|b| + 2) / 3 * 4
  {
    var k := |b| / 3 * 3;
    EncodeGroups(b[..k]) + EncodeTail(b[k..])
  }

  /** The padding at the end of an encoding: at most two characters. */
  function Pads(s: seq<Octet>): (k: nat)
    ensures k <= 2 && k <= |s|
  {
    var n := |s|;
    if n > 0 && s[n - 1] == PAD then (if n > 1 && s[n - 2] == PAD then 2 else 1) else 0
  }

  ghost predicate Acceptable(s: seq<Octet>) {
    |s| % 4 == 0 && forall i :: 0 <= i < |s| - Pads(s) ==> InAlphabet(s[i])
  }

  /** The octets of an acceptable encoding; each pad takes one octet off the last group. */
  function Decode(s: seq<Octet>): (b: seq<Octet>)
    requires |s| % 4 == 0
    ensures |b| == |s| / 4 * 3 - (if s == [] then 0 else Pads(s))
  {
    if s == [] then []
    else
      var n := |s|;
      DecodeGroups(s[..n - 4]) + DecodeTail(s[n - 4..])
  }

  function DecodeTail(t: seq<Octet>): (b: seq<Octet>)
    requires |t| == 4
    ensures |b| == 3 - Pads(t)
  {
    match Pads(t)
    case 0 => DecodeGroup(t[0], t[1], t[2], t[3])
    case 1 => DecodeGroup(t[0], t[1], t[2], Symbol(0))[..2]
    case _ => DecodeGroup(t[0], t[1], Symbol(0), Symbol(0))[..1]
  }

  // ---------- Round trips ----------

  lemma SplitThenJoin(a: Octet, b: Octet, c: Octet)
    ensures var (v0, v1, v2, v3) := Sextets(Group(a, b, c));
            && v0 < 64 && v1 < 64 && v2 < 64 && v3 < 64
            && Octets(Join(v0, v1, v2, v3)) == (a, b, c)
  {
  }

  lemma JoinThenSplit(v0: Octet, v1: Octet, v2: Octet, v3: Octet)
    requires v0 < 64 && v1 < 64 && v2 < 64 && v3 < 64
    ensures var (a, b, c) := Octets(Join(v0, v1, v2, v3));
            Sextets(Group(a, b, c)) == (v0, v1, v2, v3)
  {
  }

  lemma DecodeEncodeGroup(a: Octet, b: Octet, c: Octet)
    ensures var s := EncodeGroup(a, b, c);
            && DecodeGroup(s[0], s[1], s[2], s[3]) == [a, b, c]
            && forall i :: 0 <= i < 4 ==> InAlphabet(s[i])
  {
    hide Symbol, Value, InAlphabet, Octets, Join, Group, Sextets;
    SplitThenJoin(a, b, c);
    var (v0, v1, v2, v3) := Sextets(Group(a, b, c));
    ValueOfSymbol(v0);
    ValueOfSymbol(v1);
    ValueOfSymbol(v2);
    ValueOfSymbol(v3);
  }

  lemma EncodeDecodeGroup(c0: Octet, c1: Octet, c2: Octet, c3: Octet)
    requires InAlphabet(c0) && InAlphabet(c1) && InAlphabet(c2) && InAlphabet(c3)
    ensures var b := DecodeGroup(c0, c1, c2, c3);
            EncodeGroup(b[0], b[1], b[2]) == [c0, c1, c2, c3]
  {
    hide Symbol, Value, InAlphabet, Octets, Join, Group, Sextets;
    SymbolOfValue(c0);
    SymbolOfValue(c1);
    SymbolOfValue(c2);
    SymbolOfValue(c3);
    JoinThenSplit(Value(c0), Value(c1), Value(c2), Value(c3));
  }

  ghost predicate AllInAlphabet(s: seq<Octet>) {
    forall i :: 0 <= i < |s| ==> InAlphabet(s[i])
  }

  lemma EncodeGroupsSnoc(front: seq<Octet>, t: seq<Octet>)
    requires |front| % 3 == 0 && |t| == 3
    ensures EncodeGroups(front + t) == EncodeGroups(front) + EncodeGroup(t[0], t[1], t[2])
  {
    hide EncodeGroup;
    assert (front + t)[..|front|] == front;
  }

  lemma DecodeGroupsSnoc(front: seq<Octet>, q: seq<Octet>)
    requires |front| % 4 == 0 && |q| == 4
    ensures DecodeGroups(front + q) == DecodeGroups(front) + DecodeGroup(q[0], q[1], q[2], q[3])
  {
    hide DecodeGroup;
    assert (front + q)[..|front|] == front;
  }

  lemma EmptyGroups()
    ensures EncodeGroups([]) == [] && DecodeGroups([]) == []
  {
  }

  lemma {:induction false} DecodeEncodeGroups(b: seq<Octet>)
    requires |b| % 3 == 0
    ensures DecodeGroups(EncodeGroups(b)) == b && AllInAlphabet(EncodeGroups(b))
  {
    hide EncodeGroup, DecodeGroup, InAlphabet, EncodeGroups, DecodeGroups;
    EmptyGroups();
    if b != [] {
      var n := |b| - 3;
      var front, t := b[..n], b[n..];
      assert b == front + t;
      DecodeEncodeGroups(front);
      DecodeEncodeGroup(t[0], t[1], t[2]);
      EncodeGroupsSnoc(front, t);
      DecodeGroupsSnoc(EncodeGroups(front), EncodeGroup(t[0], t[1], t[2]));
      assert t == [t[0], t[1], t[2]];
      assert DecodeGroups(EncodeGroups(front + t)) == front + t;
    }
  }

  lemma {:induction false} EncodeDecodeGroups(s: seq<Octet>)
    requires |s| % 4 == 0 && AllInAlphabet(s)
    ensures EncodeGroups(DecodeGroups(s)) == s
  {
    hide EncodeGroup, DecodeGroup, InAlphabet, EncodeGroups, DecodeGroups;
    EmptyGroups();
    if s != [] {
      var n := |s| - 4;
      var front, q := s[..n], s[n..];
      assert s == front + q;
      EncodeDecodeGroups(front);
      EncodeDecodeGroup(q[0], q[1], q[2], q[3]);
      DecodeGroupsSnoc(front, q);
      EncodeGroupsSnoc(DecodeGroups(front), DecodeGroup(q[0], q[1], q[2], q[3]));
      assert q == [q[0], q[1], q[2], q[3]];
      assert EncodeGroups(DecodeGroups(front + q)) == front + q;
    }
  }

  /** Zero octets leave zero sextets behind them. */
  lemma ZeroFill(a: Octet, b: Octet)
    ensures Sextets(Group(a, b, 0)).3 == 0 && Sextets(Group(a, 0, 0)).2 == 0
  {
  }

  lemma AlphabetHasNoPad(c: Octet)
    ensures InAlphabet(c) ==> c != PAD
  {
  }

  lemma DecodeEncodeTail(b: seq<Octet>)
    requires 0 < |b| < 3
    ensures var t := EncodeTail(b);
            Pads(t) == 3 - |b| && DecodeTail(t) == b && TailOk(t)
  {
    hide Symbol, Sextets, Group, DecodeGroup, InAlphabet;
    var c := if |b| == 1 then 0 else b[1];
    ZeroFill(b[0], c);
    DecodeEncodeGroup(b[0], c, 0);
    var s := EncodeGroup(b[0], c, 0);
    AlphabetHasNoPad(s[0]);
    AlphabetHasNoPad(s[1]);
    AlphabetHasNoPad(s[2]);
    assert s[3] == Symbol(0) && (|b| == 1 ==> s[2] == Symbol(0));
    assert DecodeGroup(s[0], s[1], s[2], s[3])[..2] == [b[0], c];
    assert DecodeGroup(s[0], s[1], s[2], s[3])[..1] == [b[0]];
  }

  lemma PadsOfLast(front: seq<Octet>, t: seq<Octet>)
    requires |t| == 4
    ensures Pads(front + t) == Pads(t)
  {
  }

  /** Before its padding, the last group has only alphabet characters. */
  ghost predicate TailOk(t: seq<Octet>) {
    forall i :: 0 <= i < |t| - Pads(t) ==> InAlphabet(t[i])
  }

  lemma DecodeParts(front: seq<Octet>, t: seq<Octet>)
    requires |front| % 4 == 0 && |t| == 4
    ensures Decode(front + t) == DecodeGroups(front) + DecodeTail(t)
  {
    hide DecodeTail, DecodeGroups;
    var s, n := front + t, |front|;
    assert s[..n] == front && s[n..] == t;
  }

  lemma AcceptableParts(front: seq<Octet>, t: seq<Octet>)
    requires |front| % 4 == 0 && |t| == 4
    ensures Acceptable(front + t) <==> AllInAlphabet(front) && TailOk(t)
  {
    hide InAlphabet, Pads;
    var s, n := front + t, |front|;
    PadsOfLast(front, t);
    if Acceptable(s) {
      forall i | 0 <= i < n ensures InAlphabet(front[i]) {
        assert front[i] == s[i];
      }
      forall i | 0 <= i < 4 - Pads(t) ensures InAlphabet(t[i]) {
        assert t[i] == s[n + i];
      }
    }
    if AllInAlphabet(front) && TailOk(t) {
      forall i | 0 <= i < |s| - Pads(s) ensures InAlphabet(s[i]) {
        assert s[i] == if i < n then front[i] else t[i - n];
      }
    }
  }

  /** A last group without padding is a group like any other. */
  lemma DecodeWhole(s: seq<Octet>)
    requires |s| % 4 == 0 && AllInAlphabet(s)
    ensures Acceptable(s) && Decode(s) == DecodeGroups(s)
  {
    hide DecodeGroups, InAlphabet, Decode, Pads;
    if s == [] {
      EmptyGroups();
      NothingDecoded();
    } else {
      var n := |s| - 4;
      assert s == s[..n] + s[n..];
      AlphabetHasNoPad(s[n + 3]);
      DecodeWholeParts(s[..n], s[n..]);
    }
  }

  lemma DecodeWholeParts(front: seq<Octet>, t: seq<Octet>)
    requires |front| % 4 == 0 && |t| == 4 && t[3] != PAD
    ensures Decode(front + t) == DecodeGroups(front + t)
  {
    hide DecodeGroup, DecodeGroups, DecodeTail, Decode;
    DecodeParts(front, t);
    WholeTail(t);
    DecodeGroupsSnoc(front, t);
  }

  lemma NothingDecoded()
    ensures Decode([]) == []
  {
  }

  lemma WholeTail(t: seq<Octet>)
    requires |t| == 4 && t[3] != PAD
    ensures DecodeTail(t) == DecodeGroup(t[0], t[1], t[2], t[3])
  {
    hide DecodeGroup;
  }

  /** Decoding an encoding succeeds and gives back the octets. */
  lemma DecodeEncode(b: seq<Octet>)
    ensures Acceptable(Encode(b)) && Decode(Encode(b)) == b
  {
    hide EncodeGroups, DecodeGroups, InAlphabet, EncodeTail, DecodeTail, Decode, Acceptable;
    var k := |b| / 3 * 3;
    assert b == b[..k] + b[k..];
    DecodeEncodeGroups(b[..k]);
    if b[k..] == [] {
      EmptyTail();
      assert Encode(b) == EncodeGroups(b[..k]);
      DecodeWhole(Encode(b));
    } else {
      DecodeEncodeTail(b[k..]);
      DecodeParts(EncodeGroups(b[..k]), EncodeTail(b[k..]));
      AcceptableParts(EncodeGroups(b[..k]), EncodeTail(b[k..]));
    }
  }

  lemma EmptyTail()
    ensures EncodeTail([]) == []
  {
  }

  /** The bits of the last character before the padding that no octet uses are zero. */
  ghost predicate Canonical(s: seq<Octet>) {
    && (Pads(s) == 1 && |s| >= 4 ==> Value(s[|s| - 2]) & 3 == 0)
    && (Pads(s) == 2 && |s| >= 4 ==> Value(s[|s| - 3]) & 15 == 0)
  }

  /** Two octets keep all but the last two bits of three sextets, one octet all but four of two. */
  lemma UnusedBits(v0: Octet, v1: Octet, v2: Octet)
    requires v0 < 64 && v1 < 64 && v2 < 64
    ensures var (a, b, c) := Octets(Join(v0, v1, v2, 0));
            Sextets(Group(a, b, 0)) == (v0, v1, v2 & 60, 0)
    ensures var (a, b, c) := Octets(Join(v0, v1, 0, 0));
            Sextets(Group(a, 0, 0)) == (v0, v1 & 48, 0, 0)
    ensures v2 & 60 < 64 && v1 & 48 < 64 && (v2 & 60 == v2 <==> v2 & 3 == 0) && (v1 & 48 == v1 <==> v1 & 15 == 0)
  {
  }

  lemma SymbolInjective(v: Octet, c: Octet)
    requires v < 64 && InAlphabet(c)
    ensures Symbol(v) == c <==> v == Value(c)
  {
    hide Symbol, Value, InAlphabet;
    ValueOfSymbol(v);
    SymbolOfValue(c);
  }

  lemma EncodeDecodeOnePad(t: seq<Octet>)
    requires |t| == 4 && Pads(t) == 1 && TailOk(t)
    ensures EncodeTail(DecodeTail(t)) == t <==> Value(t[2]) & 3 == 0
  {
    hide Symbol, Value, InAlphabet, Octets, Join, Group, Sextets;
    ValueOfSymbol(0);
    SymbolOfValue(t[0]);
    SymbolOfValue(t[1]);
    SymbolOfValue(t[2]);
    UnusedBits(Value(t[0]), Value(t[1]), Value(t[2]));
    SymbolInjective(Value(t[2]) & 60, t[2]);
    assert EncodeTail(DecodeTail(t)) == [t[0], t[1], Symbol(Value(t[2]) & 60), PAD];
  }

  lemma EncodeDecodeTwoPads(t: seq<Octet>)
    requires |t| == 4 && Pads(t) == 2 && TailOk(t)
    ensures EncodeTail(DecodeTail(t)) == t <==> Value(t[1]) & 15 == 0
  {
    hide Symbol, Value, InAlphabet, Octets, Join, Group, Sextets;
    ValueOfSymbol(0);
    SymbolOfValue(t[0]);
    SymbolOfValue(t[1]);
    UnusedBits(Value(t[0]), Value(t[1]), 0);
    SymbolInjective(Value(t[1]) & 48, t[1]);
    assert EncodeTail(DecodeTail(t)) == [t[0], Symbol(Value(t[1]) & 48), PAD, PAD];
  }

  lemma EncodeDecodeTail(t: seq<Octet>)
    requires |t| == 4 && Pads(t) > 0 && TailOk(t)
    ensures EncodeTail(DecodeTail(t)) == t <==> Canonical(t)
  {
    hide EncodeTail, DecodeTail, Value, InAlphabet;
    if Pads(t) == 1 {
      EncodeDecodeOnePad(t);
    } else {
      EncodeDecodeTwoPads(t);
    }
  }

  /** Encoding what an accepted string decodes to gives the string back exactly when it is canonical. */
  lemma EncodeDecode(s: seq<Octet>)
    requires Acceptable(s)
    ensures Encode(Decode(s)) == s <==> Canonical(s)
  {
    if Pads(s) == 0 {
      hide EncodeGroups, DecodeGroups, InAlphabet, EncodeTail, Decode;
      DecodeWhole(s);
      EncodeDecodeGroups(s);
      EmptyTail();
      var b := DecodeGroups(s);
      assert b[..|b|] == b && b[|b|..] == [];
    } else {
      hide EncodeGroups, DecodeGroups, InAlphabet, EncodeTail, DecodeTail, Decode, Value;
      var n := |s| - 4;
      var front, t := s[..n], s[n..];
      assert s == front + t;
      PadsOfLast(front, t);
      DecodeParts(front, t);
      AcceptableParts(front, t);
      EncodeDecodeGroups(front);
      EncodeDecodeTail(t);
      var b, k := Decode(s), |DecodeGroups(front)|;
      assert k == |b| / 3 * 3;
      assert b[..k] == DecodeGroups(front) && b[k..] == DecodeTail(t);
      assert Encode(b) == front + EncodeTail(DecodeTail(t));
      assert Canonical(s) <==> Canonical(t);
    }
  }

  // ---------- Padding, in numbers ----------

  /** '=' is 61. */
  lemma PaddingIsEquals(b: seq<Octet>)
    ensures var s := Encode(b);
            && (|b| % 3 == 1 ==> s[|s| - 2] == 61 && s[|s| - 1] == 61)
            && (|b| % 3 == 2 ==> s[|s| - 1] == 61)
  {
    hide EncodeGroups, EncodeTail;
    var k := |b| / 3 * 3;
    var front, t := EncodeGroups(b[..k]), EncodeTail(b[k..]);
    TailIsPadded(b[k..]);
    if |b| % 3 != 0 { assert (front + t)[|front| + 2] == t[2] && (front + t)[|front| + 3] == t[3]; }
  }

  lemma TailIsPadded(b: seq<Octet>)
    requires |b| < 3
    ensures |b| == 1 ==> EncodeTail(b)[2] == 61 && EncodeTail(b)[3] == 61
    ensures |b| == 2 ==> EncodeTail(b)[3] == 61
  {
    hide EncodeGroup;
  }

  /** A text of whole groups is acceptable exactly when it is made of alphabet characters, apart from
      at most two '=' at its end. */
  lemma AcceptableMeans(s: seq<Octet>)
    ensures Acceptable(s) <==>
            |s| % 4 == 0 && exists k :: 0 <= k <= 2 && k <= |s| && EndsWithEquals(s, k)
  {
    hide InAlphabet;
    if Acceptable(s) {
      assert EndsWithEquals(s, Pads(s));
    }
    if |s| % 4 == 0 && exists k :: 0 <= k <= 2 && k <= |s| && EndsWithEquals(s, k) {
      var k :| 0 <= k <= 2 && k <= |s| && EndsWithEquals(s, k);
      assert Pads(s) >= k;
    }
  }

  ghost predicate EndsWithEquals(s: seq<Octet>, k: nat)
    requires k <= |s|
  {
    && (forall i :: 0 <= i < |s| - k ==> InAlphabet(s[i]))
    && (forall i :: |s| - k <= i < |s| ==> s[i] == 61)
  }

  /** "f", "fo" and "foo" give "Zg==", "Zm8=" and "Zm9v": section 10 of RFC 4648. */
  lemma TestVectors()
    ensures Encode([102]) == [90, 103, 61, 61]
    ensures Encode([102, 111]) == [90, 109, 56, 61]
    ensures Encode([102, 111, 111]) == [90, 109, 57, 118]
  {
    hide EncodeGroups;
    EmptyGroups();
    EmptyTail();
    var one: seq<Octet>, two: seq<Octet>, three: seq<Octet> := [102], [102, 111], [102, 111, 111];
    EncodeGroupsSnoc([], three);
    assert [] + three == three;
    assert one[..0] == [] && one[0..] == one && two[..0] == [] && two[0..] == two && three[..3] == three && three[3..] == [];
  }
}
