/**
 The codec of lib/modp_b64.cc, loop by loop and store by store, and its wrappers in
 lib/base64.cpp.  Buffers are arrays, so that every access is also proved in bounds.
 */
module Base64Codec {
  import opened Base64Tables
  import opened Base64

  const INT_MAX := 0x7fff_ffff

  // ---------- What the lookups compute ----------

  lemma EncodeLookups(t1: Octet, t2: Octet, t3: Octet)
    ensures [E0(t1), E1(((t1 & 0x03) << 4) | ((t2 >> 4) & 0x0f)), E1(((t2 & 0x0f) << 2) | ((t3 >> 6) & 0x03)), E2(t3)]
            == EncodeGroup(t1, t2, t3)
  {
    hide E0, E1, E2, Symbol, Sextets, Group;
    SextetsByMask(t1, t2, t3);
    E0Means(t1);
    E1Means(((t1 & 0x03) << 4) | ((t2 >> 4) & 0x0f));
    E1Means(((t2 & 0x0f) << 2) | ((t3 >> 6) & 0x03));
    E1Means(t3);
  }

  lemma EncodeTwoLookups(t1: Octet, t2: Octet)
    ensures [E0(t1), E1(((t1 & 0x03) << 4) | ((t2 >> 4) & 0x0f)), E2((t2 & 0x0f) << 2), PAD] == EncodeTail([t1, t2])
  {
    hide E0, E1, E2, Symbol, Sextets, Group;
    SextetsByMask(t1, t2, 0);
    E0Means(t1);
    E1Means(((t1 & 0x03) << 4) | ((t2 >> 4) & 0x0f));
    E1Means((t2 & 0x0f) << 2);
  }

  lemma EncodeOneLookups(t1: Octet)
    ensures [E0(t1), E1((t1 & 0x03) << 4), PAD, PAD] == EncodeTail([t1])
  {
    hide E0, E1, E2, Symbol, Sextets, Group;
    SextetsByMask(t1, 0, 0);
    E0Means(t1);
    E1Means((t1 & 0x03) << 4);
  }

  lemma SextetsByMask(t1: Octet, t2: Octet, t3: Octet)
    ensures Sextets(Group(t1, t2, t3)) ==
            (t1 >> 2, (((t1 & 0x03) << 4) | ((t2 >> 4) & 0x0f)) & 63, (((t2 & 0x0f) << 2) | ((t3 >> 6) & 0x03)) & 63, t3 & 63)
    ensures Sextets(Group(t1, t2, 0)).0 == t1 >> 2
    ensures Sextets(Group(t1, t2, 0)).1 == (((t1 & 0x03) << 4) | ((t2 >> 4) & 0x0f)) & 63
    ensures Sextets(Group(t1, t2, 0)).2 == ((t2 & 0x0f) << 2) & 63
    ensures Sextets(Group(t1, 0, 0)).0 == t1 >> 2 && Sextets(Group(t1, 0, 0)).1 == ((t1 & 0x03) << 4) & 63
  {
  }

  /** The bytes of a word in memory, on a little-endian machine. */
  function Bytes(x: Quad): (Octet, Octet, Octet, Octet) {
    ((x & 255) as Octet, ((x >> 8) & 255) as Octet, ((x >> 16) & 255) as Octet, ((x >> 24) & 255) as Octet)
  }

  /** Some character of the chunk is outside the alphabet. */
  predicate IsBad(x: Quad) {
    x >= BADCHAR
  }

  function Or4(x0: Quad, x1: Quad, x2: Quad, x3: Quad): Quad {
    x0 | x1 | x2 | x3
  }

  lemma GoodEntries(v0: Octet, v1: Octet, v2: Octet, v3: Octet)
    requires v0 < 64 && v1 < 64 && v2 < 64 && v3 < 64
    ensures var x := Or4(D0Entry(v0 as Quad), D1Entry(v1 as Quad), D2Entry(v2 as Quad), D3Entry(v3 as Quad));
            var (o0, o1, o2) := Octets(Join(v0, v1, v2, v3));
            x < BADCHAR && Bytes(x) == (o0, o1, o2, 0)
  {
  }

  lemma BadEntry(x0: Quad, x1: Quad, x2: Quad, x3: Quad)
    requires x0 == BADCHAR || x1 == BADCHAR || x2 == BADCHAR || x3 == BADCHAR
    ensures Or4(x0, x1, x2, x3) >= BADCHAR
  {
  }

  lemma ValueIsSmall(c: Octet)
    ensures InAlphabet(c) ==> Value(c) < 64
  {
  }

  lemma GoodChunk(c0: Octet, c1: Octet, c2: Octet, c3: Octet)
    requires Value(c0) < 64 && Value(c1) < 64 && Value(c2) < 64 && Value(c3) < 64
    ensures var x := Or4(D0Entry(Value(c0) as Quad), D1Entry(Value(c1) as Quad), D2Entry(Value(c2) as Quad), D3Entry(Value(c3) as Quad));
            x < BADCHAR && [Bytes(x).0, Bytes(x).1, Bytes(x).2] == DecodeGroup(c0, c1, c2, c3)
  {
    hide D0Entry, D1Entry, D2Entry, D3Entry, Value, Or4, Bytes, Octets, Join;
    GoodEntries(Value(c0), Value(c1), Value(c2), Value(c3));
  }

  /** A chunk of four lookups: bad exactly if a character is, and otherwise the decoded group in its low bytes. */
  lemma ChunkLookup(c0: Octet, c1: Octet, c2: Octet, c3: Octet)
    ensures var x := Or4(D0(c0), D1(c1), D2(c2), D3(c3));
            && (!IsBad(x) <==> InAlphabet(c0) && InAlphabet(c1) && InAlphabet(c2) && InAlphabet(c3))
            && (!IsBad(x) ==> [Bytes(x).0, Bytes(x).1, Bytes(x).2] == DecodeGroup(c0, c1, c2, c3))
  {
    hide D0, D1, D2, D3, D0Entry, D1Entry, D2Entry, D3Entry, InAlphabet, Value, Or4, Bytes, DecodeGroup;
    D0Means(c0);
    D1Means(c1);
    D2Means(c2);
    D3Means(c3);
    if InAlphabet(c0) && InAlphabet(c1) && InAlphabet(c2) && InAlphabet(c3) {
      ValueIsSmall(c0);
      ValueIsSmall(c1);
      ValueIsSmall(c2);
      ValueIsSmall(c3);
      GoodChunk(c0, c1, c2, c3);
    } else {
      BadEntry(D0(c0), D1(c1), D2(c2), D3(c3));
    }
  }

  /** What the switch after the loop looks up; a missing lookup counts as zero. */
  function TailWord(t: seq<Octet>): Quad
    requires |t| == 4
  {
    match Pads(t)
    case 0 => Or4(D0(t[0]), D1(t[1]), D2(t[2]), D3(t[3]))
    case 1 => Or4(D0(t[0]), D1(t[1]), D2(t[2]), 0)
    case _ => Or4(D0(t[0]), D1(t[1]), 0, 0)
  }

  lemma ZeroEntries()
    ensures InAlphabet(Symbol(0)) && D2(Symbol(0)) == 0 && D3(Symbol(0)) == 0
  {
  }

  lemma TailLookup(t: seq<Octet>)
    requires |t| == 4
    ensures var x := TailWord(t);
            && (!IsBad(x) <==> TailOk(t))
            && (!IsBad(x) ==> DecodeTail(t) == [Bytes(x).0, Bytes(x).1, Bytes(x).2][..3 - Pads(t)])
  {
    hide D0, D1, D2, D3, InAlphabet, Symbol, Or4, Bytes, DecodeGroup, IsBad;
    ZeroEntries();
    var k := Pads(t);
    var c2, c3 := if k == 2 then Symbol(0) else t[2], if k >= 1 then Symbol(0) else t[3];
    ChunkLookup(t[0], t[1], c2, c3);
  }

  // ---------- The codec ----------

  /** Consecutive stores through an advancing pointer, or one store of a whole word. */
  method Store(dest: array<Octet>, p: nat, bytes: seq<Octet>)
    requires p + |bytes| <= dest.Length
    modifies dest
    ensures dest[..p + |bytes|] == old(dest[..p]) + bytes
  {
    for k := 0 to |bytes|
      invariant dest[..p + k] == old(dest[..p]) + bytes[..k]
    {
      dest[p + k] := bytes[k];
    }
  }

  /** One store of a whole word, of which the next store keeps the first three bytes. */
  method StoreWord(dest: array<Octet>, p: nat, x: Quad)
    requires p + 4 <= dest.Length
    modifies dest
    ensures dest[..p + 3] == old(dest[..p]) + [Bytes(x).0, Bytes(x).1, Bytes(x).2]
  {
    hide Bytes;
    ghost var front := dest[..p];
    Store(dest, p, [Bytes(x).0, Bytes(x).1, Bytes(x).2, Bytes(x).3]);
    FirstThree(front, Bytes(x).0, Bytes(x).1, Bytes(x).2, Bytes(x).3);
    assert dest[..p + 3] == dest[..p + 4][..p + 3];
  }

  lemma FirstThree(front: seq<Octet>, a: Octet, b: Octet, c: Octet, d: Octet)
    ensures (front + [a, b, c, d])[..|front| + 3] == front + [a, b, c]
  {
  }

  /** The four characters of a group. */
  method StoreGroup(dest: array<Octet>, p: nat, t1: Octet, t2: Octet, t3: Octet)
    requires p + 4 <= dest.Length
    modifies dest
    ensures dest[..p + 4] == old(dest[..p]) + EncodeGroup(t1, t2, t3)
  {
    hide E0, E1, E2, EncodeGroup;
    EncodeLookups(t1, t2, t3);
    Store(dest, p, [E0(t1), E1(((t1 & 0x03) << 4) | ((t2 >> 4) & 0x0f)),
                    E1(((t2 & 0x0f) << 2) | ((t3 >> 6) & 0x03)), E2(t3)]);
  }

  /** modp_b64_encode */
  method ModpEncode(dest: array<Octet>, str: array<Octet>, len: nat) returns (n: nat)
    requires dest != str && len <= str.Length && (len + 2) / 3 * 4 + 1 <= dest.Length
    modifies dest
    ensures n == (len + 2) / 3 * 4 && dest[..n] == Encode(str[..len]) && dest[n] == 0
  {
    hide EncodeGroups, EncodeTail, Encode;
    ghost var groups := (len + 2) / 3;
    var i, p := EncodeLoop(dest, str, len, groups);
    EncodeParts(str[..len], i);
    assert str[..len][..i] == str[..i] && str[..len][i..] == str[i..len];
    n := EncodeLast(dest, p, str, i, len);
  }

  /** The loop of modp_b64_encode: whole groups. */
  method EncodeLoop(dest: array<Octet>, str: array<Octet>, len: nat, ghost groups: nat) returns (i: nat, p: nat)
    requires dest != str && len <= str.Length && len <= 3 * groups < len + 3 && 4 * groups < dest.Length
    modifies dest
    ensures i % 3 == 0 && i <= len < i + 3
    ensures p == if i == len then 4 * groups else 4 * groups - 4
    ensures p <= dest.Length && dest[..p] == EncodeGroups(str[..i])
  {
    hide EncodeGroup, EncodeGroups;
    EmptyGroups();
    ghost var k := 0;
    i, p := 0, 0;
    while i < len - 2
      invariant i == 3 * k && p == 4 * k && i <= len && p <= 4 * groups
      invariant dest[..p] == EncodeGroups(str[..i])
    {
      var t1, t2, t3 := str[i], str[i + 1], str[i + 2];
      EncodeGroupsSnoc(str[..i], [t1, t2, t3]);
      assert str[..i + 3] == str[..i] + [t1, t2, t3];
      StoreGroup(dest, p, t1, t2, t3);
      i, p, k := i + 3, p + 4, k + 1;
    }
  }

  /** The switch after the loop of modp_b64_encode, and the terminating NUL. */
  method EncodeLast(dest: array<Octet>, at: nat, str: array<Octet>, i: nat, len: nat) returns (p: nat)
    requires dest != str && i <= len <= str.Length && len < i + 3 && at + (if i == len then 0 else 4) < dest.Length
    modifies dest
    ensures p == at + (if i == len then 0 else 4) && dest[p] == 0
    ensures dest[..p] == old(dest[..at]) + (if i == len then [] else EncodeTail(str[i..len]))
  {
    hide E0, E1, E2, EncodeTail;
    p := at;
    if len - i == 0 {
    } else if len - i == 1 {
      var t1 := str[i];
      EncodeOneLookups(t1);
      assert str[i..len] == [t1];
      Store(dest, p, [E0(t1), E1((t1 & 0x03) << 4), PAD, PAD]);
      p := p + 4;
    } else {
      var t1, t2 := str[i], str[i + 1];
      EncodeTwoLookups(t1, t2);
      assert str[i..len] == [t1, t2];
      Store(dest, p, [E0(t1), E1(((t1 & 0x03) << 4) | ((t2 >> 4) & 0x0f)), E2((t2 & 0x0f) << 2), PAD]);
      p := p + 4;
    }
    ghost var text := dest[..p];
    dest[p] := 0;
    assert dest[..p] == text;
  }

  lemma EncodeParts(b: seq<Octet>, i: nat)
    requires i % 3 == 0 && i <= |b| < i + 3
    ensures Encode(b) == EncodeGroups(b[..i]) + (if i == |b| then [] else EncodeTail(b[i..]))
  {
    hide EncodeGroups;
    EmptyTail();
    assert |b| / 3 * 3 == i;
  }

  /** The loop of modp_b64_decode: each store writes four bytes, the next one starts after three. */
  method DecodeChunks(dest: array<Octet>, src: array<Octet>, chunks: nat) returns (ok: bool)
    requires dest != src && 4 * chunks <= src.Length && 3 * chunks + 1 <= dest.Length
    modifies dest
    ensures ok <==> AllInAlphabet(src[..4 * chunks])
    ensures ok ==> dest[..3 * chunks] == DecodeGroups(src[..4 * chunks])
  {
    hide D0, D1, D2, D3, InAlphabet, Or4, Bytes, DecodeGroup, DecodeGroups, IsBad;
    EmptyGroups();
    for i := 0 to chunks
      invariant AllInAlphabet(src[..4 * i])
      invariant dest[..3 * i] == DecodeGroups(src[..4 * i])
    {
      var c0, c1, c2, c3 := src[4 * i], src[4 * i + 1], src[4 * i + 2], src[4 * i + 3];
      var x := Or4(D0(c0), D1(c1), D2(c2), D3(c3));
      ChunkLookup(c0, c1, c2, c3);
      if IsBad(x) {
        ghost var s := src[..4 * chunks];
        assert s[4 * i] == c0 && s[4 * i + 1] == c1 && s[4 * i + 2] == c2 && s[4 * i + 3] == c3;
        return false;
      }
      DecodeGroupsSnoc(src[..4 * i], [c0, c1, c2, c3]);
      assert src[..4 * i + 4] == src[..4 * i] + [c0, c1, c2, c3];
      StoreWord(dest, 3 * i, x);
    }
    return true;
  }

  /** The switch after the loop; its case 1 cannot occur, as padding is at most two characters. */
  method DecodeLast(dest: array<Octet>, src: array<Octet>, at: nat, p: nat, leftover: nat) returns (n: int)
    requires dest != src && at + 4 <= src.Length && p + 3 <= dest.Length
    requires leftover == (4 - Pads(src[at..at + 4])) % 4
    modifies dest
    ensures n == -1 <==> !TailOk(src[at..at + 4])
    ensures n != -1 ==> n == p + 3 - Pads(src[at..at + 4]) && dest[..n] == old(dest[..p]) + DecodeTail(src[at..at + 4])
  {
    hide D0, D1, D2, D3, TailOk, Or4, Bytes, DecodeTail, Pads, IsBad;
    ghost var t := src[at..at + 4];
    TailLookup(t);
    var c0, c1, c2, c3 := src[at], src[at + 1], src[at + 2], src[at + 3];
    n := -1;
    var x;
    if leftover == 0 {
      x := Or4(D0(c0), D1(c1), D2(c2), D3(c3));
      if !IsBad(x) {
        Store(dest, p, [Bytes(x).0, Bytes(x).1, Bytes(x).2]);
        n := p + 3;
      }
    } else {
      if leftover == 2 {
        x := Or4(D0(c0), D1(c1), 0, 0);
        Store(dest, p, [Bytes(x).0]);
      } else {
        assert leftover == 3;
        x := Or4(D0(c0), D1(c1), D2(c2), 0);
        Store(dest, p, [Bytes(x).0, Bytes(x).1]);
      }
      if !IsBad(x) {
        n := p + 6 * leftover / 8;
      }
    }
  }

  /** modp_b64_decode after the padding has been counted off: len is the length without it. */
  method DecodeStripped(dest: array<Octet>, src: array<Octet>, length: nat, len: nat) returns (n: int)
    requires dest != src && 4 <= length <= src.Length && length % 4 == 0 && length / 4 * 3 + 2 <= dest.Length
    requires len == length - Pads(src[..length])
    modifies dest
    ensures n == -1 <==> !Acceptable(src[..length])
    ensures n != -1 ==> 0 <= n <= dest.Length && dest[..n] == Decode(src[..length])
  {
    hide AllInAlphabet, TailOk, DecodeGroups, DecodeTail, Acceptable, Decode, Pads;
    ghost var s := src[..length];
    var leftover := len % 4;
    var chunks := if leftover == 0 then len / 4 - 1 else len / 4;
    ChunkCount(length, Pads(s));
    ghost var front, t := src[..4 * chunks], src[4 * chunks..length];
    assert s == front + t;
    DecodeParts(front, t);
    AcceptableParts(front, t);
    PadsOfLast(front, t);
    var ok := DecodeChunks(dest, src, chunks);
    if !ok {
      return -1;
    }
    n := DecodeLast(dest, src, 4 * chunks, 3 * chunks, leftover);
  }

  /** modp_b64_decode, the little-endian one; -1 is the error result. */
  method ModpDecode(dest: array<Octet>, src: array<Octet>, length: nat) returns (n: int)
    requires dest != src && length <= src.Length && length / 4 * 3 + 2 <= dest.Length
    modifies dest
    ensures n == -1 <==> !Acceptable(src[..length])
    ensures n != -1 ==> 0 <= n <= dest.Length && dest[..n] == Decode(src[..length])
  {
    hide Acceptable, Decode;
    ghost var s := src[..length];
    if length == 0 {
      assert s == [];
      EmptyText();
      return 0;
    }
    if length < 4 || length % 4 != 0 {
      NotAcceptable(s);
      return -1;
    }
    var len := length;
    if src[len - 1] == PAD {
      len := len - 1;
      if src[len - 1] == PAD {
        len := len - 1;
      }
    }
    n := DecodeStripped(dest, src, length, len);
  }

  lemma ChunkCount(length: nat, pads: nat)
    requires 4 <= length && length % 4 == 0 && pads <= 2
    ensures var leftover := (length - pads) % 4;
            var chunks := if leftover == 0 then (length - pads) / 4 - 1 else (length - pads) / 4;
            4 * chunks + 4 == length && leftover == (4 - pads) % 4 && 3 * chunks + 5 == length / 4 * 3 + 2
  {
    var k := length / 4;
    assert length == 4 * k;
  }

  lemma EmptyText()
    ensures Acceptable([]) && Decode([]) == []
  {
  }

  lemma NotAcceptable(s: seq<Octet>)
    ensures |s| % 4 != 0 ==> !Acceptable(s)
  {
  }

  // ---------- lib/base64.cpp ----------

  method ToArray(s: seq<Octet>) returns (a: array<Octet>)
    ensures fresh(a) && a[..] == s
  {
    a := new Octet[|s|](i requires 0 <= i < |s| => s[i]);
  }

  /** The sizes must fit an int, which is what the lengths are passed as. */
  method Base64Encode(input: seq<Octet>, output: seq<Octet>) returns (ok: bool, result: seq<Octet>)
    requires |input| <= INT_MAX && (|input| + 2) / 3 * 4 <= INT_MAX
    ensures ok && result == Encode(input) && |result| == (|input| + 2) / 3 * 4
  {
    hide Encode;
    var temp := new Octet[(|input| + 2) / 3 * 4 + 1](_ => 0);
    var data := ToArray(input);
    var size := ModpEncode(temp, data, |input|);
    assert data[..|input|] == input;
    if size < 0 {
      return false, output;
    }
    return true, temp[..size];
  }

  /** On failure the caller's string is left alone. */
  method Base64Decode(input: seq<Octet>, output: seq<Octet>) returns (ok: bool, result: seq<Octet>)
    requires |input| <= INT_MAX
    ensures ok <==> Acceptable(input)
    ensures ok ==> result == Decode(input)
    ensures !ok ==> result == output
  {
    hide Decode, Acceptable;
    var temp := new Octet[|input| / 4 * 3 + 2](_ => 0);
    var data := ToArray(input);
    var size := ModpDecode(temp, data, |input|);
    assert data[..|input|] == input;
    if size < 0 {
      return false, output;
    }
    return true, temp[..size];
  }

  /** Encoding and decoding through the buffers gives back every string whose sizes fit an int. */
  method RoundTrip(x: seq<Octet>) returns (ok: bool, y: seq<Octet>)
    requires |x| <= INT_MAX && (|x| + 2) / 3 * 4 <= INT_MAX
    ensures ok && y == x
  {
    hide Encode, Decode, Acceptable;
    var text;
    ok, text := Base64Encode(x, []);
    DecodeEncode(x);
    ok, y := Base64Decode(text, []);
  }
}
