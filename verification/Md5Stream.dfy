/**
 MD5 over a byte stream, as values: absorbing input in pieces, padding, and the one-shot
 definition of sections 3.1 to 3.5 of RFC 1321 that the pieces must add up to.

 None of this depends on how a block is hashed, so the block function is a parameter.
 */
module Md5Stream {
  import opened Common
  import opened Md5Schedule
  import opened Md5Core

  type BlockFunction = (State, Block) -> State

  // ---------- One-shot MD5 ----------

  const IV: State := Regs(0x67452301, 0xefcdab89, 0x98badcfe, 0x10325476)

  /** Folds the block function over a whole number of blocks. */
  function FoldBlocks(f: BlockFunction, h: State, m: seq<Byte>): State
    requires |m| % 64 == 0
    decreases |m|
  {
    if |m| == 0 then h else FoldBlocks(f, f(h, m[..64]), m[64..])
  }

  function Zeros(n: nat): (z: seq<Byte>)
    ensures |z| == n && forall i :: 0 <= i < n ==> z[i] == 0
  {
    seq(n, i => 0)
  }

  /** The least number of zero bytes after 0x80 that leaves room for eight more bytes. */
  function ZeroCount(n: nat): (k: nat)
    ensures k < 64 && (n + 1 + k) % 64 == 56
  {
    (55 - n) % 64
  }

  /** The low 64 bits of the length in bits, as two words, low-order word first. */
  function LengthField(bits: nat): (f: seq<Byte>)
    ensures |f| == 8
  {
    EncodeWords([bits % TWO_32, bits / TWO_32 % TWO_32])
  }

  function Pad(m: seq<Byte>): (p: seq<Byte>)
    ensures |p| % 64 == 0 && m <= p
  {
    hide LengthField, ZeroCount;
    PaddedLength(|m|);
    m + [0x80] + Zeros(ZeroCount(|m|)) + LengthField(8 * |m|)
  }

  lemma PaddedLength(n: nat)
    ensures (n + 1 + ZeroCount(n) + 8) % 64 == 0
  {
    hide ZeroCount;
    var q := n + 1 + ZeroCount(n);
    assert q == 64 * (q / 64) + 56;
    assert q + 8 == 64 * (q / 64 + 1);
  }

  function DigestOf(h: State): (d: seq<Byte>)
    ensures |d| == 16
  {
    EncodeWords([h.a, h.b, h.c, h.d])
  }

  function Md5With(f: BlockFunction, m: seq<Byte>): (d: seq<Byte>)
    ensures |d| == 16
  {
    DigestOf(FoldBlocks(f, IV, Pad(m)))
  }

  /** The MD5 digest of m. */
  function Md5Sum(m: seq<Byte>): (d: seq<Byte>)
    ensures |d| == 16
  {
    Md5With(Compress, m)
  }

  /** Four bytes as a number, least significant byte first. */
  function LittleEndian(b0: int, b1: int, b2: int, b3: int): int {
    b0 + 0x100 * b1 + 0x1_0000 * b2 + 0x100_0000 * b3
  }

  /** The length field is the number of bits modulo 2^64, least significant byte first. */
  lemma LengthFieldMeans(bits: nat)
    ensures var f := LengthField(bits);
            LittleEndian(f[0], f[1], f[2], f[3]) + 0x1_0000_0000 * LittleEndian(f[4], f[5], f[6], f[7])
            == bits % 0x1_0000_0000_0000_0000
  {
    hide EncodeWords;
    var lo, hi := bits % TWO_32, bits / TWO_32 % TWO_32;
    WordsToBytes([lo, hi], 0);
    WordsToBytes([lo, hi], 1);
    QuotientOf(bits, 0x1_0000_0000_0000_0000, bits / TWO_32 / TWO_32, lo + TWO_32 * hi);
  }

  /** Words are written one after the other, least significant byte first. */
  lemma WordsToBytes(x: seq<Word>, j: nat)
    requires j < |x|
    ensures var b := EncodeWords(x);
            LittleEndian(b[4 * j], b[4 * j + 1], b[4 * j + 2], b[4 * j + 3]) == x[j]
  {
    hide EncodeWords, DecodeWords;
    DecodeEncodeWords(x);
    DecodeWordsAt(EncodeWords(x), j);
  }

  /** The digest is the four registers in order, least significant byte first. */
  lemma DigestMeans(h: State, j: nat)
    requires j < 4
    ensures var d := DigestOf(h);
            LittleEndian(d[4 * j], d[4 * j + 1], d[4 * j + 2], d[4 * j + 3])
            == if j == 0 then h.a else if j == 1 then h.b else if j == 2 then h.c else h.d
  {
    hide EncodeWords;
    WordsToBytes([h.a, h.b, h.c, h.d], j);
  }

  lemma EncodeWordsInjective(x: seq<Word>, y: seq<Word>)
    requires EncodeWords(x) == EncodeWords(y)
    ensures x == y
  {
    DecodeEncodeWords(x);
    DecodeEncodeWords(y);
  }

  /** The length field holds the low 64 bits of the length. */
  lemma LengthFieldDetermines(a: nat, b: nat)
    requires LengthField(a) == LengthField(b)
    ensures a % TWO_32 == b % TWO_32 && a / TWO_32 % TWO_32 == b / TWO_32 % TWO_32
  {
    hide EncodeWords;
    var x, y := [a % TWO_32, a / TWO_32 % TWO_32], [b % TWO_32, b / TWO_32 % TWO_32];
    EncodeWordsInjective(x, y);
    assert x[0] == y[0] && x[1] == y[1];
  }

  /** Lengths that differ by less than a block and agree in that field are equal. */
  lemma CloseLengthsAgree(m: nat, n: nat)
    requires -64 < m - n < 64 && 8 * m % TWO_32 == 8 * n % TWO_32
    ensures m == n
  {
    var q, r := 8 * m / TWO_32, 8 * n / TWO_32;
    assert TWO_32 * (q - r) == 8 * (m - n);
    assert q == r;
  }

  /** Two messages that pad to the same blocks are the same message, at any length. */
  lemma PadInjective(m: seq<Byte>, n: seq<Byte>)
    requires Pad(m) == Pad(n)
    ensures m == n
  {
    hide LengthField, ZeroCount;
    var p, k := Pad(m), |Pad(m)| - 8;
    assert p[k..] == LengthField(8 * |m|) && p[k..] == LengthField(8 * |n|);
    LengthFieldDetermines(8 * |m|, 8 * |n|);
    assert |m| + 1 + ZeroCount(|m|) == |n| + 1 + ZeroCount(|n|);
    CloseLengthsAgree(|m|, |n|);
    assert m == p[..|m|] && n == p[..|n|];
  }

  // ---------- Absorbing a stream piece by piece ----------

  /** A running hash: registers, number of bytes fed, and the bytes not yet hashed. */
  datatype Context = Context(h: State, total: nat, carry: seq<Byte>) {
    ghost predicate Valid() {
      |carry| == total % 64
    }
  }

  const Fresh := Context(IV, 0, [])

  function WholeBlocks(n: nat): (k: nat)
    ensures k % 64 == 0 && k <= n < k + 64
  {
    n - n % 64
  }

  function Absorb(f: BlockFunction, c: Context, input: seq<Byte>): Context {
    var all := c.carry + input;
    var k := WholeBlocks(|all|);
    Context(FoldBlocks(f, c.h, all[..k]), c.total + |input|, all[k..])
  }

  function AbsorbAll(f: BlockFunction, c: Context, chunks: seq<seq<Byte>>): Context
    decreases |chunks|
  {
    if chunks == [] then c else AbsorbAll(f, Absorb(f, c, chunks[0]), chunks[1..])
  }

  function Flatten(chunks: seq<seq<Byte>>): seq<Byte> {
    if chunks == [] then [] else chunks[0] + Flatten(chunks[1..])
  }

  lemma {:induction false} FoldAppend(f: BlockFunction, h: State, a: seq<Byte>, b: seq<Byte>)
    requires |a| % 64 == 0 && |b| % 64 == 0
    ensures FoldBlocks(f, h, a + b) == FoldBlocks(f, FoldBlocks(f, h, a), b)
    decreases |a|
  {
    if |a| == 0 {
      assert a + b == b;
    } else {
      assert (a + b)[..64] == a[..64] && (a + b)[64..] == a[64..] + b;
      FoldAppend(f, f(h, a[..64]), a[64..], b);
    }
  }

  lemma FoldNothing(f: BlockFunction, h: State)
    ensures FoldBlocks(f, h, []) == h
  {
  }

  lemma FoldOneMore(f: BlockFunction, h: State, m: seq<Byte>, k: nat)
    requires k % 64 == 0 && k + 64 <= |m|
    ensures FoldBlocks(f, h, m[..k + 64]) == f(FoldBlocks(f, h, m[..k]), m[k..k + 64])
  {
    var last := m[k..k + 64];
    assert m[..k + 64] == m[..k] + last;
    FoldAppend(f, h, m[..k], last);
    assert last[..64] == last && last[64..] == [];
  }

  lemma FoldNextBlock(f: BlockFunction, h: State, m: seq<Byte>, from: nat, i: nat)
    requires from <= i && (i - from) % 64 == 0 && i + 64 <= |m|
    ensures (i + 64 - from) % 64 == 0
    ensures FoldBlocks(f, h, m[from..i + 64]) == f(FoldBlocks(f, h, m[from..i]), m[i..i + 64])
  {
    var done, k := m[from..], i - from;
    assert done[..k] == m[from..i] && done[..k + 64] == m[from..i + 64] && done[k..k + 64] == m[i..i + 64];
    FoldOneMore(f, h, done, k);
  }

  lemma AbsorbKeepsValid(f: BlockFunction, c: Context, input: seq<Byte>)
    requires c.Valid()
    ensures Absorb(f, c, input).Valid()
  {
  }

  lemma WholeBlocksOfSum(n: nat, m: nat)
    ensures WholeBlocks(n) + WholeBlocks(n - WholeBlocks(n) + m) == WholeBlocks(n + m)
  {
    hide WholeBlocks;
    var j, w := WholeBlocks(n), WholeBlocks(n + m);
    var k := WholeBlocks(n - j + m);
    assert j == 64 * (j / 64) && k == 64 * (k / 64) && w == 64 * (w / 64);
  }

  /** Cutting ca + b into blocks can be done after cutting ca. */
  lemma BlocksOfParts(ca: seq<Byte>, b: seq<Byte>)
    ensures var j := WholeBlocks(|ca|);
            var rest := ca[j..] + b;
            var k := WholeBlocks(|rest|);
            && j + k == WholeBlocks(|ca + b|)
            && (ca + b)[..j + k] == ca[..j] + rest[..k]
            && (ca + b)[j + k..] == rest[k..]
  {
    hide WholeBlocks;
    var j := WholeBlocks(|ca|);
    var rest := ca[j..] + b;
    WholeBlocksOfSum(|ca|, |b|);
    assert ca + b == ca[..j] + rest;
  }

  /** Two inputs in a row are their concatenation. */
  lemma AbsorbAppend(f: BlockFunction, c: Context, a: seq<Byte>, b: seq<Byte>)
    ensures Absorb(f, Absorb(f, c, a), b) == Absorb(f, c, a + b)
  {
    var ca := c.carry + a;
    var j := WholeBlocks(|ca|);
    var rest := ca[j..] + b;
    BlocksOfParts(ca, b);
    assert c.carry + (a + b) == ca + b;
    FoldAppend(f, c.h, ca[..j], rest[..WholeBlocks(|rest|)]);
  }

  /** However a message is cut into chunks, the context is that of the whole message. */
  lemma {:induction false} Chunking(f: BlockFunction, c: Context, chunks: seq<seq<Byte>>)
    requires c.Valid()
    ensures AbsorbAll(f, c, chunks) == Absorb(f, c, Flatten(chunks))
    decreases |chunks|
  {
    if chunks == [] {
      assert c.carry + [] == c.carry;
      assert c.carry[..0] == [] && c.carry[0..] == c.carry;
    } else {
      AbsorbKeepsValid(f, c, chunks[0]);
      Chunking(f, Absorb(f, c, chunks[0]), chunks[1..]);
      AbsorbAppend(f, c, chunks[0], Flatten(chunks[1..]));
    }
  }

  lemma AbsorbNothing(f: BlockFunction, c: Context)
    ensures AbsorbAll(f, c, []) == c
  {
  }

  lemma AbsorbedTotal(f: BlockFunction, chunks: seq<seq<Byte>>)
    ensures AbsorbAll(f, Fresh, chunks).total == |Flatten(chunks)|
  {
    Chunking(f, Fresh, chunks);
  }

  lemma {:induction false} AbsorbAllOneMore(f: BlockFunction, c: Context, chunks: seq<seq<Byte>>)
    requires chunks != []
    ensures AbsorbAll(f, c, chunks) == Absorb(f, AbsorbAll(f, c, chunks[..|chunks| - 1]), chunks[|chunks| - 1])
    decreases |chunks|
  {
    if |chunks| > 1 {
      AbsorbAllOneMore(f, Absorb(f, c, chunks[0]), chunks[1..]);
      assert chunks[1..][..|chunks| - 2] == chunks[..|chunks| - 1][1..];
    }
  }

  /** The way update does it: fill the carry to a block, then hash straight from the input. */
  lemma AbsorbByBlocks(f: BlockFunction, c: Context, input: seq<Byte>, i: nat)
    requires |c.carry| < 64 && 64 - |c.carry| <= i <= |input| < i + 64 && (|c.carry| + i) % 64 == 0
    ensures var first := 64 - |c.carry|;
            Absorb(f, c, input) ==
            Context(FoldBlocks(f, f(c.h, c.carry + input[..first]), input[first..i]), c.total + |input|, input[i..])
  {
    var first := 64 - |c.carry|;
    var all, block, rest := c.carry + input, c.carry + input[..first], input[first..i];
    assert WholeBlocks(|all|) == |c.carry| + i;
    assert all[..|c.carry| + i] == block + rest && all[|c.carry| + i..] == input[i..];
    FoldAppend(f, c.h, block, rest);
    FoldOneMore(f, c.h, block, 0);
    assert block[..64] == block && block[0..64] == block && block[..0] == [];
  }

  lemma AbsorbShort(f: BlockFunction, c: Context, input: seq<Byte>)
    requires |c.carry| + |input| < 64
    ensures Absorb(f, c, input) == Context(c.h, c.total + |input|, c.carry + input)
  {
    var all := c.carry + input;
    assert WholeBlocks(|all|) == 0;
    assert all[..0] == [] && all[0..] == all;
  }

  // ---------- Finishing ----------

  function PadLength(c: Context): (n: nat)
    requires c.Valid()
    ensures 1 <= n <= 64
  {
    var index := c.total % 64;
    if index < 56 then 56 - index else 120 - index
  }

  function Padding(n: nat): (p: seq<Byte>)
    requires n >= 1
    ensures |p| == n
  {
    [0x80] + Zeros(n - 1)
  }

  /** The context after the padding and the length field have been absorbed. */
  function Finish(f: BlockFunction, c: Context): Context
    requires c.Valid()
  {
    Absorb(f, Absorb(f, c, Padding(PadLength(c))), LengthField(8 * c.total))
  }

  lemma PaddingIsPad(c: Context, m: seq<Byte>)
    requires c.Valid() && c.total == |m|
    ensures m + (Padding(PadLength(c)) + LengthField(8 * c.total)) == Pad(m)
  {
    assert PadLength(c) == 1 + ZeroCount(|m|);
  }

  lemma AreWholeBlocks(n: nat)
    requires n % 64 == 0
    ensures WholeBlocks(n) == n
  {
  }

  lemma AbsorbWholeBlocks(f: BlockFunction, c: Context, m: seq<Byte>)
    requires c.carry == [] && |m| % 64 == 0
    ensures Absorb(f, c, m) == Context(FoldBlocks(f, c.h, m), c.total + |m|, [])
  {
    hide FoldBlocks, WholeBlocks;
    AreWholeBlocks(|m|);
    assert c.carry + m == m;
    assert m[..|m|] == m && m[|m|..] == [];
  }

  /** Finishing a stream gives the one-shot digest of what was fed, with nothing left over. */
  lemma FinishIsMd5(f: BlockFunction, m: seq<Byte>)
    ensures var c := Absorb(f, Fresh, m);
            && c.Valid() && Finish(f, c).carry == []
            && DigestOf(Finish(f, c).h) == Md5With(f, m)
  {
    var c := Absorb(f, Fresh, m);
    AbsorbKeepsValid(f, Fresh, m);
    var pad, len := Padding(PadLength(c)), LengthField(8 * c.total);
    AbsorbAppend(f, c, pad, len);
    AbsorbAppend(f, Fresh, m, pad + len);
    PaddingIsPad(c, m);
    AbsorbWholeBlocks(f, Fresh, Pad(m));
  }

  /** The digest of any sequence of updates is that of the concatenated message. */
  lemma DigestIgnoresChunking(f: BlockFunction, chunks: seq<seq<Byte>>)
    ensures AbsorbAll(f, Fresh, chunks).Valid()
    ensures DigestOf(Finish(f, AbsorbAll(f, Fresh, chunks)).h) == Md5With(f, Flatten(chunks))
  {
    Chunking(f, Fresh, chunks);
    FinishIsMd5(f, Flatten(chunks));
  }
}
