/**
 The streaming MD5 object of lib/md5.cpp: a 64-byte carry buffer, a 64-bit bit counter held
 as two 32-bit words, four chaining words, and padding fed back through update.
 */
module Md5 {
  import opened Common
  import opened Md5Schedule
  import opened Md5Core
  import opened Md5Stream

  // ---------- The bit counter ----------

  /** count[0] and count[1] after n bytes: the bit length modulo 2^64, low word first. */
  function CountWords(n: nat): (Word, Word) {
    (8 * n % TWO_32, 8 * n / TWO_32 % TWO_32)
  }

  /** The two words together are the bit length modulo 2^64. */
  lemma CountIsBitLength(n: nat)
    ensures CountWords(n).0 + TWO_32 * CountWords(n).1 == 8 * n % 0x1_0000_0000_0000_0000
  {
    var q, r := 8 * n / TWO_32, 8 * n % TWO_32;
    QuotientOf(8 * n, 0x1_0000_0000_0000_0000, q / TWO_32, r + TWO_32 * (q % TWO_32));
  }

  lemma CountIndex(n: nat)
    ensures CountWords(n).0 / 8 % 64 == n % 64
  {
    var lo, q := 8 * n % TWO_32, 8 * n / TWO_32;
    assert lo == 8 * (n - 0x2000_0000 * q);
    assert lo / 8 == n - 0x2000_0000 * q;
    DropMultiple(n, 0x80_0000 * q);
  }

  lemma DropMultiple(n: int, k: int)
    ensures (n - 64 * k) % 64 == n % 64
  {
  }

  lemma CarryOfSum(x: nat, y: nat, lo: Word)
    requires lo == (x % TWO_32 + y % TWO_32) % TWO_32
    ensures var carry := if lo < y % TWO_32 then 1 else 0;
            (x + y) % TWO_32 == lo && (x + y) / TWO_32 == x / TWO_32 + y / TWO_32 + carry
  {
    var carry := if lo < y % TWO_32 then 1 else 0;
    assert x % TWO_32 + y % TWO_32 == lo + TWO_32 * carry;
    QuotientOf(x + y, TWO_32, x / TWO_32 + y / TWO_32 + carry, lo);
  }

  lemma SumWraps(a: nat, b: nat, c: nat)
    ensures ((a % TWO_32 + b) % TWO_32 + c) % TWO_32 == (a + b + c) % TWO_32
  {
    AddThenWrap(a, b);
    AddThenWrap(a + b, c);
  }

  /** Adding (length << 3) with carry, then (length >> 29), counts length more bytes. */
  lemma CountStep(n: nat, length: nat, lo: Word)
    requires lo == (CountWords(n).0 + 8 * length % TWO_32) % TWO_32
    ensures var carry := if lo < 8 * length % TWO_32 then 1 else 0;
            CountWords(n + length) == (lo, ((CountWords(n).1 + carry) % TWO_32 + length / 0x2000_0000) % TWO_32)
  {
    CarryOfSum(8 * n, 8 * length, lo);
    assert 8 * length / TWO_32 == length / 0x2000_0000;
    SumWraps(8 * n / TWO_32, if lo < 8 * length % TWO_32 then 1 else 0, length / 0x2000_0000);
  }

  /** The same, as the statements of update do it. */
  lemma CountStepByWords(n: nat, length: nat, shifted: Word, lo: Word)
    requires length < TWO_32 && shifted == 8 * length % TWO_32 && lo == Add(CountWords(n).0, shifted)
    ensures var hi := CountWords(n).1;
            CountWords(n + length) == (lo, Add(if lo < shifted then Add(hi, 1) else hi, length / 0x2000_0000))
  {
    hide CountWords;
    CountStep(n, length, lo);
    WrapOnce(CountWords(n).1);
  }

  // ---------- The 32-bit limit ----------

  /** Where the last block that update could hash would start: whole blocks follow firstpart. */
  function LastStart(firstpart: nat, length: nat): (last: nat)
    requires firstpart <= length
    ensures firstpart <= last <= length < last + 64 && (last - firstpart) % 64 == 0
  {
    length - (length - firstpart) % 64
  }

  /** With index bytes in the carry buffer, i + blocksize does not wrap for any start i. */
  predicate Manageable(index: nat, length: nat)
    requires index < 64
  {
    length < TWO_32 && (length >= 64 - index ==> LastStart(64 - index, length) < TWO_32 - 64)
  }

  /** Where no start wraps, the 32-bit guard says what it is meant to say. */
  lemma GuardMeans(firstpart: nat, i: nat, length: nat)
    requires firstpart <= i <= length < TWO_32 && (i - firstpart) % 64 == 0
    requires LastStart(firstpart, length) < TWO_32 - 64
    ensures (i + 64) % TWO_32 <= length <==> i + 64 <= length
  {
    hide LastStart;
    var last := LastStart(firstpart, length);
    assert i - firstpart == 64 * ((i - firstpart) / 64) && last - firstpart == 64 * ((last - firstpart) / 64);
    assert i <= last;
  }

  /** Up to 2^32 - 65 every length is manageable. */
  lemma ShortIsManageable(index: nat, length: nat)
    requires index < 64 && length <= TWO_32 - 65
    ensures Manageable(index, length)
  {
  }

  // ---------- The object ----------

  class Md5 {
    var finalized: bool
    const buffer: array<Byte>
    const count: array<Word>
    const state: array<Word>
    const digest: array<Byte>
    /** The number of bytes fed since count was last zero. */
    ghost var total: nat

    ghost predicate Valid()
      reads this, count
    {
      Shape() && (count[0], count[1]) == CountWords(total)
    }

    ghost function Registers(): State
      requires state.Length == 4
      reads state
    {
      Regs(state[0], state[1], state[2], state[3])
    }

    /** The object as a value: what the streaming theory calls a context. */
    ghost function View(): (c: Context)
      requires Valid()
      reads this, buffer, count, state
      ensures c.Valid()
    {
      Context(Registers(), total, buffer[..total % 64])
    }

    ghost function Repr(): set<object>
    {
      {this, buffer, count, state, digest}
    }

    ghost predicate Shape() {
      && buffer.Length == 64 && count.Length == 2 && state.Length == 4 && digest.Length == 16
      && buffer != digest && count != state
    }

    constructor ()
      ensures Valid() && !finalized && View() == Fresh
      ensures fresh(Repr())
    {
      buffer := new Byte[64];
      count := new Word[2];
      state := new Word[4];
      digest := new Byte[16];
      new;
      Init();
    }

    /** Hashes a text at once; its length is passed as a 32-bit value, which cuts it. */
    constructor FromText(text: array<Byte>)
      requires Manageable(0, text.Length % TWO_32)
      ensures Valid() && finalized
      ensures digest[..] == Md5Sum(text[..text.Length % TWO_32])
      ensures fresh(Repr())
    {
      buffer := new Byte[64];
      count := new Word[2];
      state := new Word[4];
      digest := new Byte[16];
      new;
      hide Manageable, Md5Sum;
      Init();
      HashText(text);
    }

    method Init()
      requires Shape()
      modifies this`finalized, this`total, count, state
      ensures Valid() && !finalized && View() == Fresh
    {
      finalized := false;
      count[0], count[1] := 0, 0;
      state[0], state[1], state[2], state[3] := 0x67452301, 0xefcdab89, 0x98badcfe, 0x10325476;
      total := 0;
    }

    method HashText(text: array<Byte>)
      requires Valid() && !finalized && View() == Fresh && text != buffer
      requires Manageable(0, text.Length % TWO_32)
      modifies this`total, this`finalized, buffer, count, state, digest
      ensures Valid() && finalized && digest[..] == Md5Sum(old(text[..text.Length % TWO_32]))
    {
      hide Compress, Absorb, FoldBlocks, EncodeWords, Manageable, Finish;
      ghost var data := text[..text.Length % TWO_32];
      Update(text, text.Length % TWO_32);
      Finalize();
      FinishIsMd5(Compress, data);
    }

    /** Reads len bytes from input at off as little-endian words. */
    static method Decode(output: array<Word>, input: array<Byte>, off: nat, len: nat)
      requires len % 4 == 0 && off + len <= input.Length && len / 4 == output.Length
      modifies output
      ensures output[..] == DecodeWords(input[off..off + len])
    {
      hide DecodeWords, DecodeWord;
      ghost var bytes := input[off..off + len];
      var i, j := 0, 0;
      while j < len
        invariant j == 4 * i <= len
        invariant output[..i] == DecodeWords(bytes)[..i]
      {
        DecodeWordsAt(bytes, i);
        output[i] := DecodeWord(input[off + j], input[off + j + 1], input[off + j + 2], input[off + j + 3]);
        i, j := i + 1, j + 4;
      }
      assert output[..i] == output[..] && DecodeWords(bytes)[..i] == DecodeWords(bytes);
    }

    /** Writes words as little-endian bytes. */
    static method Encode(output: array<Byte>, input: seq<Word>)
      requires output.Length == 4 * |input|
      modifies output
      ensures output[..] == EncodeWords(input)
    {
      hide EncodeWords;
      EncodeNoWords();
      var i, j := 0, 0;
      while j < output.Length
        invariant j == 4 * i <= output.Length
        invariant output[..j] == EncodeWords(input[..i])
      {
        output[j] := input[i] % 0x100;
        output[j + 1] := input[i] / 0x100 % 0x100;
        output[j + 2] := input[i] / 0x1_0000 % 0x100;
        output[j + 3] := input[i] / 0x100_0000 % 0x100;
        assert output[j..j + 4] == EncodeWord(input[i]);
        assert output[..j + 4] == output[..j] + output[j..j + 4];
        assert input[..i + 1] == input[..i] + [input[i]];
        EncodeWordsSnoc(input[..i], input[i]);
        i, j := i + 1, j + 4;
      }
      assert input[..i] == input;
    }

    /** Hashes the 64 bytes of block at off into the state. */
    method Transform(block: array<Byte>, off: nat)
      requires state.Length == 4 && off + 64 <= block.Length
      modifies state
      ensures Registers() == Compress(old(Registers()), block[off..off + 64])
    {
      var x := new Word[16](_ => 0);
      Decode(x, block, off, 64);
      var a, b, c, d := Rounds(Mix, state[0], state[1], state[2], state[3], x[..]);
      state[0] := Add(state[0], a);
      state[1] := Add(state[1], b);
      state[2] := Add(state[2], c);
      state[3] := Add(state[3], d);
    }

    /** memcpy(&target[at], &source[from], n) */
    static method Copy(target: array<Byte>, at: nat, source: array<Byte>, from: nat, n: nat)
      requires target != source && at + n <= target.Length && from + n <= source.Length
      modifies target
      ensures target[..at + n] == old(target[..at]) + source[from..from + n]
    {
      for k := 0 to n
        invariant target[..at + k] == old(target[..at]) + source[from..from + k]
      {
        target[at + k] := source[from + k];
      }
    }

    /** Counts length more bytes in count, as 32-bit arithmetic does. */
    method CountUp(length: nat)
      requires Valid() && length < TWO_32
      modifies this`total, count
      ensures Valid() && total == old(total) + length
    {
      hide CountWords, Add;
      var shifted: Word := 8 * length % TWO_32;
      CountStepByWords(total, length, shifted, Add(count[0], shifted));
      count[0] := Add(count[0], shifted);
      if count[0] < shifted {
        count[1] := Add(count[1], 1);
      }
      count[1] := Add(count[1], length / 0x2000_0000);
      total := total + length;
    }

    /** The loop of update: hashes whole blocks of input from position from on. */
    method HashBlocks(input: array<Byte>, from: nat, length: nat) returns (i: nat)
      requires state.Length == 4 && from <= length <= input.Length && length < TWO_32
      requires LastStart(from, length) < TWO_32 - 64
      modifies state
      ensures from <= i <= length < i + 64 && (i - from) % 64 == 0
      ensures Registers() == FoldBlocks(Compress, old(Registers()), input[from..i])
    {
      hide Compress, FoldBlocks, LastStart;
      ghost var f, h, data := Compress, Registers(), input[..];
      i := from;
      assert data[from..i] == [];
      FoldNothing(f, h);
      while (i + 64) % TWO_32 <= length
        invariant from <= i <= length && (i - from) % 64 == 0
        invariant Registers() == FoldBlocks(f, h, data[from..i])
        decreases length - i
      {
        GuardMeans(from, i, length);
        Transform(input, i);
        assert data[i..i + 64] == input[i..i + 64];
        FoldNextBlock(f, h, data, from, i);
        i := i + 64;
      }
      GuardMeans(from, i, length);
      assert data[from..i] == input[from..i];
    }

    /** Fills the carry buffer to a block, then takes whole blocks of input. */
    method HashFilled(input: array<Byte>, index: nat, length: nat) returns (i: nat)
      requires Shape() && input != buffer && index < 64 && 64 - index <= length <= input.Length && Manageable(index, length)
      modifies buffer, state
      ensures 64 - index <= i <= length < i + 64 && (i - (64 - index)) % 64 == 0
      ensures Registers() ==
              FoldBlocks(Compress, Compress(old(Registers()), old(buffer[..index]) + input[..64 - index]), input[64 - index..i])
    {
      hide Compress, FoldBlocks, LastStart;
      var firstpart := 64 - index;
      ghost var block := buffer[..index] + input[..firstpart];
      Copy(buffer, index, input, 0, firstpart);
      assert buffer[0..64] == block;
      Transform(buffer, 0);
      i := HashBlocks(input, firstpart, length);
    }

    /** The part of update that hashes: what is left of the input from i on goes to buffer[next..]. */
    method HashInput(input: array<Byte>, index: nat, length: nat, ghost n: nat) returns (next: nat, i: nat)
      requires Shape() && input != buffer && index < 64 && length <= input.Length && Manageable(index, length)
      modifies buffer, state
      ensures next < 64 && i <= length < i + 64 - next
      ensures Absorb(Compress, Context(old(Registers()), n, old(buffer[..index])), input[..length])
           == Context(Registers(), n + length, buffer[..next] + input[i..length])
    {
      hide Compress, Absorb, FoldBlocks, LastStart;
      ghost var c, data := Context(Registers(), n, buffer[..index]), input[..length];
      var firstpart := 64 - index;
      if length >= firstpart {
        i := HashFilled(input, index, length);
        next := 0;
        assert data[..firstpart] == input[..firstpart];
        assert forall k :: firstpart <= k < i ==> data[k] == input[k];
        assert data[firstpart..i] == input[firstpart..i];
        assert data[i..] == buffer[..0] + input[i..length];
        DropMultiple(index + i, 1);
        AbsorbByBlocks(Compress, c, data, i);
      } else {
        next, i := index, 0;
        AbsorbShort(Compress, c, data);
      }
    }

    /** The limit on length keeps i + 64 below 2^32; WrapsExactlyIf shows that it is exact. */
    method Update(input: array<Byte>, length: nat)
      requires Valid() && length <= input.Length && Manageable(total % 64, length)
      requires input != buffer
      modifies this`total, buffer, count, state
      ensures Valid() && View() == Absorb(Compress, old(View()), input[..length])
    {
      hide Compress, Absorb, CountWords, LastStart;
      ghost var c, data := View(), input[..length];
      CountIndex(total);
      var index := count[0] / 8 % 64;
      CountUp(length);
      var next, i := HashInput(input, index, length, c.total);
      AbsorbKeepsValid(Compress, c, data);
      assert next + (length - i) == total % 64;
      Copy(buffer, next, input, i, length - i);
    }

    /** Pads, appends the length, stores the digest and wipes the context; once only. */
    method Finalize()
      requires Valid()
      modifies this`total, this`finalized, buffer, count, state, digest
      ensures Valid() && finalized
      ensures old(finalized) ==> View() == old(View()) && digest[..] == old(digest[..])
      ensures !old(finalized) ==>
                var end := Finish(Compress, old(View()));
                digest[..] == DigestOf(end.h) && View() == Context(end.h, 0, [])
    {
      hide Compress, Absorb, FoldBlocks, EncodeWords;
      if !finalized {
        ghost var c := View();
        var bits := new Byte[8];
        Encode(bits, [count[0], count[1]]);
        assert bits[..] == LengthField(8 * total);
        CountIndex(total);
        var index := count[0] / 8 % 64;
        var padLen := if index < 56 then 56 - index else 120 - index;
        var padding := new Byte[64](k => if k == 0 then 0x80 else 0);
        assert padding[..padLen] == Padding(PadLength(c));
        ShortIsManageable(total % 64, padLen);
        Update(padding, padLen);
        ShortIsManageable(total % 64, 8);
        Update(bits, 8);
        assert bits[..8] == bits[..];
        Encode(digest, [state[0], state[1], state[2], state[3]]);
        Wipe();
        finalized := true;
      }
    }

    /** The two memsets at the end of finalize. */
    method Wipe()
      requires Valid()
      modifies this`total, buffer, count
      ensures Valid() && total == 0 && forall k :: 0 <= k < 64 ==> buffer[k] == 0
    {
      for k := 0 to 64
        invariant forall j :: 0 <= j < k ==> buffer[j] == 0
      {
        buffer[k] := 0;
      }
      count[0], count[1] := 0, 0;
      total := 0;
    }

    /** The digest in lower-case hexadecimal, or nothing before finalize. */
    method HexDigest() returns (s: string)
      requires Valid()
      ensures s == if finalized then Hex(digest[..]) else ""
    {
      s := "";
      if finalized {
        for i := 0 to 16
          invariant s == Hex(digest[..i])
        {
          assert digest[..i + 1][..i] == digest[..i];
          s := s + [HexDigit(digest[i] / 16), HexDigit(digest[i] % 16)];
        }
        assert digest[..16] == digest[..];
      }
    }
  }

  // ---------- Hexadecimal ----------

  function HexDigit(n: nat): char
    requires n < 16
  {
    if n < 10 then '0' + n as char else 'a' + (n - 10) as char
  }

  function HexValue(c: char): nat {
    if '0' <= c <= '9' then (c - '0') as nat else if 'a' <= c <= 'f' then (c - 'a') as nat + 10 else 0
  }

  function Hex(b: seq<Byte>): string {
    if b == [] then "" else Hex(b[..|b| - 1]) + [HexDigit(b[|b| - 1] / 16), HexDigit(b[|b| - 1] % 16)]
  }

  lemma {:induction false} HexDetermines(b: seq<Byte>)
    ensures |Hex(b)| == 2 * |b| && forall i :: 0 <= i < |Hex(b)| ==> '0' <= Hex(b)[i] <= '9' || 'a' <= Hex(b)[i] <= 'f'
    ensures forall i :: 0 <= i < |b| ==> b[i] == 16 * HexValue(Hex(b)[2 * i]) + HexValue(Hex(b)[2 * i + 1])
  {
    if b != [] {
      HexDetermines(b[..|b| - 1]);
    }
  }

  // ---------- Whole runs ----------

  /**
   Feeding a message in chunks, in any way, and finalizing gives the RFC 1321 digest of the message.
   */
  method DigestOfChunks(chunks: seq<seq<Byte>>) returns (d: seq<Byte>)
    requires forall i :: 0 <= i < |chunks| ==> Manageable(|Flatten(chunks[..i])| % 64, |chunks[i]|)
    ensures d == Md5Sum(Flatten(chunks))
  {
    hide Compress, Absorb, AbsorbAll, Flatten, Manageable;
    AbsorbNothing(Compress, Fresh);
    var md5 := new Md5();
    for i := 0 to |chunks|
      invariant md5.Valid() && !md5.finalized && fresh(md5.Repr())
      invariant md5.View() == AbsorbAll(Compress, Fresh, chunks[..i])
    {
      var input := new Byte[|chunks[i]|](k requires 0 <= k < |chunks[i]| => chunks[i][k]);
      assert input[..|chunks[i]|] == chunks[i];
      AbsorbedTotal(Compress, chunks[..i]);
      md5.Update(input, |chunks[i]|);
      AbsorbAllOneMore(Compress, Fresh, chunks[..i + 1]);
      assert chunks[..i + 1][..i] == chunks[..i];
    }
    assert chunks[..|chunks|] == chunks;
    md5.Finalize();
    DigestIgnoresChunking(Compress, chunks);
    d := md5.digest[..];
  }

  /**
   The guard of the block loop, in 32-bit arithmetic, lets the loop run past the last block,
   and so past the input, exactly when the length is not manageable.
   */
  lemma WrapsExactlyIf(index: nat, length: nat)
    requires index < 64 && 64 - index <= length < TWO_32
    ensures (LastStart(64 - index, length) + 64) % TWO_32 <= length <==> !Manageable(index, length)
    ensures index == 0 && length == TWO_32 - 64 ==> !Manageable(index, length)
  {
  }
}
