/**
 The words of MD5: the auxiliary functions, the block function, and the little-endian
 coding between words and bytes (sections 2 and 3.4 of RFC 1321).

 A 32-bit word is an integer below 2^32.  Sums are reduced modulo 2^32, and shifts are
 multiplications and divisions by powers of two, which is how C defines them for unsigned
 operands.  The auxiliary functions go through bit-vectors; the bitwise or of a rotation is
 defined on binary digits.
 */
module Md5Core {
  import opened Common
  import opened Md5Schedule

  const TWO_32 := 0x1_0000_0000

  type State = Regs<Word>

  // ---------- Auxiliary functions and the round operation ----------

  function FBits(x: bv32, y: bv32, z: bv32): bv32 { (x & y) | (!x & z) }

  function GBits(x: bv32, y: bv32, z: bv32): bv32 { (x & z) | (y & !z) }

  function HBits(x: bv32, y: bv32, z: bv32): bv32 { x ^ y ^ z }

  function IBits(x: bv32, y: bv32, z: bv32): bv32 { y ^ (x | !z) }

  /** Bit by bit, F is "if x then y else z". */
  lemma FByBit(x: bv32, y: bv32, z: bv32)
    ensures FBits(x, y, z) & x == y & x
    ensures FBits(x, y, z) & !x == z & !x
  {
  }

  /** G is "if z then x else y". */
  lemma GByBit(x: bv32, y: bv32, z: bv32)
    ensures GBits(x, y, z) & z == x & z
    ensures GBits(x, y, z) & !z == y & !z
  {
  }

  /** H is the parity of x, y and z. */
  lemma HByBit(x: bv32, y: bv32, z: bv32)
    ensures HBits(x, y, z) & x == !(y ^ z) & x
    ensures HBits(x, y, z) & !x == (y ^ z) & !x
  {
  }

  /** I is "if z then x differs from y else not y". */
  lemma IByBit(x: bv32, y: bv32, z: bv32)
    ensures IBits(x, y, z) & z == (x ^ y) & z
    ensures IBits(x, y, z) & !z == !y & !z
  {
  }

  function F(x: Word, y: Word, z: Word): Word { FBits(x as bv32, y as bv32, z as bv32) as Word }

  function G(x: Word, y: Word, z: Word): Word { GBits(x as bv32, y as bv32, z as bv32) as Word }

  function H(x: Word, y: Word, z: Word): Word { HBits(x as bv32, y as bv32, z as bv32) as Word }

  function I(x: Word, y: Word, z: Word): Word { IBits(x as bv32, y as bv32, z as bv32) as Word }

  function Aux(k: Round, x: Word, y: Word, z: Word): Word {
    match k
    case FF => F(x, y, z)
    case GG => G(x, y, z)
    case HH => H(x, y, z)
    case II => I(x, y, z)
  }

  /** The bits in which f is not x where c has a 1 and y where it has a 0. */
  function Wrong(f: bv32, c: bv32, x: bv32, y: bv32): bv32 {
    ((f ^ x) & c) | ((f ^ y) & !c)
  }

  /** The bits in which f is not the parity of p, q and r. */
  function WrongParity(f: bv32, p: bv32, q: bv32, r: bv32): bv32 {
    ((f ^ !(q ^ r)) & p) | ((f ^ q ^ r) & !p)
  }

  /** The bits in which f is not p xor q where r has a 1, and not q where it has a 0. */
  function WrongMixture(f: bv32, p: bv32, q: bv32, r: bv32): bv32 {
    ((f ^ p ^ q) & r) | ((f ^ !q) & !r)
  }

  lemma FChooses(x: bv32, y: bv32, z: bv32)
    ensures Wrong(FBits(x, y, z), x, y, z) == 0
  {
  }

  /** FF chooses by b: c where b has a 1 and d where it has a 0. */
  lemma FFFunction(b: Word, c: Word, d: Word)
    ensures Wrong(Aux(FF, b, c, d) as bv32, b as bv32, c as bv32, d as bv32) == 0
  {
    hide Wrong, FBits;
    FChooses(b as bv32, c as bv32, d as bv32);
    WordOfBits(FBits(b as bv32, c as bv32, d as bv32));
  }

  lemma GChooses(x: bv32, y: bv32, z: bv32)
    ensures Wrong(GBits(x, y, z), z, x, y) == 0
  {
  }

  /** GG chooses by d: b where d has a 1 and c where it has a 0. */
  lemma GGFunction(b: Word, c: Word, d: Word)
    ensures Wrong(Aux(GG, b, c, d) as bv32, d as bv32, b as bv32, c as bv32) == 0
  {
    hide Wrong, GBits;
    GChooses(b as bv32, c as bv32, d as bv32);
    WordOfBits(GBits(b as bv32, c as bv32, d as bv32));
  }

  lemma HChooses(x: bv32, y: bv32, z: bv32)
    ensures WrongParity(HBits(x, y, z), x, y, z) == 0
  {
  }

  /** HH takes the parity. */
  lemma HHFunction(b: Word, c: Word, d: Word)
    ensures WrongParity(Aux(HH, b, c, d) as bv32, b as bv32, c as bv32, d as bv32) == 0
  {
    hide WrongParity, HBits;
    HChooses(b as bv32, c as bv32, d as bv32);
    WordOfBits(HBits(b as bv32, c as bv32, d as bv32));
  }

  lemma IChooses(x: bv32, y: bv32, z: bv32)
    ensures WrongMixture(IBits(x, y, z), x, y, z) == 0
  {
  }

  /** II is b xor c where d has a 1 and not c where it has a 0. */
  lemma IIFunction(b: Word, c: Word, d: Word)
    ensures WrongMixture(Aux(II, b, c, d) as bv32, b as bv32, c as bv32, d as bv32) == 0
  {
    hide WrongMixture, IBits;
    IChooses(b as bv32, c as bv32, d as bv32);
    WordOfBits(IBits(b as bv32, c as bv32, d as bv32));
  }

  lemma WordOfBits(x: bv32)
    ensures (x as Word) as bv32 == x
  {
  }

  function Pow2(n: nat): (p: int)
    ensures p > 0
  {
    if n == 0 then 1 else 2 * Pow2(n - 1)
  }

  /** Bitwise or of two numbers, binary digit by binary digit. */
  function Or(x: nat, y: nat): nat {
    if x == 0 && y == 0 then 0
    else 2 * Or(x / 2, y / 2) + (if x % 2 == 1 || y % 2 == 1 then 1 else 0)
  }

  lemma {:induction false} OrZero(x: nat)
    ensures Or(x, 0) == x && Or(0, x) == x
  {
    if x > 0 { OrZero(x / 2); }
  }

  /** Joining bits below bit n to bits from bit n on is adding them. */
  lemma {:induction false} OrOfDisjoint(n: nat, high: nat, low: nat)
    requires low < Pow2(n)
    ensures Or(Pow2(n) * high, low) == Pow2(n) * high + low
    ensures Or(low, Pow2(n) * high) == Pow2(n) * high + low
    decreases n
  {
    hide Or;
    if n == 0 {
      OrZero(high);
    } else {
      var p := Pow2(n - 1) * high;
      assert Pow2(n) * high == 2 * p by { Distribute(2, Pow2(n - 1), high, 0); }
      OrOfDisjoint(n - 1, high, low / 2);
      OrStep(p, low);
    }
  }

  lemma OrStep(p: nat, low: nat)
    ensures Or(2 * p, low) == 2 * Or(p, low / 2) + low % 2
    ensures Or(low, 2 * p) == 2 * Or(low / 2, p) + low % 2
  {
  }

  /** x shifted left by n, joined with x shifted right by 32 - n. */
  function RotateLeft(x: Word, n: Amount): (y: Word)
    ensures y == x * Pow2(n) % TWO_32 + x / Pow2(32 - n)
  {
    Split32(n);
    RotationFits(x, Pow2(n), Pow2(32 - n));
    OrOfDisjoint(n, x % Pow2(32 - n), x / Pow2(32 - n));
    Or(x * Pow2(n) % TWO_32, x / Pow2(32 - n))
  }

  function RotateRight(x: Word, n: Amount): Word {
    RotateLeft(x, 32 - n)
  }

  lemma {:induction false} Pow2Add(m: nat, n: nat)
    ensures Pow2(m + n) == Pow2(m) * Pow2(n)
  {
    if m > 0 {
      Pow2Add(m - 1, n);
    }
  }

  lemma Split32(n: Amount)
    ensures Pow2(n) * Pow2(32 - n) == TWO_32
  {
    assert Pow2(4) == 16;
    Pow2Add(4, 4);
    Pow2Add(8, 8);
    Pow2Add(16, 16);
    Pow2Add(n, 32 - n);
  }

  lemma MulMonotone(p: int, k: int, d: int)
    requires p > 0
    ensures k <= d ==> p * k <= p * d
  {
  }

  lemma QuotientOf(y: int, p: int, k: int, r: int)
    requires p > 0 && 0 <= r < p && y == p * k + r
    ensures y / p == k && y % p == r
  {
    var d := y / p - k;
    assert p * d == r - y % p by {
      assert p * (y / p) + y % p == y;
    }
    MulMonotone(p, 1, d);
    MulMonotone(p, d, -1);
  }

  lemma Distribute(p: int, q: int, hi: int, lo: int)
    ensures (q * hi + lo) * p == p * q * hi + p * lo
    ensures p * (lo + 1) == p * lo + p
  {
  }

  /** A word is q * hi + lo; rotated, it is p * lo + hi. */
  lemma RotationFits(x: Word, p: int, q: int)
    requires p > 0 && q > 0 && p * q == TWO_32
    ensures 0 <= x / q < p && 0 <= x % q < q && x == q * (x / q) + x % q
    ensures x * p % TWO_32 == p * (x % q)
    ensures 0 <= p * (x % q) + x / q < TWO_32
  {
    var hi, lo := x / q, x % q;
    assert x == q * hi + lo;
    MulMonotone(q, p, hi);
    Distribute(p, q, hi, lo);
    MulMonotone(p, lo + 1, q);
    MulMonotone(p, 0, lo);
    QuotientOf(x * p, TWO_32, hi, p * lo);
  }

  /** Rotating by n moves the top n bits, hi, below the other bits, lo. */
  lemma RotateLeftMoves(x: Word, n: Amount, hi: int, lo: int)
    requires x == Pow2(32 - n) * hi + lo && 0 <= lo < Pow2(32 - n)
    ensures RotateLeft(x, n) == Pow2(n) * lo + hi
  {
    var p, q := Pow2(n), Pow2(32 - n);
    Split32(n);
    RotationFits(x, p, q);
    QuotientOf(x, q, hi, lo);
  }

  lemma RotationsCancel(x: Word, n: Amount)
    ensures RotateLeft(RotateLeft(x, n), 32 - n) == x
  {
    var p, q := Pow2(n), Pow2(32 - n);
    Split32(n);
    RotationFits(x, p, q);
    var hi, lo := x / q, x % q;
    var y := p * lo + hi;
    QuotientOf(y, p, lo, hi);
    RotationFits(y, q, p);
  }

  function Add(x: Word, y: Word): Word { (x + y) % TWO_32 }

  function Sub(x: Word, y: Word): Word { (x - y) % TWO_32 }

  lemma SubAdd(x: Word, y: Word)
    ensures Sub(Add(x, y), y) == x && Add(Sub(x, y), y) == x
  {
    WrapOnce(x + y);
    WrapOnce(x - y);
    WrapOnce(Add(x, y) - y);
    WrapOnce(Sub(x, y) + y);
  }

  /** A sum or difference of two words wraps at most once. */
  lemma WrapOnce(n: int)
    requires -TWO_32 <= n < 2 * TWO_32
    ensures n % TWO_32 == if n < 0 then n + TWO_32 else if n < TWO_32 then n else n - TWO_32
  {
  }

  lemma AddThenWrap(a: nat, b: nat)
    ensures (a % TWO_32 + b) % TWO_32 == (a + b) % TWO_32
  {
    var q, s := a / TWO_32, a % TWO_32 + b;
    QuotientOf(a + b, TWO_32, q + s / TWO_32, s % TWO_32);
  }

  /** A step of any round, given the value f of its auxiliary function. */
  function MixWith(f: Word, a: Word, b: Word, x: Word, s: Amount, ac: Word): Word {
    Add(RotateLeft(Add(Add(Add(a, f), x), ac), s), b)
  }

  function UnmixWith(f: Word, a: Word, b: Word, x: Word, s: Amount, ac: Word): Word {
    Sub(Sub(Sub(RotateRight(Sub(a, b), s), ac), x), f)
  }

  /** FF, GG, HH and II, told apart by k. */
  function Mix(k: Round, a: Word, b: Word, c: Word, d: Word, x: Word, s: Amount, ac: Word): Word {
    MixWith(Aux(k, b, c, d), a, b, x, s, ac)
  }

  /** Recovers the register that Mix replaced. */
  function Unmix(k: Round, a: Word, b: Word, c: Word, d: Word, x: Word, s: Amount, ac: Word): Word {
    UnmixWith(Aux(k, b, c, d), a, b, x, s, ac)
  }

  lemma UnmixAfterMix(f: Word, a: Word, b: Word, x: Word, s: Amount, t: Word)
    ensures UnmixWith(f, MixWith(f, a, b, x, s, t), b, x, s, t) == a
  {
    var w := Add(Add(Add(a, f), x), t);
    SubAdd(RotateLeft(w, s), b);
    RotationsCancel(w, s);
    SubAdd(Add(Add(a, f), x), t);
    SubAdd(Add(a, f), x);
    SubAdd(a, f);
  }

  lemma MixAfterUnmix(f: Word, a: Word, b: Word, x: Word, s: Amount, t: Word)
    ensures MixWith(f, UnmixWith(f, a, b, x, s, t), b, x, s, t) == a
  {
    var w := RotateRight(Sub(a, b), s);
    SubAdd(Sub(Sub(w, t), x), f);
    SubAdd(Sub(w, t), x);
    SubAdd(w, t);
    RotationsCancel(Sub(a, b), 32 - s);
    SubAdd(a, b);
  }

  // ---------- The block function ----------

  /** The 64 steps, four for each word of message block x, before the old state is added back. */
  function Core(h: State, x: seq<Word>): State
    requires |x| == 16
  {
    Steps(Mix, 4 * |x|, h, x)
  }

  /** The registers before the 64 steps on x, from those after. */
  function CoreInverse(h: State, x: seq<Word>): State
    requires |x| == 16
  {
    Unsteps(Unmix, 4 * |x|, h, x)
  }

  lemma MixIsInvertible()
    ensures Undoes(Unmix, Mix) && Undoes(Mix, Unmix)
  {
    forall k: Round, a: Word, b: Word, c: Word, d: Word, x: Word, s: Amount, t: Word
      ensures Unmix(k, Mix(k, a, b, c, d, x, s, t), b, c, d, x, s, t) == a
      ensures Mix(k, Unmix(k, a, b, c, d, x, s, t), b, c, d, x, s, t) == a
    {
      UnmixAfterMix(Aux(k, b, c, d), a, b, x, s, t);
      MixAfterUnmix(Aux(k, b, c, d), a, b, x, s, t);
    }
  }

  /** For a fixed block, the 64 steps are a bijection on the four registers. */
  lemma CoreIsBijection(h: State, x: seq<Word>)
    requires |x| == 16
    ensures CoreInverse(Core(h, x), x) == h
    ensures Core(CoreInverse(h, x), x) == h
  {
    MixIsInvertible();
    UnstepsAfterSteps(Unmix, Mix, 4 * |x|, h, x);
    StepsAfterUnsteps(Unmix, Mix, 4 * |x|, h, x);
  }

  function AddRegs(h: State, r: State): State {
    Regs(Add(h.a, r.a), Add(h.b, r.b), Add(h.c, r.c), Add(h.d, r.d))
  }

  type Block = b: seq<Byte> | |b| == 64 witness seq(64, i => 0)

  function Compress(h: State, block: Block): State {
    AddRegs(h, Core(h, DecodeWords(block)))
  }

  // ---------- Little-endian words ----------

  function DecodeWord(b0: Byte, b1: Byte, b2: Byte, b3: Byte): Word {
    b0 + b1 * 0x100 + b2 * 0x1_0000 + b3 * 0x100_0000
  }

  function EncodeWord(w: Word): seq<Byte> {
    [w % 0x100, w / 0x100 % 0x100, w / 0x1_0000 % 0x100, w / 0x100_0000 % 0x100]
  }

  function DecodeWords(b: seq<Byte>): (x: seq<Word>)
    requires |b| % 4 == 0
    ensures |x| == |b| / 4
  {
    seq(|b| / 4, i requires 0 <= i < |b| / 4 => DecodeWord(b[4 * i], b[4 * i + 1], b[4 * i + 2], b[4 * i + 3]))
  }

  /** The sum is the bitwise or of the shifted bytes, as the source writes it. */
  lemma DecodeWordJoinsBytes(b0: Byte, b1: Byte, b2: Byte, b3: Byte)
    ensures Or(Or(Or(b0, b1 * 0x100), b2 * 0x1_0000), b3 * 0x100_0000) == DecodeWord(b0, b1, b2, b3)
  {
    hide Or, Pow2;
    Pow2Values();
    OrOfDisjoint(8, b1, b0);
    OrOfDisjoint(16, b2, b0 + b1 * 0x100);
    OrOfDisjoint(24, b3, b0 + b1 * 0x100 + b2 * 0x1_0000);
  }

  lemma Pow2Values()
    ensures Pow2(8) == 0x100 && Pow2(16) == 0x1_0000 && Pow2(24) == 0x100_0000
  {
    assert Pow2(4) == 16;
    Pow2Add(4, 4);
    Pow2Add(8, 8);
    Pow2Add(8, 16);
  }

  lemma DecodeWordsAt(b: seq<Byte>, i: nat)
    requires |b| % 4 == 0 && 4 * i < |b|
    ensures DecodeWords(b)[i] == DecodeWord(b[4 * i], b[4 * i + 1], b[4 * i + 2], b[4 * i + 3])
  {
  }

  function EncodeWords(x: seq<Word>): (b: seq<Byte>)
    ensures |b| == 4 * |x|
  {
    if x == [] then [] else EncodeWords(x[..|x| - 1]) + EncodeWord(x[|x| - 1])
  }

  lemma EncodeNoWords()
    ensures EncodeWords([]) == []
  {
  }

  lemma EncodeWordsSnoc(x: seq<Word>, w: Word)
    ensures EncodeWords(x + [w]) == EncodeWords(x) + EncodeWord(w)
  {
    hide EncodeWord;
    assert (x + [w])[..|x|] == x;
  }

  lemma {:induction false} EncodeWordsAt(x: seq<Word>, i: nat)
    requires i < |x|
    ensures EncodeWords(x)[4 * i..4 * i + 4] == EncodeWord(x[i])
  {
    if i < |x| - 1 {
      EncodeWordsAt(x[..|x| - 1], i);
      assert EncodeWords(x)[4 * i..4 * i + 4] == EncodeWords(x[..|x| - 1])[4 * i..4 * i + 4];
    }
  }

  lemma DecodeEncodeWord(w: Word)
    ensures var e := EncodeWord(w); DecodeWord(e[0], e[1], e[2], e[3]) == w
  {
    var w1, w2, w3 := w / 0x100, w / 0x1_0000, w / 0x100_0000;
    assert w == 0x100 * w1 + w % 0x100;
    assert w1 == 0x100 * w2 + w1 % 0x100;
    assert w2 == 0x100 * w3 + w2 % 0x100;
    assert w3 % 0x100 == w3;
  }

  /** decode undoes encode, so the digest determines the four registers. */
  lemma DecodeEncodeWords(x: seq<Word>)
    ensures DecodeWords(EncodeWords(x)) == x
  {
    var b := EncodeWords(x);
    forall i | 0 <= i < |x| ensures DecodeWords(b)[i] == x[i] {
      EncodeWordsAt(x, i);
      var e := b[4 * i..4 * i + 4];
      assert e[0] == b[4 * i] && e[1] == b[4 * i + 1] && e[2] == b[4 * i + 2] && e[3] == b[4 * i + 3];
      DecodeEncodeWord(x[i]);
    }
  }
}
