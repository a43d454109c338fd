/**
 The 64-step schedule of MD5, stated over an arbitrary word type.

 `Steps` is the loop form of section 3.4 of RFC 1321: the four registers rotate, and
 step i takes message word K(i), rotates by Shift(i) and adds the constant T(i).
 `Round1` .. `Round4` are the four unrolled rounds, one assignment per line.  The round
 operation itself is a parameter, so that relating the two forms is only a matter
 of the schedule and needs no fact about 32-bit arithmetic.
 */
module Md5Schedule {

  /** Which of the four auxiliary functions a step uses. */
  datatype Round = FF | GG | HH | II

  type Amount = s: nat | 0 < s < 32 witness 1

  /** An unsigned 32-bit value. */
  type Word = w: int | 0 <= w < 0x1_0000_0000

  /** op(round, a, b, c, d, x, s, ac) is the new value of register a. */
  type Op<!W> = (Round, W, W, W, W, W, Amount, Word) -> W

  datatype Regs<W> = Regs(a: W, b: W, c: W, d: W)

  // ---------- The schedule of section 3.4 of RFC 1321 ----------

  function RoundOf(i: nat): Round {
    if i < 16 then FF else if i < 32 then GG else if i < 48 then HH else II
  }

  function K(i: nat): (k: nat)
    ensures k < 16
  {
    if i < 16 then i else if i < 32 then (5 * i + 1) % 16 else if i < 48 then (3 * i + 5) % 16 else (7 * i) % 16
  }

  function Shift(i: nat): Amount {
    var j := i % 4;
    if i < 16 then (if j == 0 then 7 else if j == 1 then 12 else if j == 2 then 17 else 22)
    else if i < 32 then (if j == 0 then 5 else if j == 1 then 9 else if j == 2 then 14 else 20)
    else if i < 48 then (if j == 0 then 4 else if j == 1 then 11 else if j == 2 then 16 else 23)
    else (if j == 0 then 6 else if j == 1 then 10 else if j == 2 then 15 else 21)
  }

  /** The integer part of 2^32 times abs(sin(i + 1)), the angle in radians. */
  function T(i: nat): Word {
    if i < 16 then T1(i) else if i < 32 then T2(i) else if i < 48 then T3(i) else T4(i)
  }

  function T1(i: nat): Word {
    match i
    case 0 => 0xd76aa478 case 1 => 0xe8c7b756 case 2 => 0x242070db case 3 => 0xc1bdceee
    case 4 => 0xf57c0faf case 5 => 0x4787c62a case 6 => 0xa8304613 case 7 => 0xfd469501
    case 8 => 0x698098d8 case 9 => 0x8b44f7af case 10 => 0xffff5bb1 case 11 => 0x895cd7be
    case 12 => 0x6b901122 case 13 => 0xfd987193 case 14 => 0xa679438e case 15 => 0x49b40821
    case _ => 0
  }

  function T2(i: nat): Word {
    match i
    case 16 => 0xf61e2562 case 17 => 0xc040b340 case 18 => 0x265e5a51 case 19 => 0xe9b6c7aa
    case 20 => 0xd62f105d case 21 => 0x02441453 case 22 => 0xd8a1e681 case 23 => 0xe7d3fbc8
    case 24 => 0x21e1cde6 case 25 => 0xc33707d6 case 26 => 0xf4d50d87 case 27 => 0x455a14ed
    case 28 => 0xa9e3e905 case 29 => 0xfcefa3f8 case 30 => 0x676f02d9 case 31 => 0x8d2a4c8a
    case _ => 0
  }

  function T3(i: nat): Word {
    match i
    case 32 => 0xfffa3942 case 33 => 0x8771f681 case 34 => 0x6d9d6122 case 35 => 0xfde5380c
    case 36 => 0xa4beea44 case 37 => 0x4bdecfa9 case 38 => 0xf6bb4b60 case 39 => 0xbebfbc70
    case 40 => 0x289b7ec6 case 41 => 0xeaa127fa case 42 => 0xd4ef3085 case 43 => 0x04881d05
    case 44 => 0xd9d4d039 case 45 => 0xe6db99e5 case 46 => 0x1fa27cf8 case 47 => 0xc4ac5665
    case _ => 0
  }

  function T4(i: nat): Word {
    match i
    case 48 => 0xf4292244 case 49 => 0x432aff97 case 50 => 0xab9423a7 case 51 => 0xfc93a039
    case 52 => 0x655b59c3 case 53 => 0x8f0ccc92 case 54 => 0xffeff47d case 55 => 0x85845dd1
    case 56 => 0x6fa87e4f case 57 => 0xfe2ce6e0 case 58 => 0xa3014314 case 59 => 0x4e0811a1
    case 60 => 0xf7537e82 case 61 => 0xbd3af235 case 62 => 0x2ad7d2bb case 63 => 0xeb86d391
    case _ => 0
  }

  function Step<W>(op: Op<W>, i: nat, r: Regs<W>, x: seq<W>): Regs<W>
    requires |x| == 16
  {
    Regs(r.d, op(RoundOf(i), r.a, r.b, r.c, r.d, x[K(i)], Shift(i), T(i)), r.b, r.c)
  }

  function Steps<W>(op: Op<W>, n: nat, r: Regs<W>, x: seq<W>): Regs<W>
    requires |x| == 16
  {
    if n == 0 then r else Step(op, n - 1, Steps(op, n - 1, r, x), x)
  }

  // ---------- The inverse of the schedule ----------

  /** inv undoes op in its first word, whatever the other operands are. */
  ghost predicate Undoes<W(!new)>(inv: Op<W>, op: Op<W>) {
    forall k: Round, a: W, b: W, c: W, d: W, x: W, s: Amount, t: Word ::
      inv(k, op(k, a, b, c, d, x, s, t), b, c, d, x, s, t) == a
  }

  function Unstep<W>(inv: Op<W>, i: nat, r: Regs<W>, x: seq<W>): Regs<W>
    requires |x| == 16
  {
    Regs(inv(RoundOf(i), r.b, r.c, r.d, r.a, x[K(i)], Shift(i), T(i)), r.c, r.d, r.a)
  }

  function Unsteps<W>(inv: Op<W>, n: nat, r: Regs<W>, x: seq<W>): Regs<W>
    requires |x| == 16
  {
    if n == 0 then r else Unsteps(inv, n - 1, Unstep(inv, n - 1, r, x), x)
  }

  lemma UnstepAfterStep<W(!new)>(inv: Op<W>, op: Op<W>, i: nat, r: Regs<W>, x: seq<W>)
    requires |x| == 16 && Undoes(inv, op)
    ensures Unstep(inv, i, Step(op, i, r, x), x) == r
  {
    assert inv(RoundOf(i), op(RoundOf(i), r.a, r.b, r.c, r.d, x[K(i)], Shift(i), T(i)),
               r.b, r.c, r.d, x[K(i)], Shift(i), T(i)) == r.a;
  }

  lemma StepAfterUnstep<W(!new)>(inv: Op<W>, op: Op<W>, i: nat, r: Regs<W>, x: seq<W>)
    requires |x| == 16 && Undoes(op, inv)
    ensures Step(op, i, Unstep(inv, i, r, x), x) == r
  {
    assert op(RoundOf(i), inv(RoundOf(i), r.b, r.c, r.d, r.a, x[K(i)], Shift(i), T(i)),
              r.c, r.d, r.a, x[K(i)], Shift(i), T(i)) == r.b;
  }

  lemma {:induction false} UnstepsAfterSteps<W(!new)>(inv: Op<W>, op: Op<W>, n: nat, r: Regs<W>, x: seq<W>)
    requires |x| == 16 && Undoes(inv, op)
    ensures Unsteps(inv, n, Steps(op, n, r, x), x) == r
  {
    if n > 0 {
      UnstepAfterStep(inv, op, n - 1, Steps(op, n - 1, r, x), x);
      UnstepsAfterSteps(inv, op, n - 1, r, x);
    }
  }

  lemma {:induction false} StepsAfterUnsteps<W(!new)>(inv: Op<W>, op: Op<W>, n: nat, r: Regs<W>, x: seq<W>)
    requires |x| == 16 && Undoes(op, inv)
    ensures Steps(op, n, Unsteps(inv, n, r, x), x) == r
  {
    if n > 0 {
      StepsAfterUnsteps(inv, op, n - 1, Unstep(inv, n - 1, r, x), x);
      StepAfterUnstep(inv, op, n - 1, r, x);
    }
  }

  // ---------- The unrolled form ----------

  method Round1<W>(op: Op<W>, a0: W, b0: W, c0: W, d0: W, x: seq<W>, ghost n: nat, ghost r: Regs<W>)
    returns (a: W, b: W, c: W, d: W)
    requires |x| == 16 && n == 0 && Regs(a0, b0, c0, d0) == Steps(op, n, r, x)
    ensures Regs(a, b, c, d) == Steps(op, n + 16, r, x)
  {
    a, b, c, d := a0, b0, c0, d0;
    a := op(FF, a, b, c, d, x[0], 7, 0xd76aa478);
    d := op(FF, d, a, b, c, x[1], 12, 0xe8c7b756);
    assert Regs(c, d, a, b) == Steps(op, n + 2, r, x);
    c := op(FF, c, d, a, b, x[2], 17, 0x242070db);
    b := op(FF, b, c, d, a, x[3], 22, 0xc1bdceee);
    assert Regs(a, b, c, d) == Steps(op, n + 4, r, x);
    a := op(FF, a, b, c, d, x[4], 7, 0xf57c0faf);
    d := op(FF, d, a, b, c, x[5], 12, 0x4787c62a);
    assert Regs(c, d, a, b) == Steps(op, n + 6, r, x);
    c := op(FF, c, d, a, b, x[6], 17, 0xa8304613);
    b := op(FF, b, c, d, a, x[7], 22, 0xfd469501);
    assert Regs(a, b, c, d) == Steps(op, n + 8, r, x);
    a := op(FF, a, b, c, d, x[8], 7, 0x698098d8);
    d := op(FF, d, a, b, c, x[9], 12, 0x8b44f7af);
    assert Regs(c, d, a, b) == Steps(op, n + 10, r, x);
    c := op(FF, c, d, a, b, x[10], 17, 0xffff5bb1);
    b := op(FF, b, c, d, a, x[11], 22, 0x895cd7be);
    assert Regs(a, b, c, d) == Steps(op, n + 12, r, x);
    a := op(FF, a, b, c, d, x[12], 7, 0x6b901122);
    d := op(FF, d, a, b, c, x[13], 12, 0xfd987193);
    assert Regs(c, d, a, b) == Steps(op, n + 14, r, x);
    c := op(FF, c, d, a, b, x[14], 17, 0xa679438e);
    b := op(FF, b, c, d, a, x[15], 22, 0x49b40821);
    assert Regs(a, b, c, d) == Steps(op, n + 16, r, x);
  }

  method Round2<W>(op: Op<W>, a0: W, b0: W, c0: W, d0: W, x: seq<W>, ghost n: nat, ghost r: Regs<W>)
    returns (a: W, b: W, c: W, d: W)
    requires |x| == 16 && n == 16 && Regs(a0, b0, c0, d0) == Steps(op, n, r, x)
    ensures Regs(a, b, c, d) == Steps(op, n + 16, r, x)
  {
    a, b, c, d := a0, b0, c0, d0;
    a := op(GG, a, b, c, d, x[1], 5, 0xf61e2562);
    d := op(GG, d, a, b, c, x[6], 9, 0xc040b340);
    assert Regs(c, d, a, b) == Steps(op, n + 2, r, x);
    c := op(GG, c, d, a, b, x[11], 14, 0x265e5a51);
    b := op(GG, b, c, d, a, x[0], 20, 0xe9b6c7aa);
    assert Regs(a, b, c, d) == Steps(op, n + 4, r, x);
    a := op(GG, a, b, c, d, x[5], 5, 0xd62f105d);
    d := op(GG, d, a, b, c, x[10], 9, 0x02441453);
    assert Regs(c, d, a, b) == Steps(op, n + 6, r, x);
    c := op(GG, c, d, a, b, x[15], 14, 0xd8a1e681);
    b := op(GG, b, c, d, a, x[4], 20, 0xe7d3fbc8);
    assert Regs(a, b, c, d) == Steps(op, n + 8, r, x);
    a := op(GG, a, b, c, d, x[9], 5, 0x21e1cde6);
    d := op(GG, d, a, b, c, x[14], 9, 0xc33707d6);
    assert Regs(c, d, a, b) == Steps(op, n + 10, r, x);
    c := op(GG, c, d, a, b, x[3], 14, 0xf4d50d87);
    b := op(GG, b, c, d, a, x[8], 20, 0x455a14ed);
    assert Regs(a, b, c, d) == Steps(op, n + 12, r, x);
    a := op(GG, a, b, c, d, x[13], 5, 0xa9e3e905);
    d := op(GG, d, a, b, c, x[2], 9, 0xfcefa3f8);
    assert Regs(c, d, a, b) == Steps(op, n + 14, r, x);
    c := op(GG, c, d, a, b, x[7], 14, 0x676f02d9);
    b := op(GG, b, c, d, a, x[12], 20, 0x8d2a4c8a);
    assert Regs(a, b, c, d) == Steps(op, n + 16, r, x);
  }

  method Round3<W>(op: Op<W>, a0: W, b0: W, c0: W, d0: W, x: seq<W>, ghost n: nat, ghost r: Regs<W>)
    returns (a: W, b: W, c: W, d: W)
    requires |x| == 16 && n == 32 && Regs(a0, b0, c0, d0) == Steps(op, n, r, x)
    ensures Regs(a, b, c, d) == Steps(op, n + 16, r, x)
  {
    a, b, c, d := a0, b0, c0, d0;
    a := op(HH, a, b, c, d, x[5], 4, 0xfffa3942);
    d := op(HH, d, a, b, c, x[8], 11, 0x8771f681);
    assert Regs(c, d, a, b) == Steps(op, n + 2, r, x);
    c := op(HH, c, d, a, b, x[11], 16, 0x6d9d6122);
    b := op(HH, b, c, d, a, x[14], 23, 0xfde5380c);
    assert Regs(a, b, c, d) == Steps(op, n + 4, r, x);
    a := op(HH, a, b, c, d, x[1], 4, 0xa4beea44);
    d := op(HH, d, a, b, c, x[4], 11, 0x4bdecfa9);
    assert Regs(c, d, a, b) == Steps(op, n + 6, r, x);
    c := op(HH, c, d, a, b, x[7], 16, 0xf6bb4b60);
    b := op(HH, b, c, d, a, x[10], 23, 0xbebfbc70);
    assert Regs(a, b, c, d) == Steps(op, n + 8, r, x);
    a := op(HH, a, b, c, d, x[13], 4, 0x289b7ec6);
    d := op(HH, d, a, b, c, x[0], 11, 0xeaa127fa);
    assert Regs(c, d, a, b) == Steps(op, n + 10, r, x);
    c := op(HH, c, d, a, b, x[3], 16, 0xd4ef3085);
    b := op(HH, b, c, d, a, x[6], 23, 0x04881d05);
    assert Regs(a, b, c, d) == Steps(op, n + 12, r, x);
    a := op(HH, a, b, c, d, x[9], 4, 0xd9d4d039);
    d := op(HH, d, a, b, c, x[12], 11, 0xe6db99e5);
    assert Regs(c, d, a, b) == Steps(op, n + 14, r, x);
    c := op(HH, c, d, a, b, x[15], 16, 0x1fa27cf8);
    b := op(HH, b, c, d, a, x[2], 23, 0xc4ac5665);
    assert Regs(a, b, c, d) == Steps(op, n + 16, r, x);
  }

  method Round4<W>(op: Op<W>, a0: W, b0: W, c0: W, d0: W, x: seq<W>, ghost n: nat, ghost r: Regs<W>)
    returns (a: W, b: W, c: W, d: W)
    requires |x| == 16 && n == 48 && Regs(a0, b0, c0, d0) == Steps(op, n, r, x)
    ensures Regs(a, b, c, d) == Steps(op, n + 16, r, x)
  {
    a, b, c, d := a0, b0, c0, d0;
    a := op(II, a, b, c, d, x[0], 6, 0xf4292244);
    d := op(II, d, a, b, c, x[7], 10, 0x432aff97);
    assert Regs(c, d, a, b) == Steps(op, n + 2, r, x);
    c := op(II, c, d, a, b, x[14], 15, 0xab9423a7);
    b := op(II, b, c, d, a, x[5], 21, 0xfc93a039);
    assert Regs(a, b, c, d) == Steps(op, n + 4, r, x);
    a := op(II, a, b, c, d, x[12], 6, 0x655b59c3);
    d := op(II, d, a, b, c, x[3], 10, 0x8f0ccc92);
    assert Regs(c, d, a, b) == Steps(op, n + 6, r, x);
    c := op(II, c, d, a, b, x[10], 15, 0xffeff47d);
    b := op(II, b, c, d, a, x[1], 21, 0x85845dd1);
    assert Regs(a, b, c, d) == Steps(op, n + 8, r, x);
    a := op(II, a, b, c, d, x[8], 6, 0x6fa87e4f);
    d := op(II, d, a, b, c, x[15], 10, 0xfe2ce6e0);
    assert Regs(c, d, a, b) == Steps(op, n + 10, r, x);
    c := op(II, c, d, a, b, x[6], 15, 0xa3014314);
    b := op(II, b, c, d, a, x[13], 21, 0x4e0811a1);
    assert Regs(a, b, c, d) == Steps(op, n + 12, r, x);
    a := op(II, a, b, c, d, x[4], 6, 0xf7537e82);
    d := op(II, d, a, b, c, x[11], 10, 0xbd3af235);
    assert Regs(c, d, a, b) == Steps(op, n + 14, r, x);
    c := op(II, c, d, a, b, x[2], 15, 0x2ad7d2bb);
    b := op(II, b, c, d, a, x[9], 21, 0xeb86d391);
    assert Regs(a, b, c, d) == Steps(op, n + 16, r, x);
  }

  /** The 64 assignments of the unrolled transform are the 64 steps of the loop form. */
  method Rounds<W>(op: Op<W>, a0: W, b0: W, c0: W, d0: W, x: seq<W>) returns (a: W, b: W, c: W, d: W)
    requires |x| == 16
    ensures Regs(a, b, c, d) == Steps(op, 4 * |x|, Regs(a0, b0, c0, d0), x)
  {
    ghost var r, n := Regs(a0, b0, c0, d0), 0;
    a, b, c, d := Round1(op, a0, b0, c0, d0, x, n, r);
    a, b, c, d := Round2(op, a, b, c, d, x, n + 16, r);
    a, b, c, d := Round3(op, a, b, c, d, x, n + 32, r);
    a, b, c, d := Round4(op, a, b, c, d, x, n + 48, r);
  }
}
