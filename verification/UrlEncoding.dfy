/** URL encoding of a message before it is signed. */
module UrlEncoding {

  import opened Common

  // Range of the unsigned int that holds the length.
  const Wrap: nat := 0x1_0000_0000

  const Space: Byte := 32
  const Plus: Byte := 43
  const Percent: Byte := 37

  // Letters, digits and - _ . ~ : the unreserved characters of section 2.3 of RFC 3986.
  predicate Unreserved(b: Byte) {
    65 <= b <= 90 || 97 <= b <= 122 || 48 <= b <= 57 || b == 45 || b == 95 || b == 46 || b == 126
  }

  function ToHex(x: Byte): (r: Byte)
    requires x < 16
    ensures 48 <= r <= 57 || 65 <= r <= 70
  {
    if x > 9 then x + 55 else x + 48
  }

  function EscapeByte(b: Byte): (r: seq<Byte>) {
    if Unreserved(b) then [b]
    else if b == Space then [Plus]
    else [Percent, ToHex(b / 16), ToHex(b % 16)]
  }

  function Escape(s: seq<Byte>): seq<Byte> {
    if s == [] then [] else EscapeByte(s[0]) + Escape(s[1..])
  }

  // The length is cut to 32 bits, and with it the text.
  function Kept(s: seq<Byte>): seq<Byte> {
    s[..|s| % Wrap]
  }

  // ---------- The program ----------

  lemma EscapeStep(s: seq<Byte>, i: nat)
    requires i < |s|
    ensures Escape(s[i..]) == EscapeByte(s[i]) + Escape(s[i + 1..])
  {
    hide EscapeByte;
    assert s[i..][1..] == s[i + 1..];
  }

  method EncodeUrl(str: seq<Byte>) returns (ret: seq<Byte>)
    ensures ret == Escape(str[..|str| % 0x1_0000_0000])
  {
    hide Escape, Unreserved;
    ret := [];
    var length := |str| % Wrap;
    ghost var kept := Kept(str);
    assert kept[0..] == kept;
    for i := 0 to length
      invariant ret + Escape(kept[i..]) == Escape(kept)
    {
      EscapeStep(kept, i);
      ghost var before := ret;
      if Unreserved(str[i]) {
        ret := ret + [str[i]];
      } else if str[i] == Space {
        ret := ret + [Plus];
      } else {
        ret := ret + [Percent];
        ret := ret + [ToHex(str[i] / 16)];
        ret := ret + [ToHex(str[i] % 16)];
      }
      assert ret == before + EscapeByte(str[i]);
    }
    assert kept[length..] == [];
    EscapeNothing();
  }

  lemma EscapeNothing()
    ensures Escape([]) == []
  {
  }

  /** The spelling of every byte, in numbers: letters, digits and - . _ ~ are themselves, a space is '+',
      and all else is '%' and two upper-case hexadecimal digits. */
  lemma Spelling(b: Byte)
    ensures var plain := 65 <= b <= 90 || 97 <= b <= 122 || 48 <= b <= 57 || b in {45, 46, 95, 126};
            var hi, lo := b / 16, b % 16;
            Escape([b]) ==
            if plain then [b] else if b == 32 then [43]
            else [37, if hi < 10 then 48 + hi else 55 + hi, if lo < 10 then 48 + lo else 55 + lo]
  {
    assert [b][1..] == [];
  }

  // ---------- Decoding ----------

  function HexValue(c: Byte): (r: Option<int>)
    ensures r.Some? ==> 0 <= r.value < 16
  {
    if 48 <= c <= 57 then Some(c - 48) else if 65 <= c <= 70 then Some(c - 55) else None
  }

  // The byte at the head of an encoded text and how many characters spell it.
  datatype Head = Head(byte: Byte, length: nat)

  function DecodeHead(t: seq<Byte>): (r: Option<Head>)
    ensures r.Some? ==> 0 < r.value.length <= |t|
  {
    if t == [] then None
    else if Unreserved(t[0]) then Some(Head(t[0], 1))
    else if t[0] == Plus then Some(Head(Space, 1))
    else if t[0] != Percent || |t| < 3 then None
    else
      var hi, lo := HexValue(t[1]), HexValue(t[2]);
      if hi.None? || lo.None? then None else Some(Head(16 * hi.value + lo.value, 3))
  }

  function Decode(t: seq<Byte>): Option<seq<Byte>>
    decreases |t|
  {
    if t == [] then Some([]) else
    match DecodeHead(t)
    case None => None
    case Some(h) =>
      match Decode(t[h.length..])
      case None => None
      case Some(rest) => Some([h.byte] + rest)
  }

  lemma HexOf(x: Byte)
    requires x < 16
    ensures HexValue(ToHex(x)) == Some(x)
  {
  }

  lemma HeadOf(b: Byte, t: seq<Byte>)
    ensures DecodeHead(EscapeByte(b) + t) == Some(Head(b, |EscapeByte(b)|))
    ensures (EscapeByte(b) + t)[|EscapeByte(b)|..] == t
  {
    var e := EscapeByte(b);
    assert forall i :: 0 <= i < |e| ==> (e + t)[i] == e[i];
    HexOf(b / 16);
    HexOf(b % 16);
  }

  lemma {:induction false} DecodeEscape(s: seq<Byte>)
    ensures Decode(Escape(s)) == Some(s)
  {
    hide EscapeByte, DecodeHead;
    if s != [] {
      DecodeEscape(s[1..]);
      HeadOf(s[0], Escape(s[1..]));
      assert s == [s[0]] + s[1..];
    }
  }

  /** Decoding gives the text back exactly when its length fits 32 bits. */
  lemma DecodedExactlyIf(s: seq<Byte>)
    ensures Decode(Escape(Kept(s))) == Some(s) <==> |s| < 0x1_0000_0000
  {
    hide Decode, Escape;
    DecodeEscape(Kept(s));
    if |s| < Wrap { assert Kept(s) == s; }
  }

  /** Two texts are encoded alike exactly when their kept parts agree. */
  lemma EncodedAlikeExactlyIf(s: seq<Byte>, t: seq<Byte>)
    ensures Escape(Kept(s)) == Escape(Kept(t)) <==> Kept(s) == Kept(t)
  {
    hide Decode, Escape, Kept;
    DecodeEscape(Kept(s));
    DecodeEscape(Kept(t));
  }

  /** So a text of 2^32 bytes is encoded like the empty one. */
  lemma LongTextCollides()
    ensures exists s: seq<Byte> :: |s| == 0x1_0000_0000 && Escape(Kept(s)) == Escape(Kept([]))
  {
    var s: seq<Byte> := seq(Wrap, (_: nat) => Space);
    assert |s| == Wrap && Kept(s) == [];
    assert s != [];
  }

  // ---------- What is emitted ----------

  // Bytes that have neither themselves nor '+' for their spelling.
  predicate NeedsTriplet(b: int) {
    0 <= b < 256 && !Unreserved(b) && b != Space
  }

  // The grammar of the output, by characters: unreserved ones, '+', and '%'
  // with the two upper-case digits of a byte that needs them.
  predicate Emitted(t: seq<Byte>)
    decreases |t|
  {
    if t == [] then true
    else if Unreserved(t[0]) || t[0] == Plus then Emitted(t[1..])
    else
      && t[0] == Percent && |t| >= 3
      && HexValue(t[1]).Some? && HexValue(t[2]).Some?
      && NeedsTriplet(16 * HexValue(t[1]).value + HexValue(t[2]).value)
      && Emitted(t[3..])
  }

  lemma EmittedStep(b: Byte, t: seq<Byte>)
    requires Emitted(t)
    ensures Emitted(EscapeByte(b) + t)
  {
    var e := EscapeByte(b);
    var s := e + t;
    assert s[|e|..] == t && forall i :: 0 <= i < |e| ==> s[i] == e[i];
    HexOf(b / 16);
    HexOf(b % 16);
  }

  lemma {:induction false} EscapeIsEmitted(s: seq<Byte>)
    ensures Emitted(Escape(s))
  {
    hide EscapeByte, Emitted;
    if s == [] {
      assert Emitted([]) by { EmptyIsEmitted(); }
    } else {
      EscapeIsEmitted(s[1..]);
      EmittedStep(s[0], Escape(s[1..]));
    }
  }

  lemma EmptyIsEmitted()
    ensures Emitted([])
  {
  }

  lemma DigitOf(c: Byte)
    requires HexValue(c).Some?
    ensures ToHex(HexValue(c).value) == c
  {
  }

  // The head of an emitted text is the spelling of one byte.
  lemma EmittedHead(t: seq<Byte>) returns (b: Byte, rest: seq<Byte>)
    requires Emitted(t) && t != []
    ensures t == EscapeByte(b) + rest && Emitted(rest) && |rest| < |t|
  {
    if Unreserved(t[0]) || t[0] == Plus {
      b, rest := if t[0] == Plus then Space else t[0], t[1..];
    } else {
      var hi, lo := HexValue(t[1]).value, HexValue(t[2]).value;
      b, rest := 16 * hi + lo, t[3..];
      assert b / 16 == hi && b % 16 == lo;
      DigitOf(t[1]);
      DigitOf(t[2]);
      assert t == [t[0], t[1], t[2]] + rest;
    }
  }

  lemma {:induction false} EmittedIsEscape(t: seq<Byte>) returns (s: seq<Byte>)
    requires Emitted(t)
    ensures Escape(s) == t
    decreases |t|
  {
    hide EscapeByte, Emitted;
    if t == [] {
      s := [];
    } else {
      var b, rest := EmittedHead(t);
      var more := EmittedIsEscape(rest);
      s := [b] + more;
      assert s[1..] == more;
    }
  }

  /** The texts that come out of encoding are exactly those of the output grammar. */
  lemma EmittedExactlyIf(t: seq<Byte>)
    ensures (exists s :: Escape(s) == t) <==> Emitted(t)
  {
    hide Escape, Emitted;
    if Emitted(t) {
      var s := EmittedIsEscape(t);
    }
    if s :| Escape(s) == t {
      EscapeIsEmitted(s);
    }
  }

  lemma {:induction false} AlphabetOf(s: seq<Byte>, i: nat)
    requires i < |Escape(s)|
    ensures var c := Escape(s)[i]; Unreserved(c) || c == 43 || c == 37
    ensures Escape(s)[i] == 37 ==>
              i + 2 < |Escape(s)| && HexValue(Escape(s)[i + 1]).Some? && HexValue(Escape(s)[i + 2]).Some?
  {
    var e := EscapeByte(s[0]);
    if i >= |e| { AlphabetOf(s[1..], i - |e|); }
  }
}
