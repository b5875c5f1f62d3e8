/**
 What Base64 is, by bits (section 4 of RFC 4648): the bits of the bytes, the highest first, are taken six at a
 time, zeros filling up the last six, and each six are a number in the URL-safe alphabet of section 5.
 */
module Base64Bits {
  import opened Text
  import opened Base64

  /** The bits of a byte, the highest first. */
  function ByteBit(x: Byte, k: nat): nat
    requires k < 8
  {
    if k == 0 then x / 128 % 2
    else if k == 1 then x / 64 % 2
    else if k == 2 then x / 32 % 2
    else if k == 3 then x / 16 % 2
    else if k == 4 then x / 8 % 2
    else if k == 5 then x / 4 % 2
    else if k == 6 then x / 2 % 2
    else x % 2
  }

  /** The bits of some bytes; after the last byte come zeros. */
  function BitAt(b: seq<Byte>, j: nat): nat {
    if b == [] then 0 else if j < 8 then ByteBit(b[0], j) else BitAt(b[1..], j - 8)
  }

  /** The number that six bits spell. */
  function SixBits(b: seq<Byte>, j: nat): nat {
    32 * BitAt(b, j) + 16 * BitAt(b, j + 1) + 8 * BitAt(b, j + 2) + 4 * BitAt(b, j + 3) + 2 * BitAt(b, j + 4)
    + BitAt(b, j + 5)
  }

  /** The character stands for this number: A to Z, a to z, 0 to 9, minus and underscore, in this order. */
  predicate StandsFor(c: char, n: nat) {
    || ('A' <= c <= 'Z' && n == c as int - 'A' as int)
    || ('a' <= c <= 'z' && n == 26 + c as int - 'a' as int)
    || ('0' <= c <= '9' && n == 52 + c as int - '0' as int)
    || (c == '-' && n == 62)
    || (c == '_' && n == 63)
  }

  lemma {:induction false} Halved(x: Byte)
    ensures x == 2 * (x / 2) + x % 2 && x / 2 == 2 * (x / 4) + x / 2 % 2 && x / 4 == 2 * (x / 8) + x / 4 % 2
    ensures x / 8 == 2 * (x / 16) + x / 8 % 2 && x / 16 == 2 * (x / 32) + x / 16 % 2
    ensures x / 32 == 2 * (x / 64) + x / 32 % 2 && x / 64 == 2 * (x / 128) + x / 64 % 2 && 0 <= x / 128 < 2
  {
    assert x / 2 / 2 == x / 4 && x / 4 / 2 == x / 8 && x / 8 / 2 == x / 16;
    assert x / 16 / 2 == x / 32 && x / 32 / 2 == x / 64 && x / 64 / 2 == x / 128;
  }

  /** The high and the low bits of a byte that meet in its sextets. */
  lemma {:induction false} PartsOfByte(x: Byte)
    ensures x / 4 == 32 * (x / 128 % 2) + 16 * (x / 64 % 2) + 8 * (x / 32 % 2) + 4 * (x / 16 % 2)
                     + 2 * (x / 8 % 2) + x / 4 % 2
    ensures x % 4 == 2 * (x / 2 % 2) + x % 2
    ensures x / 16 == 8 * (x / 128 % 2) + 4 * (x / 64 % 2) + 2 * (x / 32 % 2) + x / 16 % 2
    ensures x % 16 == 8 * (x / 8 % 2) + 4 * (x / 4 % 2) + 2 * (x / 2 % 2) + x % 2
    ensures x / 64 == 2 * (x / 128 % 2) + x / 64 % 2
    ensures x % 64 == 32 * (x / 32 % 2) + 16 * (x / 16 % 2) + 8 * (x / 8 % 2) + 4 * (x / 4 % 2)
                      + 2 * (x / 2 % 2) + x % 2
  {
    Halved(x);
    assert x == 4 * (x / 4) + x % 4;
  }

  lemma {:induction false} NextByte(b: seq<Byte>, j: nat)
    requires b != []
    ensures BitAt(b, j + 8) == BitAt(b[1..], j)
  {
  }

  lemma {:induction false} OfSecondByte(b: seq<Byte>, k: nat)
    requires b != [] && k < 8
    ensures BitAt(b, k + 8) == if |b| > 1 then ByteBit(b[1], k) else 0
  {
    NextByte(b, k);
  }

  lemma {:induction false} OfThirdByte(b: seq<Byte>, k: nat)
    requires |b| > 1 && k < 8
    ensures BitAt(b, k + 16) == if |b| > 2 then ByteBit(b[2], k) else 0
  {
    NextByte(b, k + 8);
    OfSecondByte(b[1..], k);
  }

  lemma {:induction false} FirstSix(b: seq<Byte>)
    requires b != []
    ensures SixBits(b, 0) == First(b[0])
  {
    PartsOfByte(b[0]);
  }

  lemma {:induction false} SecondSix(b: seq<Byte>)
    requires b != []
    ensures SixBits(b, 6) == Second(b[0], if |b| > 1 then b[1] else 0)
  {
    PartsOfByte(b[0]);
    if |b| > 1 {
      PartsOfByte(b[1]);
    }
    OfSecondByte(b, 0);
    OfSecondByte(b, 1);
    OfSecondByte(b, 2);
    OfSecondByte(b, 3);
  }

  lemma {:induction false} ThirdSix(b: seq<Byte>)
    requires |b| > 1
    ensures SixBits(b, 12) == Third(b[1], if |b| > 2 then b[2] else 0)
  {
    PartsOfByte(b[1]);
    if |b| > 2 {
      PartsOfByte(b[2]);
    }
    OfSecondByte(b, 4);
    OfSecondByte(b, 5);
    OfSecondByte(b, 6);
    OfSecondByte(b, 7);
    OfThirdByte(b, 0);
    OfThirdByte(b, 1);
  }

  lemma {:induction false} FourthSix(b: seq<Byte>)
    requires |b| > 2
    ensures SixBits(b, 18) == Fourth(b[2])
  {
    PartsOfByte(b[2]);
    OfThirdByte(b, 2);
    OfThirdByte(b, 3);
    OfThirdByte(b, 4);
    OfThirdByte(b, 5);
    OfThirdByte(b, 6);
    OfThirdByte(b, 7);
  }

  lemma {:induction false} LaterBit(b: seq<Byte>, j: nat)
    requires |b| >= 3
    ensures BitAt(b, j + 24) == BitAt(b[3..], j)
  {
    NextByte(b, j + 16);
    NextByte(b[1..], j + 8);
    NextByte(b[1..][1..], j);
    assert b[1..][1..][1..] == b[3..];
  }

  lemma {:induction false} LaterSix(b: seq<Byte>, j: nat)
    requires |b| >= 3
    ensures SixBits(b, j + 24) == SixBits(b[3..], j)
  {
    LaterBit(b, j);
    LaterBit(b, j + 1);
    LaterBit(b, j + 2);
    LaterBit(b, j + 3);
    LaterBit(b, j + 4);
    LaterBit(b, j + 5);
  }

  lemma {:induction false} SymbolStandsFor(n: Sextet)
    ensures StandsFor(Symbol(n), n)
  {
  }

  lemma {:induction false} FirstGroup(b: seq<Byte>, i: nat)
    requires i < |Spell(b)| && i < 4
    ensures StandsFor(Spell(b)[i], SixBits(b, 6 * i))
  {
    if i == 0 {
      FirstSix(b);
      SymbolStandsFor(First(b[0]));
    } else if i == 1 {
      SecondSix(b);
      SymbolStandsFor(Second(b[0], if |b| > 1 then b[1] else 0));
    } else if i == 2 {
      ThirdSix(b);
      SymbolStandsFor(Third(b[1], if |b| > 2 then b[2] else 0));
    } else {
      FourthSix(b);
      SymbolStandsFor(Fourth(b[2]));
    }
  }

  lemma {:induction false} LaterGroup(b: seq<Byte>, i: nat)
    requires 4 <= i < |Spell(b)|
    ensures |b| >= 3 && i - 4 < |Spell(b[3..])| && Spell(b)[i] == Spell(b[3..])[i - 4]
  {
  }

  /** As many characters as six bits each take. */
  lemma {:induction false} SpelledLength(b: seq<Byte>)
    ensures |Spell(b)| == (8 * |b| + 5) / 6
  {
    SpellLength(b);
  }

  /** Each character of the spelling stands for its six bits. */
  lemma {:induction false} SpelledByBits(b: seq<Byte>, i: nat)
    requires i < |Spell(b)|
    ensures StandsFor(Spell(b)[i], SixBits(b, 6 * i))
  {
    if i < 4 {
      FirstGroup(b, i);
    } else {
      LaterGroup(b, i);
      SpelledByBits(b[3..], i - 4);
      LaterSix(b, 6 * (i - 4));
    }
  }
}
