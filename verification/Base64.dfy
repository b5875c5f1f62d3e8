/**
 URL-safe Base64 without padding (section 5 of RFC 4648), and the decoder of the C library behind it: a
 state machine that keeps the bits left over from the last character, skips foreign characters unless
 it is strict, and stops at a complete padding.
 */
module Base64 {
  import opened Text
  import opened Wrappers

  type Sextet = n: int | 0 <= n < 64

  function Symbol(n: Sextet): char {
    if n < 26 then ('A' as int + n) as char
    else if n < 52 then ('a' as int + (n - 26)) as char
    else if n < 62 then ('0' as int + (n - 52)) as char
    else if n == 62 then '-'
    else '_'
  }

  /** The value of a character; the standard alphabet's + and / are accepted beside - and _. */
  function Bits(c: char): Option<Sextet> {
    if 'A' <= c <= 'Z' then Some(c as int - 'A' as int)
    else if 'a' <= c <= 'z' then Some(c as int - 'a' as int + 26)
    else if '0' <= c <= '9' then Some(c as int - '0' as int + 52)
    else if c == '-' || c == '+' then Some(62)
    else if c == '_' || c == '/' then Some(63)
    else None
  }

  // ---------- encoding ----------

  // The four sextets of three bytes.
  function First(x: Byte): Sextet { x / 4 }
  function Second(x: Byte, y: Byte): Sextet { x % 4 * 16 + y / 16 }
  function Third(y: Byte, z: Byte): Sextet { y % 16 * 4 + z / 64 }
  function Fourth(z: Byte): Sextet { z % 64 }

  /** The characters for three bytes. */
  function Quad(x: Byte, y: Byte, z: Byte): string {
    Symbols(First(x), Second(x, y)) + Symbols(Third(y, z), Fourth(z))
  }

  function Symbols(m: Sextet, n: Sextet): string {
    [Symbol(m), Symbol(n)]
  }

  /** The spelling without its trailing padding; what is left over takes two or three characters. */
  function Spell(b: seq<Byte>): string {
    if |b| == 0 then ""
    else if |b| == 1 then Symbols(First(b[0]), Second(b[0], 0))
    else if |b| == 2 then Symbols(First(b[0]), Second(b[0], b[1])) + [Symbol(Third(b[1], 0))]
    else Quad(b[0], b[1], b[2]) + Spell(b[3..])
  }

  function Pads(n: nat): string {
    if n == 0 then "" else "=" + Pads(n - 1)
  }

  /** How many characters complete the last group of four. */
  function Lacking(n: nat): nat {
    (4 - n % 4) % 4
  }

  function Padded(s: string): string {
    s + Pads(Lacking(|s|))
  }

  // ---------- decoding ----------

  /** The decoder between two characters. */
  datatype State = State(quad: nat, left: nat, pads: nat, padded: bool)

  const START := State(0, 0, 0, false)

  /** The byte that a character completes, with the bits left over from the one before. */
  function Completed(s: State, n: Sextet): seq<Byte> {
    if s.quad == 1 then [(s.left * 4 + n / 16) % 256]
    else if s.quad == 2 then [(s.left * 16 + n / 4) % 256]
    else if s.quad == 3 then [(s.left * 64 + n) % 256]
    else []
  }

  function Consumed(s: State, n: Sextet): State {
    if s.quad == 0 then State(1, n, 0, s.padded)
    else if s.quad == 1 then State(2, n % 16, 0, s.padded)
    else if s.quad == 2 then State(3, n % 4, 0, s.padded)
    else State(0, 0, 0, s.padded)
  }

  function Prepend(b: seq<Byte>, rest: Option<seq<Byte>>): Option<seq<Byte>> {
    if rest.Some? then Some(b + rest.value) else None
  }

  function DecodeFrom(strict: bool, s: State, text: string): Option<seq<Byte>>
    decreases |text|
  {
    if text == "" then if s.quad == 0 then Some([]) else None
    else if text[0] == '=' then
      if strict && s.quad == 0 then None
      else if s.quad >= 2 && s.quad + s.pads + 1 >= 4 then if strict && |text| > 1 then None else Some([])
      else DecodeFrom(strict, s.(padded := true, pads := if s.quad >= 2 then s.pads + 1 else s.pads), text[1..])
    else
      match Bits(text[0])
      case None => if strict then None else DecodeFrom(strict, s, text[1..])
      case Some(n) =>
        if strict && s.padded then None
        else Prepend(Completed(s, n), DecodeFrom(strict, Consumed(s, n), text[1..]))
  }

  function Decode(strict: bool, text: string): Option<seq<Byte>> {
    DecodeFrom(strict, START, text)
  }

  // ---------- round trip ----------

  lemma {:induction false} BitsOfSymbol(n: Sextet)
    ensures Bits(Symbol(n)) == Some(n) && Symbol(n) != '=' && Symbol(n) != '.' && Symbol(n) < 128 as char
  {
  }

  lemma {:induction false} ConsumesSymbol(strict: bool, s: State, n: Sextet, rest: string)
    requires !s.padded
    ensures DecodeFrom(strict, s, [Symbol(n)] + rest) ==
              Prepend(Completed(s, n), DecodeFrom(strict, Consumed(s, n), rest))
  {
    BitsOfSymbol(n);
    assert ([Symbol(n)] + rest)[1..] == rest;
  }

  const AFTER_ONE := (n: Sextet) => State(1, n, 0, false)
  const AFTER_TWO := (n: Sextet) => State(2, n % 16, 0, false)
  const AFTER_THREE := (n: Sextet) => State(3, n % 4, 0, false)

  lemma {:induction false} ConsumesTwo(strict: bool, i: Sextet, j: Sextet, rest: string)
    ensures DecodeFrom(strict, START, Symbols(i, j) + rest) ==
            Prepend(Completed(AFTER_ONE(i), j), DecodeFrom(strict, AFTER_TWO(j), rest))
  {
    assert Symbols(i, j) + rest == [Symbol(i)] + ([Symbol(j)] + rest);
    ConsumesSymbol(strict, START, i, [Symbol(j)] + rest);
    ConsumesSymbol(strict, AFTER_ONE(i), j, rest);
    PrependNothing(Prepend(Completed(AFTER_ONE(i), j), DecodeFrom(strict, AFTER_TWO(j), rest)));
  }

  lemma {:induction false} PrependNothing(rest: Option<seq<Byte>>)
    ensures Prepend([], rest) == rest
  {
    if rest.Some? {
      assert [] + rest.value == rest.value;
    }
  }

  lemma {:induction false} PrependTwice(a: seq<Byte>, b: seq<Byte>, rest: Option<seq<Byte>>)
    ensures Prepend(a, Prepend(b, rest)) == Prepend(a + b, rest)
  {
    if rest.Some? {
      assert a + (b + rest.value) == (a + b) + rest.value;
    }
  }

  lemma {:induction false} SplitSixteen(high: nat, low: nat)
    requires low < 16
    ensures (high * 16 + low) / 16 == high && (high * 16 + low) % 16 == low
  {
  }

  lemma {:induction false} SplitFour(high: nat, low: nat)
    requires low < 4
    ensures (high * 4 + low) / 4 == high && (high * 4 + low) % 4 == low
  {
  }

  /** The sextets in between hold the low bits of one byte and the high bits of the next. */
  lemma {:induction false} MiddleSextets(x: Byte, y: Byte, z: Byte)
    ensures Second(x, y) / 16 == x % 4 && Second(x, y) % 16 == y / 16
    ensures Third(y, z) / 4 == y % 16 && Third(y, z) % 4 == z / 64
  {
    SplitSixteen(x % 4, y / 16);
    SplitFour(y % 16, z / 64);
  }

  lemma {:induction false} FirstRejoins(x: Byte, j: Sextet)
    requires j / 16 == x % 4
    ensures Completed(AFTER_ONE(First(x)), j) == [x]
  {
    assert x / 4 * 4 + x % 4 == x;
  }

  lemma {:induction false} SecondRejoins(y: Byte, j: Sextet, k: Sextet)
    requires j % 16 == y / 16 && k / 4 == y % 16
    ensures Completed(AFTER_TWO(j), k) == [y]
  {
    assert y / 16 * 16 + y % 16 == y;
  }

  lemma {:induction false} ThirdRejoins(z: Byte, k: Sextet)
    requires k % 4 == z / 64
    ensures Completed(AFTER_THREE(k), Fourth(z)) == [z]
  {
    assert z / 64 * 64 + z % 64 == z;
  }

  /** The bits of a byte split over two sextets come together again. */
  lemma {:induction false} BytesRejoin(x: Byte, y: Byte, z: Byte)
    ensures Completed(AFTER_ONE(First(x)), Second(x, y)) == [x]
    ensures Completed(AFTER_TWO(Second(x, y)), Third(y, z)) == [y]
    ensures Completed(AFTER_THREE(Third(y, z)), Fourth(z)) == [z]
  {
    MiddleSextets(x, y, z);
    FirstRejoins(x, Second(x, y));
    SecondRejoins(y, Second(x, y), Third(y, z));
    ThirdRejoins(z, Third(y, z));
  }

  lemma {:induction false} ThreeBytes(strict: bool, x: Byte, y: Byte, z: Byte, rest: string)
    ensures DecodeFrom(strict, START, Quad(x, y, z) + rest) == Prepend([x, y, z], DecodeFrom(strict, START, rest))
  {
    var j, k, l := Second(x, y), Third(y, z), Fourth(z);
    var end := DecodeFrom(strict, START, rest);
    assert Quad(x, y, z) + rest == Symbols(First(x), j) + ([Symbol(k)] + ([Symbol(l)] + rest));
    ConsumesTwo(strict, First(x), j, [Symbol(k)] + ([Symbol(l)] + rest));
    ConsumesSymbol(strict, AFTER_TWO(j), k, [Symbol(l)] + rest);
    ConsumesSymbol(strict, AFTER_THREE(k), l, rest);
    BytesRejoin(x, y, z);
    PrependTwice([y], [z], end);
    PrependTwice([x], [y] + [z], end);
    assert [x] + ([y] + [z]) == [x, y, z];
  }

  lemma {:induction false} PadsEnd(strict: bool, left: nat)
    ensures DecodeFrom(strict, State(2, left, 0, false), "==") == Some([])
    ensures DecodeFrom(strict, State(3, left, 0, false), "=") == Some([])
  {
    assert "=="[1..] == "=";
  }

  lemma {:induction false} LastByte(strict: bool, x: Byte)
    ensures Decode(strict, Padded(Spell([x]))) == Some([x])
  {
    var j := Second(x, 0);
    assert Pads(2) == "=" + Pads(1) == "==";
    assert Padded(Spell([x])) == Symbols(First(x), j) + "==";
    ConsumesTwo(strict, First(x), j, "==");
    PadsEnd(strict, j % 16);
    BytesRejoin(x, 0, 0);
    assert [x] + [] == [x];
  }

  lemma {:induction false} LastTwoBytes(strict: bool, x: Byte, y: Byte)
    ensures Decode(strict, Padded(Spell([x, y]))) == Some([x, y])
  {
    var j, k := Second(x, y), Third(y, 0);
    assert Pads(1) == "=";
    assert Padded(Spell([x, y])) == Symbols(First(x), j) + ([Symbol(k)] + "=");
    ConsumesTwo(strict, First(x), j, [Symbol(k)] + "=");
    ConsumesSymbol(strict, AFTER_TWO(j), k, "=");
    PadsEnd(strict, k % 4);
    BytesRejoin(x, y, 0);
    assert [x] + ([y] + []) == [x, y];
  }

  lemma {:induction false} FourMore(n: nat)
    ensures Lacking(4 + n) == Lacking(n)
  {
  }

  lemma {:induction false} PaddedAfterFour(four: string, rest: string)
    requires |four| == 4
    ensures Padded(four + rest) == four + Padded(rest)
  {
    FourMore(|rest|);
    var pads := Pads(Lacking(|rest|));
    assert (four + rest) + pads == four + (rest + pads);
  }

  lemma {:induction false} FirstThree(strict: bool, x: Byte, y: Byte, z: Byte, rest: seq<Byte>)
    requires Decode(strict, Padded(Spell(rest))) == Some(rest)
    ensures Decode(strict, Padded(Quad(x, y, z) + Spell(rest))) == Some([x, y, z] + rest)
  {
    PaddedAfterFour(Quad(x, y, z), Spell(rest));
    ThreeBytes(strict, x, y, z, Padded(Spell(rest)));
  }

  /** Decoding the padded spelling gives the bytes back, in either mode. */
  lemma {:induction false} RoundTrip(strict: bool, b: seq<Byte>)
    ensures Decode(strict, Padded(Spell(b))) == Some(b)
  {
    if |b| == 0 {
      assert Padded("") == "";
    } else if |b| == 1 {
      LastByte(strict, b[0]);
      assert [b[0]] == b;
    } else if |b| == 2 {
      LastTwoBytes(strict, b[0], b[1]);
      assert [b[0], b[1]] == b;
    } else {
      RoundTrip(strict, b[3..]);
      FirstThree(strict, b[0], b[1], b[2], b[3..]);
      assert [b[0], b[1], b[2]] + b[3..] == b;
    }
  }

  /** Different bytes have different spellings. */
  lemma {:induction false} SpellIsInjective(a: seq<Byte>, b: seq<Byte>)
    requires Spell(a) == Spell(b)
    ensures a == b
  {
    RoundTrip(true, a);
    RoundTrip(true, b);
  }

  predicate IsSymbol(c: char) {
    Bits(c).Some? && c != '+' && c != '/'
  }

  lemma {:induction false} SymbolIsSymbol(n: Sextet)
    ensures IsSymbol(Symbol(n))
  {
  }

  predicate IsSpelling(s: string) {
    forall i :: 0 <= i < |s| ==> IsSymbol(s[i])
  }

  lemma {:induction false} QuadIsSpelling(x: Byte, y: Byte, z: Byte)
    ensures IsSpelling(Quad(x, y, z))
  {
    SymbolIsSymbol(First(x));
    SymbolIsSymbol(Second(x, y));
    SymbolIsSymbol(Third(y, z));
    SymbolIsSymbol(Fourth(z));
  }

  /** A spelling has only characters of the URL-safe alphabet. */
  lemma {:induction false} SpellIsSpelling(b: seq<Byte>)
    ensures IsSpelling(Spell(b))
  {
    if |b| >= 3 {
      SpellIsSpelling(b[3..]);
      QuadIsSpelling(b[0], b[1], b[2]);
    } else if |b| > 0 {
      QuadIsSpelling(b[0], if |b| == 2 then b[1] else 0, 0);
      var quad := Quad(b[0], if |b| == 2 then b[1] else 0, 0);
      assert Spell(b) == quad[..|b| + 1];
    }
  }

  /** A spelling takes four characters for three bytes, rounded up. */
  lemma {:induction false} SpellLength(b: seq<Byte>)
    ensures 4 * |b| <= 3 * |Spell(b)| <= 4 * |b| + 2
  {
    if |b| >= 3 {
      SpellLength(b[3..]);
    }
  }

  /** The bits that a last group of two or three characters carries beyond its bytes are zero. */
  predicate HasNoSpareBits(s: string)
    requires IsSpelling(s)
  {
    && (|s| % 4 == 2 ==> Bits(s[|s| - 1]).value % 16 == 0)
    && (|s| % 4 == 3 ==> Bits(s[|s| - 1]).value % 4 == 0)
  }

  /** The spellings that encoding produces, told by their characters. */
  predicate IsCanonical(s: string) {
    IsSpelling(s) && |s| % 4 != 1 && HasNoSpareBits(s)
  }

  lemma {:induction false} SymbolOfBits(c: char)
    requires IsSymbol(c)
    ensures Symbol(Bits(c).value) == c
  {
  }

  /** The three bytes of four sextets. */
  function Bytes(i: Sextet, j: Sextet, k: Sextet, l: Sextet): (Byte, Byte, Byte) {
    (i * 4 + j / 16, j % 16 * 16 + k / 4, k % 4 * 64 + l)
  }

  lemma {:induction false} SextetsRejoin(i: Sextet, j: Sextet, k: Sextet, l: Sextet)
    ensures var (x, y, z) := Bytes(i, j, k, l);
            First(x) == i && Second(x, y) == j && Third(y, z) == k && Fourth(z) == l
  {
    var (x, y, z) := Bytes(i, j, k, l);
    SplitFour(i, j / 16);
    SplitSixteen(j % 16, k / 4);
    assert z / 64 == k % 4 && z % 64 == l;
  }

  /** The bytes that a canonical spelling spells. */
  function Unspell(s: string): seq<Byte>
    requires IsSpelling(s)
    decreases |s|
  {
    if |s| < 2 then []
    else
      var i, j := Bits(s[0]).value, Bits(s[1]).value;
      if |s| == 2 then [Bytes(i, j, 0, 0).0]
      else
        var k := Bits(s[2]).value;
        if |s| == 3 then [Bytes(i, j, k, 0).0, Bytes(i, j, k, 0).1]
        else
          var bytes := Bytes(i, j, k, Bits(s[3]).value);
          [bytes.0, bytes.1, bytes.2] + Unspell(s[4..])
  }

  lemma {:induction false} LastGroup(s: string)
    requires IsCanonical(s) && |s| < 4
    ensures Spell(Unspell(s)) == s
  {
    if |s| >= 2 {
      var i, j := Bits(s[0]).value, Bits(s[1]).value;
      SymbolOfBits(s[0]);
      SymbolOfBits(s[1]);
      if |s| == 2 {
        SextetsRejoin(i, j, 0, 0);
      } else {
        SymbolOfBits(s[2]);
        SextetsRejoin(i, j, Bits(s[2]).value, 0);
      }
    }
  }

  /** Four symbols spell the three bytes of their sextets. */
  lemma {:induction false} SpelledGroup(s: string)
    requires IsSpelling(s) && |s| >= 4
    ensures var (x, y, z) := Bytes(Bits(s[0]).value, Bits(s[1]).value, Bits(s[2]).value, Bits(s[3]).value);
            Quad(x, y, z) == s[..4]
  {
    SextetsRejoin(Bits(s[0]).value, Bits(s[1]).value, Bits(s[2]).value, Bits(s[3]).value);
    SymbolOfBits(s[0]);
    SymbolOfBits(s[1]);
    SymbolOfBits(s[2]);
    SymbolOfBits(s[3]);
  }

  lemma {:induction false} SpellFront(front: seq<Byte>, rest: seq<Byte>)
    requires |front| == 3
    ensures Spell(front + rest) == Quad(front[0], front[1], front[2]) + Spell(rest)
  {
    assert (front + rest)[3..] == rest;
  }

  lemma {:induction false} CanonicalRest(s: string)
    requires IsCanonical(s) && |s| >= 4
    ensures IsCanonical(s[4..])
  {
    assert |s[4..]| % 4 == |s| % 4;
    if |s| > 4 {
      assert s[4..][|s| - 5] == s[|s| - 1];
    }
  }

  lemma {:induction false} SpellUndoesUnspell(s: string)
    requires IsCanonical(s)
    ensures Spell(Unspell(s)) == s
    decreases |s|
  {
    if |s| < 4 {
      LastGroup(s);
    } else {
      var (x, y, z) := Bytes(Bits(s[0]).value, Bits(s[1]).value, Bits(s[2]).value, Bits(s[3]).value);
      SpelledGroup(s);
      CanonicalRest(s);
      SpellUndoesUnspell(s[4..]);
      SpellFront([x, y, z], Unspell(s[4..]));
      assert s[..4] + s[4..] == s;
    }
  }

  lemma {:induction false} NoSpareBits(x: Byte, y: Byte)
    ensures Second(x, 0) % 16 == 0 && Third(y, 0) % 4 == 0
  {
  }

  lemma {:induction false} LastIsCanonical(b: seq<Byte>)
    requires |b| < 3
    ensures IsCanonical(Spell(b))
  {
    SpellIsSpelling(b);
    if |b| > 0 {
      NoSpareBits(b[0], b[|b| - 1]);
      BitsOfSymbol(Second(b[0], 0));
      BitsOfSymbol(Third(b[|b| - 1], 0));
    }
  }

  lemma {:induction false} FourMoreAreCanonical(four: string, s: string)
    requires |four| == 4 && IsSpelling(four) && IsCanonical(s)
    ensures IsCanonical(four + s)
  {
    assert |four + s| % 4 == |s| % 4;
    if s != "" {
      assert (four + s)[|s| + 3] == s[|s| - 1];
    }
  }

  lemma {:induction false} SpellIsCanonical(b: seq<Byte>)
    ensures IsCanonical(Spell(b))
  {
    if |b| < 3 {
      LastIsCanonical(b);
    } else {
      SpellIsCanonical(b[3..]);
      QuadIsSpelling(b[0], b[1], b[2]);
      FourMoreAreCanonical(Quad(b[0], b[1], b[2]), Spell(b[3..]));
    }
  }

  /** An accepted text spells its bytes canonically if and only if its characters say so. */
  lemma {:induction false} SpellsExactlyWhenCanonical(strict: bool, s: string)
    requires Decode(strict, Padded(s)).Some?
    ensures Spell(Decode(strict, Padded(s)).value) == s <==> IsCanonical(s)
  {
    SpellIsCanonical(Decode(strict, Padded(s)).value);
    if IsCanonical(s) {
      SpellUndoesUnspell(s);
      RoundTrip(strict, Unspell(s));
    }
  }
}
