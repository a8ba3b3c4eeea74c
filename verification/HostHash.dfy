/**
 The FNV-1a hash behind opaque host ids.  A host id is a sequence of UTF-16
 units.  A 32-bit JavaScript integer is represented by its unsigned value,
 which is what `>>> 0` prints.
 */
module HostHash {

  const UNIT_LIMIT := 0x1_0000
  const WORD_LIMIT := 0x1_0000_0000
  const OFFSET_BASIS: Word := 0x811c_9dc5
  const PRIME := 0x0100_0193
  const PRIME_INVERSE := 0x359c_449b   // modulo WORD_LIMIT

  type Unit = c: nat | c < UNIT_LIMIT
  type Word = h: nat | h < WORD_LIMIT   // `h >>> 0`

  // Bitwise exclusive or.
  function Xor(a: nat, b: nat): nat
    decreases a + b
  {
    if a == 0 && b == 0 then 0 else 2 * Xor(a / 2, b / 2) + (a + b) % 2
  }

  lemma XorHalves(a: nat, b: nat)
    ensures Xor(a, b) / 2 == Xor(a / 2, b / 2)
    ensures Xor(a, b) % 2 == (a + b) % 2
  {
  }

  lemma XorUnfolds(a: nat, b: nat)
    ensures Xor(a, b) == 2 * Xor(a / 2, b / 2) + (a + b) % 2
  {
  }

  lemma {:induction false} XorTwice(a: nat, b: nat)
    ensures Xor(Xor(a, b), b) == a
    decreases a + b
  {
    if a != 0 || b != 0 {
      XorTwice(a / 2, b / 2);
      XorTwiceAtBit(a, b, Xor(a, b));
    }
  }

  // The last bit and the other bits of the second exclusive or.
  lemma XorTwiceAtBit(a: nat, b: nat, r: nat)
    requires r == Xor(a, b) && Xor(Xor(a / 2, b / 2), b / 2) == a / 2
    ensures Xor(r, b) == a
  {
    XorHalves(a, b);
    XorUnfolds(r, b);
    BitTwice(a, b, r);
  }

  lemma BitTwice(a: nat, b: nat, r: nat)
    requires r % 2 == (a + b) % 2
    ensures 2 * (a / 2) + (r + b) % 2 == a
  {
  }

  lemma {:induction false} XorBelow(a: nat, b: nat, limit: nat, e: nat)
    requires limit == Power2(e) && a < limit && b < limit
    ensures Xor(a, b) < limit
    decreases e
  {
    if e > 0 && (a != 0 || b != 0) {
      XorBelow(a / 2, b / 2, Power2(e - 1), e - 1);
    }
  }

  function Power2(e: nat): nat {
    if e == 0 then 1 else 2 * Power2(e - 1)
  }

  // `h ^= c` on 32-bit words.
  function Mix(h: Word, c: Unit): Word {
    XorIsWord(h, c);
    Xor(h, c)
  }

  lemma XorIsWord(h: Word, c: Unit)
    ensures Xor(h, c) < WORD_LIMIT
  {
    assert Power2(8) == 0x100;
    assert Power2(16) == 0x1_0000;
    assert Power2(24) == 0x100_0000;
    assert Power2(32) == 0x1_0000_0000;
    XorBelow(h, c, WORD_LIMIT, 32);
  }

  // `Math.imul(h, m)`, read as an unsigned word.
  function Imul(h: Word, m: nat): Word {
    h * m % WORD_LIMIT
  }

  function Step(h: Word, c: Unit): Word {
    Imul(Mix(h, c), PRIME)
  }

  // Folds the units of `s`, first to last, into the accumulator.
  function Fold(h: Word, s: seq<Unit>): Word {
    if s == [] then h else Step(Fold(h, s[..|s| - 1]), s[|s| - 1])
  }

  // ----- Every step is a bijection of the 32-bit states -----

  lemma PrimeIsInvertible(x: Word)
    ensures Imul(Imul(x, PRIME), PRIME_INVERSE) == x
    ensures Imul(Imul(x, PRIME_INVERSE), PRIME) == x
  {
    InverseUndoes(x, PRIME, PRIME_INVERSE);
    InverseUndoes(x, PRIME_INVERSE, PRIME);
  }

  lemma InverseUndoes(x: Word, m: nat, n: nat)
    requires m * n == 1 + 3513497 * WORD_LIMIT
    ensures Imul(Imul(x, m), n) == x
  {
    var k, r := x * m / WORD_LIMIT, x * m % WORD_LIMIT;
    var q := 3513497 * x - k * n;
    calc {
      r * n;
      (x * m - WORD_LIMIT * k) * n;
      { Distribute(x * m, WORD_LIMIT * k, n); }
      x * m * n - WORD_LIMIT * k * n;
      { Associate(x, m, n); Associate(WORD_LIMIT, k, n); }
      x * (m * n) - WORD_LIMIT * (k * n);
      x + WORD_LIMIT * q;
    }
    RemainderIs(r * n, q, x);
  }

  lemma Distribute(a: int, b: int, c: int)
    ensures (a - b) * c == a * c - b * c
  {
  }

  lemma Associate(a: int, b: int, c: int)
    ensures a * b * c == a * (b * c)
  {
  }

  lemma RemainderIs(n: int, q: int, x: int)
    requires n == x + WORD_LIMIT * q && 0 <= x < WORD_LIMIT
    ensures n % WORD_LIMIT == x
  {
  }

  function Unstep(h: Word, c: Unit): Word {
    Mix(Imul(h, PRIME_INVERSE), c)
  }

  // Runs the hash backwards over a known suffix.
  function Unfold(h: Word, s: seq<Unit>): Word
    decreases |s|
  {
    if s == [] then h else Unfold(Unstep(h, s[|s| - 1]), s[..|s| - 1])
  }

  lemma StepsInvert(h: Word, c: Unit)
    ensures Unstep(Step(h, c), c) == h
    ensures Step(Unstep(h, c), c) == h
  {
    PrimeIsInvertible(Mix(h, c));
    PrimeIsInvertible(h);
    XorTwice(h, c);
    XorTwice(Imul(h, PRIME_INVERSE), c);
  }

  /** A known suffix can be taken back, from every state and in both directions. */
  lemma {:induction false} FoldIsBijective(h: Word, s: seq<Unit>)
    ensures Unfold(Fold(h, s), s) == h
    ensures Fold(Unfold(h, s), s) == h
    decreases |s|
  {
    if s != [] {
      var last := |s| - 1;
      StepsInvert(Fold(h, s[..last]), s[last]);
      FoldIsBijective(h, s[..last]);
      FoldIsBijective(Unstep(h, s[last]), s[..last]);
      StepsInvert(h, s[last]);
    }
  }

  lemma {:induction false} XorCommutes(a: nat, b: nat)
    ensures Xor(a, b) == Xor(b, a)
    decreases a + b
  {
    if a != 0 || b != 0 { XorCommutes(a / 2, b / 2); }
  }

  lemma StepSeparatesUnits(h: Word, c1: Unit, c2: Unit)
    requires c1 != c2
    ensures Step(h, c1) != Step(h, c2)
  {
    PrimeIsInvertible(Mix(h, c1));
    PrimeIsInvertible(Mix(h, c2));
    XorCommutes(h, c1);
    XorCommutes(h, c2);
    XorTwice(c1, h);
    XorTwice(c2, h);
  }

  lemma {:induction false} FoldConcat(h: Word, s: seq<Unit>, t: seq<Unit>)
    ensures Fold(h, s + t) == Fold(Fold(h, s), t)
  {
    if t == [] {
      assert s + t == s;
    } else {
      var last := |t| - 1;
      assert (s + t)[..|s + t| - 1] == s + t[..last];
      FoldConcat(h, s, t[..last]);
    }
  }

  // ----- The printed hash -----

  const HEX_DIGITS := "0123456789abcdef"

  // `n.toString(16)`
  function Hex(n: nat): (s: string)
    ensures |s| > 0 && forall i :: 0 <= i < |s| ==> s[i] in HEX_DIGITS
  {
    if n < 16 then [HEX_DIGITS[n]] else Hex(n / 16) + [HEX_DIGITS[n % 16]]
  }

  // `s.padStart(width, "0")`
  function PadStart(s: string, width: nat): (r: string)
    ensures |s| <= width ==> |r| == width
    decreases width - |s|
  {
    if |s| < width then PadStart("0" + s, width) else s
  }

  function DigitValue(c: char): nat {
    if '0' <= c <= '9' then (c - '0') as nat else if 'a' <= c <= 'f' then (c - 'a') as nat + 10 else 0
  }

  function ParseHex(s: string): nat {
    if s == "" then 0 else ParseHex(s[..|s| - 1]) * 16 + DigitValue(s[|s| - 1])
  }

  lemma {:induction false} HexBelow(n: nat, width: nat, limit: nat)
    requires width > 0 && n < limit && limit == Power16(width)
    ensures |Hex(n)| <= width
    decreases width
  {
    if n >= 16 {
      HexBelow(n / 16, width - 1, Power16(width - 1));
    }
  }

  function Power16(e: nat): nat {
    if e == 0 then 1 else 16 * Power16(e - 1)
  }

  lemma HexDigitValue(d: nat)
    requires d < 16
    ensures DigitValue(HEX_DIGITS[d]) == d
  {
  }

  lemma ParseHexAppend(s: string, c: char)
    ensures ParseHex(s + [c]) == ParseHex(s) * 16 + DigitValue(c)
  {
    assert (s + [c])[..|s|] == s;
  }

  lemma {:induction false} ParseHexPrints(n: nat)
    ensures ParseHex(Hex(n)) == n
  {
    if n < 16 {
      HexDigitValue(n);
      ParseHexAppend("", HEX_DIGITS[n]);
      assert "" + [HEX_DIGITS[n]] == [HEX_DIGITS[n]];
    } else {
      ParseHexPrints(n / 16);
      HexDigitValue(n % 16);
      ParseHexAppend(Hex(n / 16), HEX_DIGITS[n % 16]);
    }
  }

  lemma {:induction false} LeadingZero(s: string)
    ensures ParseHex("0" + s) == ParseHex(s)
  {
    if s == "" {
      assert "0" + s == "0";
    } else {
      var last := |s| - 1;
      LeadingZero(s[..last]);
      assert ("0" + s)[..|s|] == "0" + s[..last];
    }
  }

  lemma {:induction false} PaddingKeepsValue(s: string, width: nat)
    ensures ParseHex(PadStart(s, width)) == ParseHex(s)
    decreases width - |s|
  {
    if |s| < width {
      LeadingZero(s);
      PaddingKeepsValue("0" + s, width);
    }
  }

  function Print(h: Word): string {
    PadStart(Hex(h), 8)
  }

  /** The printed hash is eight hexadecimal digits and determines the 32-bit state. */
  lemma PrintIsInjective(h: Word)
    ensures |Print(h)| == 8
    ensures ParseHex(Print(h)) == h
    ensures forall h': Word :: Print(h') == Print(h) ==> h' == h
  {
    assert Power16(4) == 0x1_0000;
    assert Power16(8) == 0x1_0000_0000;
    HexBelow(h, 8, WORD_LIMIT);
    ParseHexPrints(h);
    PaddingKeepsValue(Hex(h), 8);
    forall h': Word | Print(h') == Print(h) ensures h' == h {
      ParseHexPrints(h');
      PaddingKeepsValue(Hex(h'), 8);
    }
  }

  // ----- hashHostId -----

  function Hash(hostId: seq<Unit>): string {
    Print(Fold(OFFSET_BASIS, hostId))
  }

  method HashHostId(hostId: seq<Unit>) returns (hid: string)
    ensures hid == Hash(hostId)
    ensures |hid| == 8
  {
    var h: Word := OFFSET_BASIS;
    for i := 0 to |hostId|
      invariant h == Fold(OFFSET_BASIS, hostId[..i])
    {
      h := Mix(h, hostId[i]);
      h := Imul(h, PRIME);
      assert hostId[..i + 1][..i] == hostId[..i];
    }
    assert hostId[..|hostId|] == hostId;
    PrintIsInjective(h);
    hid := PadStart(Hex(h), 8);
  }

  lemma HexNext(n: nat, d: nat, s: string)
    requires n > 0 && d < 16 && Hex(n) == s
    ensures Hex(16 * n + d) == s + [HEX_DIGITS[d]]
  {
    Digits16(n, d);
  }

  lemma Digits16(n: nat, d: nat)
    requires d < 16
    ensures (16 * n + d) / 16 == n && (16 * n + d) % 16 == d
  {
  }

  lemma {:induction false} XorZero(a: nat)
    ensures Xor(a, 0) == a
  {
    if a != 0 { XorZero(a / 2); }
  }

  lemma HexOfBasis()
    ensures Hex(0x811c_9dc5) == "811c9dc5"
  {
    assert Hex(0x8) == "8";
    HexNext(0x8, 0x1, "8");
    HexNext(0x81, 0x1, "81");
    HexNext(0x811, 0xc, "811");
    HexNext(0x811c, 0x9, "811c");
    HexNext(0x811c9, 0xd, "811c9");
    HexNext(0x811c9d, 0xc, "811c9d");
    HexNext(0x811c9dc, 0x5, "811c9dc");
  }

  lemma HexOfA()
    ensures Hex(0xe40c_292c) == "e40c292c"
  {
    assert Hex(0xe) == "e";
    HexNext(0xe, 0x4, "e");
    HexNext(0xe4, 0x0, "e4");
    HexNext(0xe40, 0xc, "e40");
    HexNext(0xe40c, 0x2, "e40c");
    HexNext(0xe40c2, 0x9, "e40c2");
    HexNext(0xe40c29, 0x2, "e40c29");
    HexNext(0xe40c292, 0xc, "e40c292");
  }

  lemma MixOfA()
    ensures Xor(0x811c_9dc5, 0x61) == 0x811c_9da4
  {
    XorZero(0x102393b);
    XorUnfolds(0x2047277, 0x1);
    XorUnfolds(0x408e4ee, 0x3);
    XorUnfolds(0x811c9dc, 0x6);
    XorUnfolds(0x102393b8, 0xc);
    XorUnfolds(0x20472771, 0x18);
    XorUnfolds(0x408e4ee2, 0x30);
    XorUnfolds(0x811c9dc5, 0x61);
  }

  lemma FoldOne(h: Word, c: Unit)
    ensures Fold(h, []) == h && Fold(h, [c]) == Step(h, c)
  {
    assert [c][..0] == [];
  }

  lemma StepOf(h: Word, c: Unit, mixed: Word, laps: nat, r: Word)
    requires Xor(h, c) == mixed && mixed * PRIME == laps * WORD_LIMIT + r
    ensures Step(h, c) == r
  {
    RemainderIs(mixed * PRIME, laps, r);
  }

  lemma PrintFull(h: Word, s: string)
    requires Hex(h) == s && |s| == 8
    ensures Print(h) == s
  {
  }

  /** Two known hashes: of the empty id, and of the id `a`. */
  lemma KnownHashes()
    ensures Hash([]) == "811c9dc5"
    ensures Hash([0x61]) == "e40c292c"
  {
    FoldOne(OFFSET_BASIS, 0x61);
    HexOfBasis();
    PrintFull(OFFSET_BASIS, "811c9dc5");
    MixOfA();
    StepOf(OFFSET_BASIS, 0x61, 0x811c_9da4, 8_461_672, 0xe40c_292c);
    HexOfA();
    PrintFull(0xe40c_292c, "e40c292c");
  }

  /** Changing one unit of a host id, anywhere in it, always changes its hash. */
  lemma OneUnitChangesTheHash(p: seq<Unit>, c1: Unit, c2: Unit, s: seq<Unit>)
    requires c1 != c2
    ensures Hash(p + [c1] + s) != Hash(p + [c2] + s)
  {
    var h := Fold(OFFSET_BASIS, p);
    FoldConcat(OFFSET_BASIS, p + [c1], s);
    FoldConcat(OFFSET_BASIS, p + [c2], s);
    FoldConcat(OFFSET_BASIS, p, [c1]);
    FoldConcat(OFFSET_BASIS, p, [c2]);
    assert [c1][..0] == [] && [c2][..0] == [];
    StepSeparatesUnits(h, c1, c2);
    FoldIsBijective(Step(h, c1), s);
    FoldIsBijective(Step(h, c2), s);
    PrintIsInjective(Fold(Step(h, c1), s));
  }
}
