/** `BitShuffler`: moves the low bits of a Java `int` (`bv32`) or `long` (`bv64`)
    to new positions by a permutation of bit numbers, and back again by the
    inverse permutation. */
module BitShuffling {
  import opened JavaLang

  // ---------------------------------------------------------------- single bits

  /* Bit numbers are `int`s in the shuffle tables but shift distances on `bv32`
     and `bv64`. Converting an `int` to a bit-vector with `as` hands the solver a
     non-linear integer-to-bit-vector translation on every use. So a bit number is
     built here by counting up in `bv8` (`Pos8`), and the few facts the proofs need
     about it are lemmas: it is injective and ordered (`PosValue`, `PosOrder8`,
     `PosSame*`, `PosLess*`), it stays below the width (`PosBound*`), and the
     concrete values 0..63 (`BitNumbers*`). */

  /** A bit number as a shift distance, counted up one at a time. */
  function Pos8(i: int): bv8
    requires 0 <= i <= 64
  {
    if i == 0 then 0 else Pos8(i - 1) + 1
  }

  function Pos32(i: int): bv32
    requires 0 <= i <= 64
  {
    Pos8(i) as bv32
  }

  function Pos64(i: int): bv64
    requires 0 <= i <= 64
  {
    Pos8(i) as bv64
  }

  predicate Bit32(n: bv32, j: bv32)
    requires j < 32
  {
    (n >> j) & 1 == 1
  }

  predicate Bit64(n: bv64, j: bv64)
    requires j < 64
  {
    (n >> j) & 1 == 1
  }

  /** Bit `j` of an `int`, counted from the least significant bit. */
  predicate BitAt32(n: bv32, j: int)
    requires 0 <= j < 32
  {
    PosBound32(j);
    Bit32(n, Pos32(j))
  }

  /** Bit `j` of a `long`. */
  predicate BitAt64(n: bv64, j: int)
    requires 0 <= j < 64
  {
    PosBound64(j);
    Bit64(n, Pos64(j))
  }

  function Low32(k: bv32): bv32
    requires k <= 32
  {
    ((1 as bv32) << k) - 1
  }

  function Low64(k: bv64): bv64
    requires k <= 64
  {
    ((1 as bv64) << k) - 1
  }

  /** The `len` low bits of an `int`. */
  function Mask32(len: int): bv32
    requires 0 <= len <= 32
  {
    PosBound32(len);
    Low32(Pos32(len))
  }

  /** The `len` low bits of a `long`. */
  function Mask64(len: int): bv64
    requires 0 <= len <= 64
  {
    PosBound64(len);
    Low64(Pos64(len))
  }

  function Or32(a: bv32, b: bv32): bv32
  {
    a | b
  }

  function Or64(a: bv64, b: bv64): bv64
  {
    a | b
  }

  function And32(a: bv32, b: bv32): bv32
  {
    a & b
  }

  function And64(a: bv64, b: bv64): bv64
  {
    a & b
  }

  /** `n & mask`: the `len` low bits of an `int`, the others cleared. */
  function KeepLow32(n: bv32, len: int): bv32
    requires 0 <= len <= 32
  {
    And32(n, Mask32(len))
  }

  /** The `len` low bits of a `long`, the others cleared. */
  function KeepLow64(n: bv64, len: int): bv64
    requires 0 <= len <= 64
  {
    And64(n, Mask64(len))
  }

  /** Java's widening of an `int` to a `long`: sign extension. */
  function Widen(x: bv32): bv64
  {
    if x >> 31 == 1 then (x as bv64) | 0xFFFF_FFFF_0000_0000 else x as bv64
  }

  // Bit numbers: each fact about `Pos` goes through `bv8`, where the solver is quick.

  lemma SuccValue8(x: bv8)
    requires x as int < 255
    ensures (x + 1) as int == x as int + 1
  {
  }

  lemma {:induction false} PosValue(i: int)
    requires 0 <= i <= 64
    ensures Pos8(i) as int == i
  {
    if i > 0 {
      PosValue(i - 1);
      SuccValue8(Pos8(i - 1));
    }
  }

  lemma Less8(a: bv8, b: bv8)
    ensures (a < b) == (a as int < b as int)
    ensures (a == b) == (a as int == b as int)
  {
  }

  lemma Extend32(a: bv8, b: bv8)
    ensures (a as bv32 == b as bv32) == (a == b)
    ensures (a as bv32 < b as bv32) == (a < b)
  {
  }

  lemma Extend64(a: bv8, b: bv8)
    ensures (a as bv64 == b as bv64) == (a == b)
    ensures (a as bv64 < b as bv64) == (a < b)
  {
  }

  lemma PosOrder8(j: int, s: int)
    requires 0 <= j <= 64 && 0 <= s <= 64
    ensures (Pos8(j) < Pos8(s)) == (j < s)
    ensures (Pos8(j) == Pos8(s)) == (j == s)
  {
    PosValue(j);
    PosValue(s);
    Less8(Pos8(j), Pos8(s));
  }

  lemma PosSame32(j: int, s: int)
    requires 0 <= j <= 64 && 0 <= s <= 64
    ensures (Pos32(j) == Pos32(s)) == (j == s)
  {
    PosOrder8(j, s);
    Extend32(Pos8(j), Pos8(s));
  }

  lemma PosSame64(j: int, s: int)
    requires 0 <= j <= 64 && 0 <= s <= 64
    ensures (Pos64(j) == Pos64(s)) == (j == s)
  {
    PosOrder8(j, s);
    Extend64(Pos8(j), Pos8(s));
  }

  lemma PosLess32(j: int, s: int)
    requires 0 <= j <= 64 && 0 <= s <= 64
    ensures (Pos32(j) < Pos32(s)) == (j < s)
  {
    PosOrder8(j, s);
    Extend32(Pos8(j), Pos8(s));
  }

  lemma PosLess64(j: int, s: int)
    requires 0 <= j <= 64 && 0 <= s <= 64
    ensures (Pos64(j) < Pos64(s)) == (j < s)
  {
    PosOrder8(j, s);
    Extend64(Pos8(j), Pos8(s));
  }

  lemma PosBound32(k: int)
    requires 0 <= k <= 32
    ensures Pos32(k) <= 32 && (k < 32 ==> Pos32(k) < 32)
  {
    PosLess32(k, 32);
    PosLess32(k, 33);
    PosValue(32);
    PosValue(33);
  }

  lemma PosBound64(k: int)
    requires 0 <= k <= 64
    ensures Pos64(k) <= 64 && (k < 64 ==> Pos64(k) < 64)
  {
    PosLess64(k, 64);
    PosValue(64);
  }

  // Leaf facts, on bit-vectors only.

  lemma OrBit32(a: bv32, b: bv32, j: bv32)
    requires j < 32
    ensures Bit32(a | b, j) == (Bit32(a, j) || Bit32(b, j))
  {
  }

  lemma OrBit64(a: bv64, b: bv64, j: bv64)
    requires j < 64
    ensures Bit64(a | b, j) == (Bit64(a, j) || Bit64(b, j))
  {
  }

  lemma ZeroBit32(j: bv32)
    requires j < 32
    ensures !Bit32(0, j)
  {
  }

  lemma ZeroBit64(j: bv64)
    requires j < 64
    ensures !Bit64(0, j)
  {
  }

  /** `(n & (1 << i)) >>> i` on an `int`: bit `i` of `n` as 0 or 1. */
  function BitValue32(n: bv32, i: bv32): bv32
    requires i < 32
  {
    (n & (1 << i)) >> i
  }

  /** The same on a `long`, with the mask `1L << i`. */
  function BitValue64(n: bv64, i: bv64): bv64
    requires i < 64
  {
    (n & (1 << i)) >> i
  }

  /** The same on a `long` with the mask written `1 << i`: an `int` shifted by
      `m`, the distance `i & 31`, and sign-extended before the `&`. */
  function BitValueIntMask(n: bv64, m: bv32, i: bv64): bv64
    requires m < 32 && i < 64
  {
    (n & Widen(1 << m)) >> i
  }

  /** `bit << s` on an `int`. */
  function MoveBit32(n: bv32, i: bv32, s: bv32): bv32
    requires i < 32 && s < 32
  {
    BitValue32(n, i) << s
  }

  /** `bit << s` on a `long`. */
  function MoveBit64(n: bv64, i: bv64, s: bv64): bv64
    requires i < 64 && s < 64
  {
    BitValue64(n, i) << s
  }

  /** `bit << s` on a `long`, the bit taken with the `int` mask. */
  function MoveBitIntMask(n: bv64, m: bv32, i: bv64, s: bv64): bv64
    requires m < 32 && i < 64 && s < 64
  {
    BitValueIntMask(n, m, i) << s
  }

  lemma BitValueIs32(n: bv32, i: bv32)
    requires i < 32
    ensures BitValue32(n, i) == if Bit32(n, i) then 1 else 0
  {
  }

  lemma BitValueIs64(n: bv64, i: bv64)
    requires i < 64
    ensures BitValue64(n, i) == if Bit64(n, i) then 1 else 0
  {
  }

  lemma ShiftOne32(b: bv32, s: bv32, j: bv32)
    requires b <= 1 && s < 32 && j < 32
    ensures Bit32(b << s, j) == (j == s && b == 1)
  {
  }

  lemma ShiftOne64(b: bv64, s: bv64, j: bv64)
    requires b <= 1 && s < 64 && j < 64
    ensures Bit64(b << s, j) == (j == s && b == 1)
  {
  }

  /** A moved bit lands on bit `s` and nowhere else. */
  lemma StepBit32(n: bv32, i: bv32, s: bv32, j: bv32)
    requires i < 32 && s < 32 && j < 32
    ensures Bit32(MoveBit32(n, i, s), j) == (j == s && Bit32(n, i))
  {
    BitValueIs32(n, i);
    ShiftOne32(BitValue32(n, i), s, j);
  }

  lemma StepBit64(n: bv64, i: bv64, s: bv64, j: bv64)
    requires i < 64 && s < 64 && j < 64
    ensures Bit64(MoveBit64(n, i, s), j) == (j == s && Bit64(n, i))
  {
    BitValueIs64(n, i);
    ShiftOne64(BitValue64(n, i), s, j);
  }

  lemma AndBit32(a: bv32, b: bv32, j: bv32)
    requires j < 32
    ensures Bit32(a & b, j) == (Bit32(a, j) && Bit32(b, j))
  {
  }

  lemma AndBit64(a: bv64, b: bv64, j: bv64)
    requires j < 64
    ensures Bit64(a & b, j) == (Bit64(a, j) && Bit64(b, j))
  {
  }

  lemma LowBit32(k: bv32, j: bv32)
    requires k <= 32 && j < 32
    ensures Bit32(Low32(k), j) == (j < k)
  {
  }

  lemma LowBit64(k: bv64, j: bv64)
    requires k <= 64 && j < 64
    ensures Bit64(Low64(k), j) == (j < k)
  {
  }

  lemma OneBit64(j: bv64)
    requires j < 31
    ensures !Bit64(0x1_0000_0000, j)
  {
  }

  /** For `k <= 30` the `int` mask `1 << k` widens to the `long` mask `1L << k`. */
  lemma WidenOne(k: bv8)
    requires k <= 30
    ensures Widen(1 << (k as bv32)) == 1 << (k as bv64)
  {
  }

  lemma MaskSmall(k: bv8, n: bv64)
    requires k <= 30
    ensures BitValueIntMask(n, k as bv32, k as bv64) == BitValue64(n, k as bv64)
  {
    WidenOne(k);
  }

  lemma WidenSmall(k: bv8, s: bv64, n: bv64)
    requires k <= 30 && s < 64
    ensures MoveBitIntMask(n, k as bv32, k as bv64, s) == MoveBit64(n, k as bv64, s)
  {
    MaskSmall(k, n);
  }

  // Extensionality, a byte at a time.

  /** `x` and `y` agree on every bit. */
  predicate SameBits32(x: bv32, y: bv32)
  {
    forall j :: 0 <= j < 32 ==> BitAt32(x, j) == BitAt32(y, j)
  }

  predicate SameBits64(x: bv64, y: bv64)
  {
    forall j :: 0 <= j < 64 ==> BitAt64(x, j) == BitAt64(y, j)
  }

  lemma SameBit32(x: bv32, y: bv32, j: int, c: bv32)
    requires SameBits32(x, y) && 0 <= j < 32 && Pos32(j) == c
    ensures c < 32 && Bit32(x, c) == Bit32(y, c)
  {
    PosBound32(j);
    assert BitAt32(x, j) == BitAt32(y, j);
  }

  lemma SameBit64(x: bv64, y: bv64, j: int, c: bv64)
    requires SameBits64(x, y) && 0 <= j < 64 && Pos64(j) == c
    ensures c < 64 && Bit64(x, c) == Bit64(y, c)
  {
    PosBound64(j);
    assert BitAt64(x, j) == BitAt64(y, j);
  }


  /* The bit numbers 0..63 as concrete shift distances, eight per lemma so that
     each proof stays small. */
  lemma BitNumbers0()
    ensures Pos8(0) == 0 &&
            Pos8(1) == 1 &&
            Pos8(2) == 2 &&
            Pos8(3) == 3 &&
            Pos8(4) == 4 &&
            Pos8(5) == 5 &&
            Pos8(6) == 6 &&
            Pos8(7) == 7
  {
  }

  lemma BitNumbers1()
    ensures Pos8(8) == 8 &&
            Pos8(9) == 9 &&
            Pos8(10) == 10 &&
            Pos8(11) == 11 &&
            Pos8(12) == 12 &&
            Pos8(13) == 13 &&
            Pos8(14) == 14 &&
            Pos8(15) == 15
  {
    BitNumbers0();
  }

  lemma BitNumbers2()
    ensures Pos8(16) == 16 &&
            Pos8(17) == 17 &&
            Pos8(18) == 18 &&
            Pos8(19) == 19 &&
            Pos8(20) == 20 &&
            Pos8(21) == 21 &&
            Pos8(22) == 22 &&
            Pos8(23) == 23
  {
    BitNumbers1();
  }

  lemma BitNumbers3()
    ensures Pos8(24) == 24 &&
            Pos8(25) == 25 &&
            Pos8(26) == 26 &&
            Pos8(27) == 27 &&
            Pos8(28) == 28 &&
            Pos8(29) == 29 &&
            Pos8(30) == 30 &&
            Pos8(31) == 31
  {
    BitNumbers2();
  }

  lemma BitNumbers4()
    ensures Pos8(32) == 32 &&
            Pos8(33) == 33 &&
            Pos8(34) == 34 &&
            Pos8(35) == 35 &&
            Pos8(36) == 36 &&
            Pos8(37) == 37 &&
            Pos8(38) == 38 &&
            Pos8(39) == 39
  {
    BitNumbers3();
  }

  lemma BitNumbers5()
    ensures Pos8(40) == 40 &&
            Pos8(41) == 41 &&
            Pos8(42) == 42 &&
            Pos8(43) == 43 &&
            Pos8(44) == 44 &&
            Pos8(45) == 45 &&
            Pos8(46) == 46 &&
            Pos8(47) == 47
  {
    BitNumbers4();
  }

  lemma BitNumbers6()
    ensures Pos8(48) == 48 &&
            Pos8(49) == 49 &&
            Pos8(50) == 50 &&
            Pos8(51) == 51 &&
            Pos8(52) == 52 &&
            Pos8(53) == 53 &&
            Pos8(54) == 54 &&
            Pos8(55) == 55
  {
    BitNumbers5();
  }

  lemma BitNumbers7()
    ensures Pos8(56) == 56 &&
            Pos8(57) == 57 &&
            Pos8(58) == 58 &&
            Pos8(59) == 59 &&
            Pos8(60) == 60 &&
            Pos8(61) == 61 &&
            Pos8(62) == 62 &&
            Pos8(63) == 63
  {
    BitNumbers6();
  }

  /* Extensionality, that two bit-vectors with the same bits are equal, is proved
     one byte at a time (`SameByte*` from the bits, `AgreeByte*` from `SameBits*`)
     and then joined (`JoinBytes*`). A single proof over all 32 or 64 bits is
     beyond what the solver settles quickly. */
  lemma SameByte32_0(x: bv32, y: bv32)
    requires Bit32(x, 0) == Bit32(y, 0) &&
             Bit32(x, 1) == Bit32(y, 1) &&
             Bit32(x, 2) == Bit32(y, 2) &&
             Bit32(x, 3) == Bit32(y, 3) &&
             Bit32(x, 4) == Bit32(y, 4) &&
             Bit32(x, 5) == Bit32(y, 5) &&
             Bit32(x, 6) == Bit32(y, 6) &&
             Bit32(x, 7) == Bit32(y, 7)
    ensures x & 0xFF == y & 0xFF
  {
  }

  lemma AgreeByte32_0(x: bv32, y: bv32)
    requires SameBits32(x, y)
    ensures x & 0xFF == y & 0xFF
  {
    BitNumbers0();
    SameBit32(x, y, 0, 0);
    SameBit32(x, y, 1, 1);
    SameBit32(x, y, 2, 2);
    SameBit32(x, y, 3, 3);
    SameBit32(x, y, 4, 4);
    SameBit32(x, y, 5, 5);
    SameBit32(x, y, 6, 6);
    SameBit32(x, y, 7, 7);
    SameByte32_0(x, y);
  }

  lemma SameByte32_1(x: bv32, y: bv32)
    requires Bit32(x, 8) == Bit32(y, 8) &&
             Bit32(x, 9) == Bit32(y, 9) &&
             Bit32(x, 10) == Bit32(y, 10) &&
             Bit32(x, 11) == Bit32(y, 11) &&
             Bit32(x, 12) == Bit32(y, 12) &&
             Bit32(x, 13) == Bit32(y, 13) &&
             Bit32(x, 14) == Bit32(y, 14) &&
             Bit32(x, 15) == Bit32(y, 15)
    ensures x & 0xFF00 == y & 0xFF00
  {
  }

  lemma AgreeByte32_1(x: bv32, y: bv32)
    requires SameBits32(x, y)
    ensures x & 0xFF00 == y & 0xFF00
  {
    BitNumbers1();
    SameBit32(x, y, 8, 8);
    SameBit32(x, y, 9, 9);
    SameBit32(x, y, 10, 10);
    SameBit32(x, y, 11, 11);
    SameBit32(x, y, 12, 12);
    SameBit32(x, y, 13, 13);
    SameBit32(x, y, 14, 14);
    SameBit32(x, y, 15, 15);
    SameByte32_1(x, y);
  }

  lemma SameByte32_2(x: bv32, y: bv32)
    requires Bit32(x, 16) == Bit32(y, 16) &&
             Bit32(x, 17) == Bit32(y, 17) &&
             Bit32(x, 18) == Bit32(y, 18) &&
             Bit32(x, 19) == Bit32(y, 19) &&
             Bit32(x, 20) == Bit32(y, 20) &&
             Bit32(x, 21) == Bit32(y, 21) &&
             Bit32(x, 22) == Bit32(y, 22) &&
             Bit32(x, 23) == Bit32(y, 23)
    ensures x & 0xFF_0000 == y & 0xFF_0000
  {
  }

  lemma AgreeByte32_2(x: bv32, y: bv32)
    requires SameBits32(x, y)
    ensures x & 0xFF_0000 == y & 0xFF_0000
  {
    BitNumbers2();
    SameBit32(x, y, 16, 16);
    SameBit32(x, y, 17, 17);
    SameBit32(x, y, 18, 18);
    SameBit32(x, y, 19, 19);
    SameBit32(x, y, 20, 20);
    SameBit32(x, y, 21, 21);
    SameBit32(x, y, 22, 22);
    SameBit32(x, y, 23, 23);
    SameByte32_2(x, y);
  }

  lemma SameByte32_3(x: bv32, y: bv32)
    requires Bit32(x, 24) == Bit32(y, 24) &&
             Bit32(x, 25) == Bit32(y, 25) &&
             Bit32(x, 26) == Bit32(y, 26) &&
             Bit32(x, 27) == Bit32(y, 27) &&
             Bit32(x, 28) == Bit32(y, 28) &&
             Bit32(x, 29) == Bit32(y, 29) &&
             Bit32(x, 30) == Bit32(y, 30) &&
             Bit32(x, 31) == Bit32(y, 31)
    ensures x & 0xFF00_0000 == y & 0xFF00_0000
  {
  }

  lemma AgreeByte32_3(x: bv32, y: bv32)
    requires SameBits32(x, y)
    ensures x & 0xFF00_0000 == y & 0xFF00_0000
  {
    BitNumbers3();
    SameBit32(x, y, 24, 24);
    SameBit32(x, y, 25, 25);
    SameBit32(x, y, 26, 26);
    SameBit32(x, y, 27, 27);
    SameBit32(x, y, 28, 28);
    SameBit32(x, y, 29, 29);
    SameBit32(x, y, 30, 30);
    SameBit32(x, y, 31, 31);
    SameByte32_3(x, y);
  }

  lemma JoinBytes32(x: bv32, y: bv32)
    requires x & 0xFF == y & 0xFF &&
             x & 0xFF00 == y & 0xFF00 &&
             x & 0xFF_0000 == y & 0xFF_0000 &&
             x & 0xFF00_0000 == y & 0xFF00_0000
    ensures x == y
  {
  }

  /** Two values with the same bits are equal. */
  lemma Ext32(x: bv32, y: bv32)
    requires SameBits32(x, y)
    ensures x == y
  {
    AgreeByte32_0(x, y);
    AgreeByte32_1(x, y);
    AgreeByte32_2(x, y);
    AgreeByte32_3(x, y);
    JoinBytes32(x, y);
  }

  lemma SameByte64_0(x: bv64, y: bv64)
    requires Bit64(x, 0) == Bit64(y, 0) &&
             Bit64(x, 1) == Bit64(y, 1) &&
             Bit64(x, 2) == Bit64(y, 2) &&
             Bit64(x, 3) == Bit64(y, 3) &&
             Bit64(x, 4) == Bit64(y, 4) &&
             Bit64(x, 5) == Bit64(y, 5) &&
             Bit64(x, 6) == Bit64(y, 6) &&
             Bit64(x, 7) == Bit64(y, 7)
    ensures x & 0xFF == y & 0xFF
  {
  }

  lemma AgreeByte64_0(x: bv64, y: bv64)
    requires SameBits64(x, y)
    ensures x & 0xFF == y & 0xFF
  {
    BitNumbers0();
    SameBit64(x, y, 0, 0);
    SameBit64(x, y, 1, 1);
    SameBit64(x, y, 2, 2);
    SameBit64(x, y, 3, 3);
    SameBit64(x, y, 4, 4);
    SameBit64(x, y, 5, 5);
    SameBit64(x, y, 6, 6);
    SameBit64(x, y, 7, 7);
    SameByte64_0(x, y);
  }

  lemma SameByte64_1(x: bv64, y: bv64)
    requires Bit64(x, 8) == Bit64(y, 8) &&
             Bit64(x, 9) == Bit64(y, 9) &&
             Bit64(x, 10) == Bit64(y, 10) &&
             Bit64(x, 11) == Bit64(y, 11) &&
             Bit64(x, 12) == Bit64(y, 12) &&
             Bit64(x, 13) == Bit64(y, 13) &&
             Bit64(x, 14) == Bit64(y, 14) &&
             Bit64(x, 15) == Bit64(y, 15)
    ensures x & 0xFF00 == y & 0xFF00
  {
  }

  lemma AgreeByte64_1(x: bv64, y: bv64)
    requires SameBits64(x, y)
    ensures x & 0xFF00 == y & 0xFF00
  {
    BitNumbers1();
    SameBit64(x, y, 8, 8);
    SameBit64(x, y, 9, 9);
    SameBit64(x, y, 10, 10);
    SameBit64(x, y, 11, 11);
    SameBit64(x, y, 12, 12);
    SameBit64(x, y, 13, 13);
    SameBit64(x, y, 14, 14);
    SameBit64(x, y, 15, 15);
    SameByte64_1(x, y);
  }

  lemma SameByte64_2(x: bv64, y: bv64)
    requires Bit64(x, 16) == Bit64(y, 16) &&
             Bit64(x, 17) == Bit64(y, 17) &&
             Bit64(x, 18) == Bit64(y, 18) &&
             Bit64(x, 19) == Bit64(y, 19) &&
             Bit64(x, 20) == Bit64(y, 20) &&
             Bit64(x, 21) == Bit64(y, 21) &&
             Bit64(x, 22) == Bit64(y, 22) &&
             Bit64(x, 23) == Bit64(y, 23)
    ensures x & 0xFF_0000 == y & 0xFF_0000
  {
  }

  lemma AgreeByte64_2(x: bv64, y: bv64)
    requires SameBits64(x, y)
    ensures x & 0xFF_0000 == y & 0xFF_0000
  {
    BitNumbers2();
    SameBit64(x, y, 16, 16);
    SameBit64(x, y, 17, 17);
    SameBit64(x, y, 18, 18);
    SameBit64(x, y, 19, 19);
    SameBit64(x, y, 20, 20);
    SameBit64(x, y, 21, 21);
    SameBit64(x, y, 22, 22);
    SameBit64(x, y, 23, 23);
    SameByte64_2(x, y);
  }

  lemma SameByte64_3(x: bv64, y: bv64)
    requires Bit64(x, 24) == Bit64(y, 24) &&
             Bit64(x, 25) == Bit64(y, 25) &&
             Bit64(x, 26) == Bit64(y, 26) &&
             Bit64(x, 27) == Bit64(y, 27) &&
             Bit64(x, 28) == Bit64(y, 28) &&
             Bit64(x, 29) == Bit64(y, 29) &&
             Bit64(x, 30) == Bit64(y, 30) &&
             Bit64(x, 31) == Bit64(y, 31)
    ensures x & 0xFF00_0000 == y & 0xFF00_0000
  {
  }

  lemma AgreeByte64_3(x: bv64, y: bv64)
    requires SameBits64(x, y)
    ensures x & 0xFF00_0000 == y & 0xFF00_0000
  {
    BitNumbers3();
    SameBit64(x, y, 24, 24);
    SameBit64(x, y, 25, 25);
    SameBit64(x, y, 26, 26);
    SameBit64(x, y, 27, 27);
    SameBit64(x, y, 28, 28);
    SameBit64(x, y, 29, 29);
    SameBit64(x, y, 30, 30);
    SameBit64(x, y, 31, 31);
    SameByte64_3(x, y);
  }

  lemma SameByte64_4(x: bv64, y: bv64)
    requires Bit64(x, 32) == Bit64(y, 32) &&
             Bit64(x, 33) == Bit64(y, 33) &&
             Bit64(x, 34) == Bit64(y, 34) &&
             Bit64(x, 35) == Bit64(y, 35) &&
             Bit64(x, 36) == Bit64(y, 36) &&
             Bit64(x, 37) == Bit64(y, 37) &&
             Bit64(x, 38) == Bit64(y, 38) &&
             Bit64(x, 39) == Bit64(y, 39)
    ensures x & 0xFF_0000_0000 == y & 0xFF_0000_0000
  {
  }

  lemma AgreeByte64_4(x: bv64, y: bv64)
    requires SameBits64(x, y)
    ensures x & 0xFF_0000_0000 == y & 0xFF_0000_0000
  {
    BitNumbers4();
    SameBit64(x, y, 32, 32);
    SameBit64(x, y, 33, 33);
    SameBit64(x, y, 34, 34);
    SameBit64(x, y, 35, 35);
    SameBit64(x, y, 36, 36);
    SameBit64(x, y, 37, 37);
    SameBit64(x, y, 38, 38);
    SameBit64(x, y, 39, 39);
    SameByte64_4(x, y);
  }

  lemma SameByte64_5(x: bv64, y: bv64)
    requires Bit64(x, 40) == Bit64(y, 40) &&
             Bit64(x, 41) == Bit64(y, 41) &&
             Bit64(x, 42) == Bit64(y, 42) &&
             Bit64(x, 43) == Bit64(y, 43) &&
             Bit64(x, 44) == Bit64(y, 44) &&
             Bit64(x, 45) == Bit64(y, 45) &&
             Bit64(x, 46) == Bit64(y, 46) &&
             Bit64(x, 47) == Bit64(y, 47)
    ensures x & 0xFF00_0000_0000 == y & 0xFF00_0000_0000
  {
  }

  lemma AgreeByte64_5(x: bv64, y: bv64)
    requires SameBits64(x, y)
    ensures x & 0xFF00_0000_0000 == y & 0xFF00_0000_0000
  {
    BitNumbers5();
    SameBit64(x, y, 40, 40);
    SameBit64(x, y, 41, 41);
    SameBit64(x, y, 42, 42);
    SameBit64(x, y, 43, 43);
    SameBit64(x, y, 44, 44);
    SameBit64(x, y, 45, 45);
    SameBit64(x, y, 46, 46);
    SameBit64(x, y, 47, 47);
    SameByte64_5(x, y);
  }

  lemma SameByte64_6(x: bv64, y: bv64)
    requires Bit64(x, 48) == Bit64(y, 48) &&
             Bit64(x, 49) == Bit64(y, 49) &&
             Bit64(x, 50) == Bit64(y, 50) &&
             Bit64(x, 51) == Bit64(y, 51) &&
             Bit64(x, 52) == Bit64(y, 52) &&
             Bit64(x, 53) == Bit64(y, 53) &&
             Bit64(x, 54) == Bit64(y, 54) &&
             Bit64(x, 55) == Bit64(y, 55)
    ensures x & 0xFF_0000_0000_0000 == y & 0xFF_0000_0000_0000
  {
  }

  lemma AgreeByte64_6(x: bv64, y: bv64)
    requires SameBits64(x, y)
    ensures x & 0xFF_0000_0000_0000 == y & 0xFF_0000_0000_0000
  {
    BitNumbers6();
    SameBit64(x, y, 48, 48);
    SameBit64(x, y, 49, 49);
    SameBit64(x, y, 50, 50);
    SameBit64(x, y, 51, 51);
    SameBit64(x, y, 52, 52);
    SameBit64(x, y, 53, 53);
    SameBit64(x, y, 54, 54);
    SameBit64(x, y, 55, 55);
    SameByte64_6(x, y);
  }

  lemma SameByte64_7(x: bv64, y: bv64)
    requires Bit64(x, 56) == Bit64(y, 56) &&
             Bit64(x, 57) == Bit64(y, 57) &&
             Bit64(x, 58) == Bit64(y, 58) &&
             Bit64(x, 59) == Bit64(y, 59) &&
             Bit64(x, 60) == Bit64(y, 60) &&
             Bit64(x, 61) == Bit64(y, 61) &&
             Bit64(x, 62) == Bit64(y, 62) &&
             Bit64(x, 63) == Bit64(y, 63)
    ensures x & 0xFF00_0000_0000_0000 == y & 0xFF00_0000_0000_0000
  {
  }

  lemma AgreeByte64_7(x: bv64, y: bv64)
    requires SameBits64(x, y)
    ensures x & 0xFF00_0000_0000_0000 == y & 0xFF00_0000_0000_0000
  {
    BitNumbers7();
    SameBit64(x, y, 56, 56);
    SameBit64(x, y, 57, 57);
    SameBit64(x, y, 58, 58);
    SameBit64(x, y, 59, 59);
    SameBit64(x, y, 60, 60);
    SameBit64(x, y, 61, 61);
    SameBit64(x, y, 62, 62);
    SameBit64(x, y, 63, 63);
    SameByte64_7(x, y);
  }

  lemma JoinBytes64(x: bv64, y: bv64)
    requires x & 0xFF == y & 0xFF &&
             x & 0xFF00 == y & 0xFF00 &&
             x & 0xFF_0000 == y & 0xFF_0000 &&
             x & 0xFF00_0000 == y & 0xFF00_0000 &&
             x & 0xFF_0000_0000 == y & 0xFF_0000_0000 &&
             x & 0xFF00_0000_0000 == y & 0xFF00_0000_0000 &&
             x & 0xFF_0000_0000_0000 == y & 0xFF_0000_0000_0000 &&
             x & 0xFF00_0000_0000_0000 == y & 0xFF00_0000_0000_0000
    ensures x == y
  {
  }

  /** Two values with the same bits are equal. */
  lemma Ext64(x: bv64, y: bv64)
    requires SameBits64(x, y)
    ensures x == y
  {
    AgreeByte64_0(x, y);
    AgreeByte64_1(x, y);
    AgreeByte64_2(x, y);
    AgreeByte64_3(x, y);
    AgreeByte64_4(x, y);
    AgreeByte64_5(x, y);
    AgreeByte64_6(x, y);
    AgreeByte64_7(x, y);
    JoinBytes64(x, y);
  }

  /** The bits of `n & Mask(len)` are the bits of `n` below `len`. */
  lemma MaskOnlyBit32(len: int, j: int)
    requires 0 <= len <= 32 && 0 <= j < 32
    ensures BitAt32(Mask32(len), j) == (j < len)
  {
    PosBound32(len);
    PosBound32(j);
    LowBit32(Pos32(len), Pos32(j));
    PosLess32(j, len);
  }

  lemma MaskOnlyBit64(len: int, j: int)
    requires 0 <= len <= 64 && 0 <= j < 64
    ensures BitAt64(Mask64(len), j) == (j < len)
  {
    PosBound64(len);
    PosBound64(j);
    LowBit64(Pos64(len), Pos64(j));
    PosLess64(j, len);
  }

  lemma AndBitAt32(a: bv32, b: bv32, j: int)
    requires 0 <= j < 32
    ensures BitAt32(And32(a, b), j) == (BitAt32(a, j) && BitAt32(b, j))
  {
    PosBound32(j);
    AndBit32(a, b, Pos32(j));
  }

  lemma AndBitAt64(a: bv64, b: bv64, j: int)
    requires 0 <= j < 64
    ensures BitAt64(And64(a, b), j) == (BitAt64(a, j) && BitAt64(b, j))
  {
    PosBound64(j);
    AndBit64(a, b, Pos64(j));
  }

  lemma MaskBit32(n: bv32, len: int, j: int)
    requires 0 <= len <= 32 && 0 <= j < 32
    ensures BitAt32(KeepLow32(n, len), j) == (j < len && BitAt32(n, j))
  {
    AndBitAt32(n, Mask32(len), j);
    MaskOnlyBit32(len, j);
  }

  lemma MaskBit64(n: bv64, len: int, j: int)
    requires 0 <= len <= 64 && 0 <= j < 64
    ensures BitAt64(KeepLow64(n, len), j) == (j < len && BitAt64(n, j))
  {
    AndBitAt64(n, Mask64(len), j);
    MaskOnlyBit64(len, j);
  }

  // ---------------------------------------------------------------- permutations

  /** Every entry is a bit number below the length. */
  predicate InRange(s: seq<int>)
  {
    forall i :: 0 <= i < |s| ==> 0 <= s[i] < |s|
  }

  /** The shape `verify_sequence` accepts: entries in range and every bit number present. */
  predicate IsPermutation(s: seq<int>)
  {
    InRange(s) && forall v :: 0 <= v < |s| ==> v in s
  }

  /** `q` undoes `p` and `p` undoes `q`. */
  predicate IsInverse(p: seq<int>, q: seq<int>)
  {
    |p| == |q| && InRange(p) && InRange(q) &&
    (forall i :: 0 <= i < |p| ==> q[p[i]] == i) &&
    (forall j :: 0 <= j < |q| ==> p[q[j]] == j)
  }

  /** The identity sequence `reset(len)` installs. */
  function Identity(len: nat): (r: seq<int>)
    ensures |r| == len && forall i :: 0 <= i < len ==> r[i] == i
  {
    seq(len, i => i)
  }

  lemma IdentityIsPermutation(len: nat)
    ensures IsPermutation(Identity(len))
    ensures IsInverse(Identity(len), Identity(len))
  {
    var id := Identity(len);
    forall v | 0 <= v < len
      ensures v in id
    {
      assert id[v] == v;
    }
  }

  function Values(s: seq<int>): set<int>
  {
    set x | x in s
  }

  function Range(n: nat): set<int>
  {
    if n == 0 then {} else Range(n - 1) + {n - 1}
  }

  lemma {:induction false} RangeMembers(n: nat)
    ensures forall v :: v in Range(n) <==> 0 <= v < n
  {
    if n > 0 {
      RangeMembers(n - 1);
    }
  }

  lemma {:induction false} ValuesBound(s: seq<int>)
    ensures |Values(s)| <= |s|
  {
    if s == [] {
      assert Values(s) == {};
    } else {
      var t := s[..|s| - 1];
      ValuesBound(t);
      assert Values(s) == Values(t) + {s[|s| - 1]} by {
        assert s == t + [s[|s| - 1]];
      }
    }
  }

  lemma {:induction false} RangeSize(n: nat)
    ensures |Range(n)| == n
  {
    if n == 0 {
      assert Range(n) == {};
    } else {
      RangeSize(n - 1);
      RangeMembers(n - 1);
    }
  }

  lemma SubsetSize(a: set<int>, b: set<int>)
    requires a <= b
    ensures |a| <= |b|
  {
    assert b == a + (b - a);
  }

  /** A repeated entry leaves fewer distinct values than entries. */
  lemma DuplicateShrinks(s: seq<int>, a: int, b: int)
    requires 0 <= a < b < |s| && s[a] == s[b]
    ensures |Values(s)| < |s|
  {
    var t := s[..b] + s[b + 1..];
    assert Values(s) == Values(t) by {
      forall x | x in s
        ensures x in t
      {
        var i :| 0 <= i < |s| && s[i] == x;
        if i < b {
          assert t[i] == x;
        } else if i == b {
          assert t[a] == x;
        } else {
          assert t[i - 1] == x;
        }
      }
      forall x | x in t
        ensures x in s
      {
        var i :| 0 <= i < |t| && t[i] == x;
        if i < b {
          assert s[i] == x;
        } else {
          assert s[i + 1] == x;
        }
      }
    }
    ValuesBound(t);
  }

  /** Pigeonhole: a sequence of bit numbers below its length that contains every
      one of them contains each exactly once. */
  lemma PermutationInjective(s: seq<int>)
    requires IsPermutation(s)
    ensures forall a, b :: 0 <= a < |s| && 0 <= b < |s| && s[a] == s[b] ==> a == b
  {
    RangeMembers(|s|);
    forall v | v in Range(|s|)
      ensures v in Values(s)
    {
      assert v in s;
    }
    RangeSize(|s|);
    SubsetSize(Range(|s|), Values(s));
    forall a, b | 0 <= a < |s| && 0 <= b < |s| && s[a] == s[b]
      ensures a == b
    {
      if a < b {
        DuplicateShrinks(s, a, b);
        assert false;
      } else if b < a {
        DuplicateShrinks(s, b, a);
        assert false;
      }
    }
  }

  /** An array filled by `unshuffle[shuffle[i]] = i` over a permutation is its inverse. */
  lemma InverseOf(p: seq<int>, q: seq<int>)
    requires IsPermutation(p) && |q| == |p|
    requires forall i :: 0 <= i < |p| ==> q[p[i]] == i
    ensures IsInverse(p, q) && IsPermutation(q)
  {
    forall j | 0 <= j < |q|
      ensures 0 <= q[j] < |q| && p[q[j]] == j
    {
      assert j in p;
      var i :| 0 <= i < |p| && p[i] == j;
    }
    forall v | 0 <= v < |q|
      ensures v in q
    {
      assert q[p[v]] == v;
    }
  }

  /** `verify_sequence` stops with an exception at `i`: the first entry that is not
      below the length is negative, and `present[seq[i]]` is out of bounds. */
  predicate FailsAt(s: seq<int>, i: int)
  {
    0 <= i < |s| && s[i] < 0 && forall k :: 0 <= k < i ==> s[k] < |s|
  }

  // ---------------------------------------------------------------- moving bits of an int

  function Min(a: int, b: int): int
  {
    if a <= b then a else b
  }

  /** One round of `shuffleInt`: `bit = (n & (1 << i)) >>> i`, then `bit << s`. */
  function StepInt(n: bv32, i: int, s: int): bv32
    requires 0 <= i < 32 && 0 <= s < 32
  {
    PosBound32(i);
    PosBound32(s);
    MoveBit32(n, Pos32(i), Pos32(s))
  }

  /** The result after the first `k` rounds; the shift distance of `int << s` is
      `s & 31`, which is `s % 32`. */
  function MovedInt(table: seq<int>, n: bv32, k: nat): bv32
    requires k <= |table| && k <= 32
  {
    if k == 0 then 0 else Or32(MovedInt(table, n, k - 1), StepInt(n, k - 1, table[k - 1] % 32))
  }

  lemma ZeroBitAt32(j: int)
    requires 0 <= j < 32
    ensures !BitAt32(0, j)
  {
    PosBound32(j);
    ZeroBit32(Pos32(j));
  }

  lemma OrBitAt32(a: bv32, b: bv32, j: int)
    requires 0 <= j < 32
    ensures BitAt32(Or32(a, b), j) == (BitAt32(a, j) || BitAt32(b, j))
  {
    PosBound32(j);
    OrBit32(a, b, Pos32(j));
  }

  lemma StepIntBit(n: bv32, i: int, s: int, j: int)
    requires 0 <= i < 32 && 0 <= s < 32 && 0 <= j < 32
    ensures BitAt32(StepInt(n, i, s), j) == (j == s && BitAt32(n, i))
  {
    PosBound32(i);
    PosBound32(s);
    PosBound32(j);
    StepBit32(n, Pos32(i), Pos32(s), Pos32(j));
    PosSame32(j, s);
  }

  lemma OrStepBit32(a: bv32, n: bv32, i: int, s: int, j: int)
    requires 0 <= i < 32 && 0 <= s < 32 && 0 <= j < 32
    ensures BitAt32(Or32(a, StepInt(n, i, s)), j) == (BitAt32(a, j) || (j == s && BitAt32(n, i)))
  {
    OrBitAt32(a, StepInt(n, i, s), j);
    StepIntBit(n, i, s, j);
  }

  /** Round `k` sets bit `j` when the table sends bit `k - 1` there and it is set in `n`. */
  lemma MovedIntRound(table: seq<int>, n: bv32, k: nat, j: int)
    ensures 0 < k <= |table| && k <= 32 && 0 <= j < 32 ==>
              (BitAt32(MovedInt(table, n, k), j) ==
               (BitAt32(MovedInt(table, n, k - 1), j) || (table[k - 1] % 32 == j && BitAt32(n, k - 1))))
  {
    if 0 < k <= |table| && k <= 32 && 0 <= j < 32 {
      OrStepBit32(MovedInt(table, n, k - 1), n, k - 1, table[k - 1] % 32, j);
    }
  }

  /** Some bit `i < k` of `n` is set and the table sends it to bit `j`. */
  predicate ReachesInt(table: seq<int>, n: bv32, k: nat, j: int)
    requires k <= |table| && k <= 32
  {
    k > 0 && (ReachesInt(table, n, k - 1, j) || (table[k - 1] % 32 == j && BitAt32(n, k - 1)))
  }

  lemma {:induction false} MovedIntReaches(table: seq<int>, n: bv32, k: nat, j: int)
    requires k <= |table| && k <= 32 && 0 <= j < 32
    ensures BitAt32(MovedInt(table, n, k), j) == ReachesInt(table, n, k, j)
  {
    if k == 0 {
      ZeroBitAt32(j);
    } else {
      MovedIntReaches(table, n, k - 1, j);
      MovedIntRound(table, n, k, j);
    }
  }

  lemma {:induction false} ReachesIntSome(table: seq<int>, n: bv32, k: nat, j: int)
    requires k <= |table| && k <= 32
    ensures ReachesInt(table, n, k, j) <==> exists i :: 0 <= i < k && table[i] % 32 == j && BitAt32(n, i)
  {
    if k > 0 {
      ReachesIntSome(table, n, k - 1, j);
    }
  }

  /** Bit `j` of the result is set exactly when some bit `i < k` of `n` is set and
      the table sends it to `j`. */
  lemma MovedIntBits(table: seq<int>, n: bv32, k: nat, j: int)
    requires k <= |table| && k <= 32 && 0 <= j < 32
    ensures BitAt32(MovedInt(table, n, k), j) <==>
              exists i :: 0 <= i < k && table[i] % 32 == j && BitAt32(n, i)
  {
    MovedIntReaches(table, n, k, j);
    ReachesIntSome(table, n, k, j);
  }

  lemma ReachesPermutedInt(p: seq<int>, q: seq<int>, n: bv32, j: int)
    requires IsInverse(p, q) && |p| <= 32 && 0 <= j < 32
    ensures ReachesInt(p, n, |p|, j) == (j < |p| && BitAt32(n, q[j]))
  {
    ReachesIntSome(p, n, |p|, j);
    if j < |p| {
      assert p[q[j]] % 32 == j;
    }
  }

  /** Under a permutation of length at most 32, bit `j` of the result is bit
      `q[j]` of `n` below the length and 0 above it. */
  lemma PermutedBitsInt(p: seq<int>, q: seq<int>, n: bv32, j: int)
    requires IsInverse(p, q) && |p| <= 32 && 0 <= j < 32
    ensures BitAt32(MovedInt(p, n, |p|), j) == (j < |p| && BitAt32(n, q[j]))
  {
    MovedIntReaches(p, n, |p|, j);
    ReachesPermutedInt(p, q, n, j);
  }

  /** Bit `i` of `n`, below the length, lands on bit `p[i]`. */
  lemma ShuffledBitInt(p: seq<int>, q: seq<int>, n: bv32, i: int)
    requires IsInverse(p, q) && |p| <= 32 && 0 <= i < |p|
    ensures BitAt32(MovedInt(p, n, |p|), p[i]) == BitAt32(n, i)
  {
    PermutedBitsInt(p, q, n, p[i]);
  }

  lemma RoundTripBitInt(p: seq<int>, q: seq<int>, n: bv32, j: int)
    ensures IsInverse(p, q) && |p| <= 32 && 0 <= j < 32 ==>
              BitAt32(MovedInt(q, MovedInt(p, n, |p|), |q|), j) == (j < |p| && BitAt32(n, j))
  {
    if IsInverse(p, q) && |p| <= 32 && 0 <= j < 32 {
      assert IsInverse(q, p);
      PermutedBitsInt(q, p, MovedInt(p, n, |p|), j);
      if j < |p| {
        ShuffledBitInt(p, q, n, j);
      }
    }
  }

  lemma RoundTripMaskBitInt(p: seq<int>, q: seq<int>, n: bv32, j: int)
    requires IsInverse(p, q) && |p| <= 32 && 0 <= j < 32
    ensures BitAt32(MovedInt(q, MovedInt(p, n, |p|), |q|), j) == BitAt32(KeepLow32(n, |p|), j)
  {
    RoundTripBitInt(p, q, n, j);
    MaskBit32(n, |p|, j);
  }

  /** Unshuffling a shuffled `int` gives back its low `|p|` bits. */
  lemma RoundTripInt(p: seq<int>, q: seq<int>, n: bv32)
    requires IsInverse(p, q) && |p| <= 32
    ensures MovedInt(q, MovedInt(p, n, |p|), |q|) == KeepLow32(n, |p|)
  {
    forall j | 0 <= j < 32
      ensures BitAt32(MovedInt(q, MovedInt(p, n, |p|), |q|), j) == BitAt32(KeepLow32(n, |p|), j)
    {
      RoundTripMaskBitInt(p, q, n, j);
    }
    Ext32(MovedInt(q, MovedInt(p, n, |p|), |q|), KeepLow32(n, |p|));
  }

  /** The round trips in both orders, with the loop bound `min(length, 32)`. */
  lemma RoundTripsIntBoth(p: seq<int>, q: seq<int>, n: bv32)
    ensures IsInverse(p, q) && |p| <= 32 ==>
              MovedInt(q, MovedInt(p, n, Min(|p|, 32)), Min(|q|, 32)) == KeepLow32(n, |p|) &&
              MovedInt(p, MovedInt(q, n, Min(|q|, 32)), Min(|p|, 32)) == KeepLow32(n, |p|)
  {
    if IsInverse(p, q) && |p| <= 32 {
      RoundTripInt(p, q, n);
      assert IsInverse(q, p);
      RoundTripInt(q, p, n);
    }
  }

  // ---------------------------------------------------------------- moving bits of a long

  /** One round of `shuffleLong` as written: the mask `1 << i` is an `int` shift
      (distance `i & 31`), sign-extended to `long` before the `&`. */
  function StepLongAsWritten(n: bv64, i: int, s: int): bv64
    requires 0 <= i < 64 && 0 <= s < 64
  {
    PosBound32(i % 32);
    PosBound64(i);
    PosBound64(s);
    MoveBitIntMask(n, Pos32(i % 32), Pos64(i), Pos64(s))
  }

  /** One round with the `long` mask `1L << i`. */
  function StepLong(n: bv64, i: int, s: int): bv64
    requires 0 <= i < 64 && 0 <= s < 64
  {
    PosBound64(i);
    PosBound64(s);
    MoveBit64(n, Pos64(i), Pos64(s))
  }

  /** `shuffleLong` as written, after `k` rounds; `long << s` shifts by `s % 64`. */
  function MovedLongAsWritten(table: seq<int>, n: bv64, k: nat): bv64
    requires k <= |table| && k <= 64
  {
    if k == 0 then 0 else Or64(MovedLongAsWritten(table, n, k - 1), StepLongAsWritten(n, k - 1, table[k - 1] % 64))
  }

  /** `shuffleLong` with the `long` mask, after `k` rounds. */
  function MovedLong(table: seq<int>, n: bv64, k: nat): bv64
    requires k <= |table| && k <= 64
  {
    if k == 0 then 0 else Or64(MovedLong(table, n, k - 1), StepLong(n, k - 1, table[k - 1] % 64))
  }

  lemma ZeroBitAt64(j: int)
    requires 0 <= j < 64
    ensures !BitAt64(0, j)
  {
    PosBound64(j);
    ZeroBit64(Pos64(j));
  }

  lemma OrBitAt64(a: bv64, b: bv64, j: int)
    requires 0 <= j < 64
    ensures BitAt64(Or64(a, b), j) == (BitAt64(a, j) || BitAt64(b, j))
  {
    PosBound64(j);
    OrBit64(a, b, Pos64(j));
  }

  lemma StepLongBit(n: bv64, i: int, s: int, j: int)
    requires 0 <= i < 64 && 0 <= s < 64 && 0 <= j < 64
    ensures BitAt64(StepLong(n, i, s), j) == (j == s && BitAt64(n, i))
  {
    PosBound64(i);
    PosBound64(s);
    PosBound64(j);
    StepBit64(n, Pos64(i), Pos64(s), Pos64(j));
    PosSame64(j, s);
  }

  lemma OrStepBit64(a: bv64, n: bv64, i: int, s: int, j: int)
    requires 0 <= i < 64 && 0 <= s < 64 && 0 <= j < 64
    ensures BitAt64(Or64(a, StepLong(n, i, s)), j) == (BitAt64(a, j) || (j == s && BitAt64(n, i)))
  {
    OrBitAt64(a, StepLong(n, i, s), j);
    StepLongBit(n, i, s, j);
  }

  /** Round `k` sets bit `j` when the table sends bit `k - 1` there and it is set in `n`. */
  lemma MovedLongRound(table: seq<int>, n: bv64, k: nat, j: int)
    ensures 0 < k <= |table| && k <= 64 && 0 <= j < 64 ==>
              (BitAt64(MovedLong(table, n, k), j) ==
               (BitAt64(MovedLong(table, n, k - 1), j) || (table[k - 1] % 64 == j && BitAt64(n, k - 1))))
  {
    if 0 < k <= |table| && k <= 64 && 0 <= j < 64 {
      OrStepBit64(MovedLong(table, n, k - 1), n, k - 1, table[k - 1] % 64, j);
    }
  }

  /** Some bit `i < k` of `n` is set and the table sends it to bit `j`. */
  predicate ReachesLong(table: seq<int>, n: bv64, k: nat, j: int)
    requires k <= |table| && k <= 64
  {
    k > 0 && (ReachesLong(table, n, k - 1, j) || (table[k - 1] % 64 == j && BitAt64(n, k - 1)))
  }

  lemma {:induction false} MovedLongReaches(table: seq<int>, n: bv64, k: nat, j: int)
    requires k <= |table| && k <= 64 && 0 <= j < 64
    ensures BitAt64(MovedLong(table, n, k), j) == ReachesLong(table, n, k, j)
  {
    if k == 0 {
      ZeroBitAt64(j);
    } else {
      MovedLongReaches(table, n, k - 1, j);
      MovedLongRound(table, n, k, j);
    }
  }

  lemma {:induction false} ReachesLongSome(table: seq<int>, n: bv64, k: nat, j: int)
    requires k <= |table| && k <= 64
    ensures ReachesLong(table, n, k, j) <==> exists i :: 0 <= i < k && table[i] % 64 == j && BitAt64(n, i)
  {
    if k > 0 {
      ReachesLongSome(table, n, k - 1, j);
    }
  }

  lemma MovedLongBits(table: seq<int>, n: bv64, k: nat, j: int)
    requires k <= |table| && k <= 64 && 0 <= j < 64
    ensures BitAt64(MovedLong(table, n, k), j) <==>
              exists i :: 0 <= i < k && table[i] % 64 == j && BitAt64(n, i)
  {
    MovedLongReaches(table, n, k, j);
    ReachesLongSome(table, n, k, j);
  }

  lemma ReachesPermutedLong(p: seq<int>, q: seq<int>, n: bv64, j: int)
    requires IsInverse(p, q) && |p| <= 64 && 0 <= j < 64
    ensures ReachesLong(p, n, |p|, j) == (j < |p| && BitAt64(n, q[j]))
  {
    ReachesLongSome(p, n, |p|, j);
    if j < |p| {
      assert p[q[j]] % 64 == j;
    }
  }

  lemma PermutedBitsLong(p: seq<int>, q: seq<int>, n: bv64, j: int)
    requires IsInverse(p, q) && |p| <= 64 && 0 <= j < 64
    ensures BitAt64(MovedLong(p, n, |p|), j) == (j < |p| && BitAt64(n, q[j]))
  {
    MovedLongReaches(p, n, |p|, j);
    ReachesPermutedLong(p, q, n, j);
  }

  /** Bit `i` of `n`, below the length, lands on bit `p[i]`. */
  lemma ShuffledBitLong(p: seq<int>, q: seq<int>, n: bv64, i: int)
    requires IsInverse(p, q) && |p| <= 64 && 0 <= i < |p|
    ensures BitAt64(MovedLong(p, n, |p|), p[i]) == BitAt64(n, i)
  {
    PermutedBitsLong(p, q, n, p[i]);
  }

  lemma RoundTripBitLong(p: seq<int>, q: seq<int>, n: bv64, j: int)
    ensures IsInverse(p, q) && |p| <= 64 && 0 <= j < 64 ==>
              BitAt64(MovedLong(q, MovedLong(p, n, |p|), |q|), j) == (j < |p| && BitAt64(n, j))
  {
    if IsInverse(p, q) && |p| <= 64 && 0 <= j < 64 {
      assert IsInverse(q, p);
      PermutedBitsLong(q, p, MovedLong(p, n, |p|), j);
      if j < |p| {
        ShuffledBitLong(p, q, n, j);
      }
    }
  }

  lemma RoundTripMaskBitLong(p: seq<int>, q: seq<int>, n: bv64, j: int)
    requires IsInverse(p, q) && |p| <= 64 && 0 <= j < 64
    ensures BitAt64(MovedLong(q, MovedLong(p, n, |p|), |q|), j) == BitAt64(KeepLow64(n, |p|), j)
  {
    RoundTripBitLong(p, q, n, j);
    MaskBit64(n, |p|, j);
  }

  /** Unshuffling a shuffled `long` gives back its low `|p|` bits. */
  lemma RoundTripLong(p: seq<int>, q: seq<int>, n: bv64)
    requires IsInverse(p, q) && |p| <= 64
    ensures MovedLong(q, MovedLong(p, n, |p|), |q|) == KeepLow64(n, |p|)
  {
    forall j | 0 <= j < 64
      ensures BitAt64(MovedLong(q, MovedLong(p, n, |p|), |q|), j) == BitAt64(KeepLow64(n, |p|), j)
    {
      RoundTripMaskBitLong(p, q, n, j);
    }
    Ext64(MovedLong(q, MovedLong(p, n, |p|), |q|), KeepLow64(n, |p|));
  }

  lemma IdentityBitLong(len: nat, n: bv64, j: int)
    requires len <= 64 && 0 <= j < 64
    ensures BitAt64(MovedLong(Identity(len), n, len), j) == BitAt64(KeepLow64(n, len), j)
  {
    IdentityIsPermutation(len);
    PermutedBitsLong(Identity(len), Identity(len), n, j);
    MaskBit64(n, len, j);
  }

  /** The identity keeps the bits below its length and clears the rest. */
  lemma IdentityKeepsLowBits(len: nat, n: bv64)
    requires len <= 64
    ensures MovedLong(Identity(len), n, len) == KeepLow64(n, len)
  {
    forall j | 0 <= j < 64
      ensures BitAt64(MovedLong(Identity(len), n, len), j) == BitAt64(KeepLow64(n, len), j)
    {
      IdentityBitLong(len, n, j);
    }
    Ext64(MovedLong(Identity(len), n, len), KeepLow64(n, len));
  }

  lemma SameStepBelow31(n: bv64, i: int, s: int)
    requires 0 <= i <= 30 && 0 <= s < 64
    ensures StepLongAsWritten(n, i, s) == StepLong(n, i, s)
  {
    BitNumbers3();
    PosOrder8(i, 31);
    PosBound64(s);
    WidenSmall(Pos8(i), Pos64(s), n);
  }

  /** The written `long` rounds agree with the intended ones while `i <= 30`. */
  lemma {:induction false} AsWrittenAgreesBelow31(table: seq<int>, n: bv64, k: nat)
    requires k <= |table| && k <= 31
    ensures MovedLongAsWritten(table, n, k) == MovedLong(table, n, k)
  {
    if k > 0 {
      AsWrittenAgreesBelow31(table, n, k - 1);
      SameStepBelow31(n, k - 1, table[k - 1] % 64);
    }
  }

  /** Below 32 bits the loops as written undo each other. */
  lemma RoundTripLongAsWritten(p: seq<int>, q: seq<int>, n: bv64)
    ensures IsInverse(p, q) && |p| <= 31 ==>
              MovedLongAsWritten(q, MovedLongAsWritten(p, n, Min(|p|, 64)), Min(|q|, 64)) == KeepLow64(n, |p|)
  {
    if IsInverse(p, q) && |p| <= 31 {
      AsWrittenAgreesBelow31(p, n, |p|);
      AsWrittenAgreesBelow31(q, MovedLong(p, n, |p|), |q|);
      RoundTripLong(p, q, n);
    }
  }

  /** The round trips in both orders. */
  lemma RoundTripsLongBoth(p: seq<int>, q: seq<int>, n: bv64)
    ensures IsInverse(p, q) && |p| <= 31 ==>
              MovedLongAsWritten(q, MovedLongAsWritten(p, n, Min(|p|, 64)), Min(|q|, 64)) == KeepLow64(n, |p|) &&
              MovedLongAsWritten(p, MovedLongAsWritten(q, n, Min(|q|, 64)), Min(|p|, 64)) == KeepLow64(n, |p|)
  {
    RoundTripLongAsWritten(p, q, n);
    if IsInverse(p, q) {
      assert IsInverse(q, p);
    }
    RoundTripLongAsWritten(q, p, n);
  }

  lemma OnlyBit32Set(i: int)
    requires 0 <= i < 31
    ensures !BitAt64(0x1_0000_0000, i)
  {
    BitNumbers3();
    PosLess64(i, 31);
    OneBit64(Pos64(i));
  }

  lemma FirstRoundsClearBit(j: int)
    requires 0 <= j < 64
    ensures BitAt64(MovedLong(Identity(32), 0x1_0000_0000, 31), j) == BitAt64(0, j)
  {
    MovedLongBits(Identity(32), 0x1_0000_0000, 31, j);
    ZeroBitAt64(j);
    forall i | 0 <= i < 31
      ensures !BitAt64(0x1_0000_0000, i)
    {
      OnlyBit32Set(i);
    }
  }

  /** The first 31 rounds of the identity of length 32 on `1L << 32` give 0. */
  lemma FirstRoundsClear()
    ensures MovedLongAsWritten(Identity(32), 0x1_0000_0000, 31) == 0
  {
    forall j | 0 <= j < 64
      ensures BitAt64(MovedLong(Identity(32), 0x1_0000_0000, 31), j) == BitAt64(0, j)
    {
      FirstRoundsClearBit(j);
    }
    Ext64(MovedLong(Identity(32), 0x1_0000_0000, 31), 0);
    AsWrittenAgreesBelow31(Identity(32), 0x1_0000_0000, 31);
  }

  /** Round 31 as written uses the sign-extended mask `0xFFFFFFFF80000000L`, so it
      picks up bit 32 and puts it back in place. */
  lemma LastRoundKeepsBit32()
    ensures StepLongAsWritten(0x1_0000_0000, 31, 31) == 0x1_0000_0000
  {
    BitNumbers3();
  }

  /** With the identity of length 32, bit 32 lies beyond the sequence, so the
      intended result clears it; as written, round 31 brings it back. */
  lemma ShuffleLongKeepsBit32()
    ensures MovedLongAsWritten(Identity(32), 0x1_0000_0000, 32) == 0x1_0000_0000
    ensures MovedLong(Identity(32), 0x1_0000_0000, 32) == 0
  {
    FirstRoundsClear();
    LastRoundKeepsBit32();
    assert Identity(32)[31] == 31;
    IdentityKeepsLowBits(32, 0x1_0000_0000);
    BitNumbers4();
  }

  // ---------------------------------------------------------------- the loops

  /** One round of the loop of `shuffleInt`/`unshuffleInt`:
      `result |= ((n & (1 << i)) >>> i) << table[i]`. */
  method RoundInt(table: array<int>, n: bv32, i: int, r: bv32) returns (r': bv32)
    requires 0 <= i < table.Length && i < 32 && r == MovedInt(table[..], n, i)
    ensures r' == MovedInt(table[..], n, i + 1)
  {
    r' := Or32(r, StepInt(n, i, table[i] % 32));
  }

  /** The loop of `shuffleInt`/`unshuffleInt` over a table. */
  method MoveInt(table: array<int>, n: bv32) returns (r: bv32)
    ensures r == MovedInt(table[..], n, Min(table.Length, 32))
  {
    r := 0;
    var i := 0;
    while i < table.Length && i < 32
      invariant 0 <= i <= Min(table.Length, 32)
      invariant r == MovedInt(table[..], n, i)
    {
      r := RoundInt(table, n, i, r);
      i := i + 1;
    }
  }

  /** One round of the loop of `shuffleLong`/`unshuffleLong`, as written. */
  method RoundLong(table: array<int>, n: bv64, i: int, r: bv64) returns (r': bv64)
    requires 0 <= i < table.Length && i < 64 && r == MovedLongAsWritten(table[..], n, i)
    ensures r' == MovedLongAsWritten(table[..], n, i + 1)
  {
    r' := Or64(r, StepLongAsWritten(n, i, table[i] % 64));
  }

  /** The loop of `shuffleLong`/`unshuffleLong` over a table, as written. */
  method MoveLong(table: array<int>, n: bv64) returns (r: bv64)
    ensures r == MovedLongAsWritten(table[..], n, Min(table.Length, 64))
  {
    r := 0;
    var i := 0;
    while i < table.Length && i < 64
      invariant 0 <= i <= Min(table.Length, 64)
      invariant r == MovedLongAsWritten(table[..], n, i)
    {
      r := RoundLong(table, n, i, r);
      i := i + 1;
    }
  }

  // ---------------------------------------------------------------- the object

  class BitShuffler {
    var shuffle: array<int>
    var unshuffle: array<int>

    /** After a successful `reset` or `setShuffleSequence`: the shuffle sequence is
        a permutation and the unshuffle sequence its inverse. */
    ghost predicate Ready()
      reads this, shuffle, unshuffle
    {
      IsPermutation(shuffle[..]) && IsInverse(shuffle[..], unshuffle[..])
    }

    /** `new BitShuffler()`: the 64-bit identity. */
    constructor ()
      ensures shuffle[..] == Identity(64) && unshuffle[..] == Identity(64) && Ready()
    {
      shuffle := new int[0];
      unshuffle := new int[0];
      new;
      var _ := Reset(64);
    }

    /** `verify_sequence`: whether `seq` is a permutation, or the
        `ArrayIndexOutOfBoundsException` a negative entry causes. */
    static method VerifySequence(sq: array<int>) returns (r: Result<bool>)
      ensures r.Err? <==> exists i :: FailsAt(sq[..], i)
      ensures r.Err? ==> r.error == IndexOutOfBounds
      ensures r == Ok(true) <==> IsPermutation(sq[..])
    {
      var len := sq.Length;
      var present := new bool[len](_ => false);
      var i := 0;
      while i < len
        invariant 0 <= i <= len
        invariant forall k :: 0 <= k < i ==> 0 <= sq[k] < len
        invariant forall v :: 0 <= v < len ==> (present[v] <==> v in sq[..i])
      {
        if sq[i] >= len {
          assert !InRange(sq[..]);
          return Ok(false);
        }
        if sq[i] < 0 {
          assert FailsAt(sq[..], i);
          return Err(IndexOutOfBounds);
        }
        present[sq[i]] := true;
        assert sq[..i + 1] == sq[..i] + [sq[i]];
        i := i + 1;
      }
      assert sq[..i] == sq[..];
      i := 0;
      while i < len
        invariant 0 <= i <= len
        invariant forall v :: 0 <= v < i ==> present[v]
      {
        if !present[i] {
          return Ok(false);
        }
        i := i + 1;
      }
      return Ok(true);
    }

    /** `create_unshuffle_sequence`: `unshuffle[shuffle[i]] = i` for every `i`. */
    method CreateUnshuffleSequence()
      requires IsPermutation(shuffle[..])
      modifies this
      ensures shuffle == old(shuffle) && fresh(unshuffle)
      ensures Ready()
    {
      PermutationInjective(shuffle[..]);
      var sh := shuffle;
      var u := new int[sh.Length];
      var i := 0;
      while i < sh.Length
        invariant 0 <= i <= sh.Length
        invariant forall k :: 0 <= k < i ==> u[sh[k]] == k
        modifies u
      {
        u[sh[i]] := i;
        i := i + 1;
      }
      unshuffle := u;
      InverseOf(shuffle[..], unshuffle[..]);
    }

    /** `reset(length)`: the identity of that length, or
        `NegativeArraySizeException` with nothing changed. */
    method Reset(length: int) returns (o: Outcome)
      modifies this
      ensures length < 0 ==> o == Fail(NegativeArraySize) && shuffle == old(shuffle) && unshuffle == old(unshuffle)
      ensures length >= 0 ==> o == Done && fresh(shuffle) && fresh(unshuffle)
      ensures length >= 0 ==> shuffle[..] == Identity(length) && unshuffle[..] == Identity(length) && Ready()
    {
      if length < 0 {
        return Fail(NegativeArraySize);
      }
      var a := new int[length];
      var i := 0;
      while i < length
        invariant 0 <= i <= length
        invariant forall k :: 0 <= k < i ==> a[k] == k
      {
        a[i] := i;
        i := i + 1;
      }
      assert a[..] == Identity(length);
      shuffle := a;
      IdentityIsPermutation(length);
      CreateUnshuffleSequence();
      assert unshuffle[..] == Identity(length) by {
        forall k | 0 <= k < length
          ensures unshuffle[k] == k
        {
          assert unshuffle[shuffle[k]] == k;
        }
      }
      o := Done;
    }

    /** `setShuffleSequence(seq)`. The shuffle array is replaced by a zeroed one
        before the check, so a rejected sequence leaves zeros behind and the old
        unshuffle array in place. */
    method SetShuffleSequence(sq: array<int>) returns (o: Outcome)
      modifies this
      ensures fresh(shuffle)
      ensures o.Done? <==> IsPermutation(sq[..])
      ensures o.Done? ==> shuffle[..] == sq[..] && fresh(unshuffle) && Ready()
      ensures o.Fail? ==> shuffle[..] == seq(sq.Length, _ => 0) && unshuffle == old(unshuffle)
      ensures o.Fail? ==> (o.error == IndexOutOfBounds <==> exists i :: FailsAt(sq[..], i))
      ensures o.Fail? ==> o.error == IndexOutOfBounds || o.error == IllegalArgument
    {
      var a := new int[sq.Length](_ => 0);
      shuffle := a;
      var ok := VerifySequence(sq);
      if ok.Err? {
        return Fail(ok.error);
      }
      if !ok.value {
        return Fail(IllegalArgument);
      }
      var k := 0;
      while k < sq.Length
        invariant 0 <= k <= sq.Length
        invariant a[..k] == sq[..k]
        modifies a
      {
        a[k] := sq[k];
        assert a[..k + 1] == a[..k] + [a[k]];
        k := k + 1;
      }
      assert a[..] == sq[..];
      CreateUnshuffleSequence();
      o := Done;
    }

    /** `length()`: the number of bits, narrowed to `byte`. */
    function Length(): (r: int)
      reads this
      ensures -128 <= r < 128 && (r - shuffle.Length) % 256 == 0
      ensures shuffle.Length < 128 ==> r == shuffle.Length
    {
      ToByte(shuffle.Length)
    }

    /** `shuffleInt(n)`: bit `i` of `n` goes to bit `shuffle[i]`, for `i` below the
        length and below 32; all other bits of the result are 0. */
    method ShuffleInt(n: bv32) returns (r: bv32)
      ensures r == MovedInt(shuffle[..], n, Min(shuffle.Length, 32))
    {
      r := MoveInt(shuffle, n);
    }

    /** `unshuffleInt(n)`: the same loop over the unshuffle sequence. */
    method UnshuffleInt(n: bv32) returns (r: bv32)
      ensures r == MovedInt(unshuffle[..], n, Min(unshuffle.Length, 32))
    {
      r := MoveInt(unshuffle, n);
    }

    /** `shuffleLong(n)`, as written; while the length is at most 31 it is the
        intended bit move. */
    method ShuffleLong(n: bv64) returns (r: bv64)
      ensures r == MovedLongAsWritten(shuffle[..], n, Min(shuffle.Length, 64))
      ensures shuffle.Length <= 31 ==> r == MovedLong(shuffle[..], n, shuffle.Length)
    {
      r := MoveLong(shuffle, n);
      if shuffle.Length <= 31 {
        AsWrittenAgreesBelow31(shuffle[..], n, shuffle.Length);
      }
    }

    /** `unshuffleLong(n)`, as written. */
    method UnshuffleLong(n: bv64) returns (r: bv64)
      ensures r == MovedLongAsWritten(unshuffle[..], n, Min(unshuffle.Length, 64))
      ensures unshuffle.Length <= 31 ==> r == MovedLong(unshuffle[..], n, unshuffle.Length)
    {
      r := MoveLong(unshuffle, n);
      if unshuffle.Length <= 31 {
        AsWrittenAgreesBelow31(unshuffle[..], n, unshuffle.Length);
      }
    }
  }

  /** `new BitShuffler(seq)`: a shuffler for a permutation, or the exception the
      constructor throws. */
  method WithSequence(sq: array<int>) returns (r: Result<BitShuffler>)
    ensures r.Ok? <==> IsPermutation(sq[..])
    ensures r.Ok? ==> r.value.shuffle[..] == sq[..] && r.value.Ready()
    ensures r.Err? ==> (r.error == IndexOutOfBounds <==> exists i :: FailsAt(sq[..], i))
    ensures r.Err? ==> r.error == IndexOutOfBounds || r.error == IllegalArgument
  {
    var b := new BitShuffler();
    var o := b.SetShuffleSequence(sq);
    if o.Fail? {
      return Err(o.error);
    }
    return Ok(b);
  }

  /** Both compositions of `shuffleInt` and `unshuffleInt` give back the low bits. */
  method RoundTripsInt(b: BitShuffler, n: bv32) returns (there: bv32, back: bv32)
    requires b.Ready() && b.shuffle.Length <= 32
    ensures there == KeepLow32(n, b.shuffle.Length)
    ensures back == KeepLow32(n, b.shuffle.Length)
  {
    var s := b.ShuffleInt(n);
    there := b.UnshuffleInt(s);
    var u := b.UnshuffleInt(n);
    back := b.ShuffleInt(u);
    RoundTripsIntBoth(b.shuffle[..], b.unshuffle[..], n);
  }

  /** Both compositions of `shuffleLong` and `unshuffleLong` give back the low bits
      while the length is at most 31. */
  method RoundTripsLong(b: BitShuffler, n: bv64) returns (there: bv64, back: bv64)
    requires b.Ready() && b.shuffle.Length <= 31
    ensures there == KeepLow64(n, b.shuffle.Length)
    ensures back == KeepLow64(n, b.shuffle.Length)
  {
    var s := b.ShuffleLong(n);
    there := b.UnshuffleLong(s);
    var u := b.UnshuffleLong(n);
    back := b.ShuffleLong(u);
    ShufflerRoundTripsLong(b, n);
  }

  /** Both compositions of the `long` loops of a ready shuffler of at most 31
      bits give back the low bits. */
  lemma ShufflerRoundTripsLong(b: BitShuffler, n: bv64)
    ensures b.Ready() && b.shuffle.Length <= 31 ==>
              MovedLongAsWritten(b.unshuffle[..], MovedLongAsWritten(b.shuffle[..], n, Min(b.shuffle.Length, 64)), Min(b.unshuffle.Length, 64)) == KeepLow64(n, b.shuffle.Length) &&
              MovedLongAsWritten(b.shuffle[..], MovedLongAsWritten(b.unshuffle[..], n, Min(b.unshuffle.Length, 64)), Min(b.shuffle.Length, 64)) == KeepLow64(n, b.shuffle.Length)
  {
    RoundTripsLongBoth(b.shuffle[..], b.unshuffle[..], n);
  }
}
