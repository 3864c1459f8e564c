/**
 What words and masks are as numbers: counters, lengths, sums and masks by
 binary digits, bytes by place.
 */
module Digits {
  import opened Bits
  import opened Compression

  /** Binary digit i of a number, the least significant first. */
  predicate Digit(n: nat, i: nat) {
    if i == 0 then n % 2 == 1 else Digit(n / 2, i - 1)
  }

  function Twice(w: Word): Word { w << 1 }

  function TwiceOne(w: Word): Word { (w << 1) | 1 }

  function Next(w: Word): Word { w + 1 }

  function And32(a: Word, b: Word): Word { a & b }

  /** The word whose only digit is digit i. */
  function Mask(i: nat): (m: Word)
    requires i < 32
  {
    if i == 0 then 1 else Twice(Mask(i - 1))
  }

  predicate WordDigit(w: Word, i: nat)
    requires i < 32
  {
    And32(w, Mask(i)) != 0
  }

  lemma NextTwice(w: Word)
    ensures Next(Twice(w)) == TwiceOne(w) && Next(TwiceOne(w)) == Twice(Next(w))
  {}

  lemma WordNext(n: nat)
    ensures WordOf(n + 1) == Next(WordOf(n))
  {}

  lemma {:induction false} WordTwice(n: nat)
    ensures WordOf(2 * n) == Twice(WordOf(n)) && WordOf(2 * n + 1) == TwiceOne(WordOf(n))
  {
    if n == 0 {
      WordNext(0);
      assert WordOf(1) == 1;
    } else {
      hide WordOf, Twice, TwiceOne, Next;
      WordTwice(n - 1);
      WordNext(2 * n - 2);
      WordNext(2 * n - 1);
      WordNext(2 * n);
      WordNext(n - 1);
      NextTwice(WordOf(n - 1));
      NextTwice(WordOf(n));
    }
  }

  /** Doubling a number shifts its word to the left. */
  lemma WordDoubles(n: nat)
    ensures WordOf(0) == 0
    ensures WordOf(2 * n) == WordOf(n) << 1 && WordOf(2 * n + 1) == (WordOf(n) << 1) | 1
  {
    hide WordOf;
    WordTwice(n);
    assert WordOf(0) == 0 by { WordZero(); }
  }

  lemma WordZero()
    ensures WordOf(0) == 0
  {}

  // ---------- Digits ----------

  /** w can be doubled k times without losing a digit. */
  predicate Room(w: Word, k: nat)
    decreases k
  {
    k == 0 || (And32(w, 0x8000_0000) == 0 && Room(Twice(w), k - 1))
  }

  lemma RoomAboveOne()
    ensures Room(1, 31)
  {
    assert Room(0x8000_0000, 0) && Room(0x4000_0000, 1) && Room(0x2000_0000, 2) && Room(0x1000_0000, 3);
    assert Room(0x800_0000, 4) && Room(0x400_0000, 5) && Room(0x200_0000, 6) && Room(0x100_0000, 7);
    assert Room(0x80_0000, 8) && Room(0x40_0000, 9) && Room(0x20_0000, 10) && Room(0x10_0000, 11);
    assert Room(0x8_0000, 12) && Room(0x4_0000, 13) && Room(0x2_0000, 14) && Room(0x1_0000, 15);
    assert Room(0x8000, 16) && Room(0x4000, 17) && Room(0x2000, 18) && Room(0x1000, 19);
    assert Room(0x800, 20) && Room(0x400, 21) && Room(0x200, 22) && Room(0x100, 23);
    assert Room(0x80, 24) && Room(0x40, 25) && Room(0x20, 26) && Room(0x10, 27);
    assert Room(0x8, 28) && Room(0x4, 29) && Room(0x2, 30);
  }

  lemma {:induction false} RoomAboveMask(i: nat)
    requires i < 32
    ensures Room(Mask(i), 31 - i)
  {
    if i == 0 {
      RoomAboveOne();
    } else {
      hide Twice, And32;
      RoomAboveMask(i - 1);
    }
  }

  lemma DigitTwice(w: Word, m: Word)
    requires And32(m, 0x8000_0000) == 0
    ensures And32(Twice(w), Twice(m)) != 0 <==> And32(w, m) != 0
    ensures And32(TwiceOne(w), Twice(m)) != 0 <==> And32(w, m) != 0
  {
    hide *;
    AndTwice(w, m);
    TwiceIsZero(w, m);
  }

  lemma AndTwice(w: Word, m: Word)
    ensures And32(Twice(w), Twice(m)) == Twice(And32(w, m)) == And32(TwiceOne(w), Twice(m))
  {}

  lemma TwiceIsZero(w: Word, m: Word)
    requires And32(m, 0x8000_0000) == 0
    ensures Twice(And32(w, m)) == 0 <==> And32(w, m) == 0
  {}

  lemma DigitZero(w: Word)
    ensures And32(Twice(w), 1) == 0 && And32(TwiceOne(w), 1) != 0
  {}

  lemma MaskTwice(n: nat, i: nat)
    requires 0 < i < 32
    ensures WordDigit(WordOf(n), i) <==> WordDigit(WordOf(n / 2), i - 1)
  {
    hide WordOf, Twice, TwiceOne, And32;
    RoomAboveMask(i - 1);
    WordTwice(n / 2);
    DigitTwice(WordOf(n / 2), Mask(i - 1));
    assert n == 2 * (n / 2) || n == 2 * (n / 2) + 1;
  }

  /** The digits of a number's word are the 32 lowest digits of the number. */
  lemma {:induction false} WordDigits(n: nat, i: nat)
    requires i < 32
    ensures WordDigit(WordOf(n), i) <==> Digit(n, i)
  {
    hide WordOf;
    if i == 0 {
      hide Twice, TwiceOne, And32;
      WordTwice(n / 2);
      DigitZero(WordOf(n / 2));
      assert n == 2 * (n / 2) || n == 2 * (n / 2) + 1;
    } else {
      hide WordDigit;
      MaskTwice(n, i);
      WordDigits(n / 2, i - 1);
    }
  }

  /** Shifting a number down by e moves its digits down by e places. */
  lemma {:induction false} DigitShr(n: nat, e: nat, i: nat)
    ensures Digit(Shr(n, e), i) == Digit(n, e + i)
  {
    if e > 0 {
      DigitShr(n / 2, e - 1, i);
    }
  }

  lemma {:induction false} ShrIsDiv(n: nat, e: nat, k: nat)
    requires k == Pow2(e) && k > 0
    ensures Shr(n, e) == n / k
  {
    if e > 0 {
      var h := Pow2(e - 1);
      ShrIsDiv(n / 2, e - 1, h);
      HalfDiv(n, h);
    }
  }

  lemma HalfDiv(n: nat, h: nat)
    requires h > 0
    ensures n / (2 * h) == n / 2 / h
  {
    var q, r := n / 2 / h, n / 2 % h;
    assert n / 2 == h * q + r;
    assert (2 * h) * q == 2 * (h * q);
    DivModUnique(n, 2 * h, q, 2 * r + n % 2);
  }

  /** The remainder modulo 2^e keeps the e lowest digits. */
  lemma {:induction false} DigitMod(n: nat, e: nat, i: nat, k: nat)
    requires i < e && k == Pow2(e) && k > 0
    ensures Digit(n % k, i) == Digit(n, i)
  {
    var h := Pow2(e - 1);
    HalfMod(n, h);
    assert n % k == 2 * (n / 2 % h) + n % 2;
    if i > 0 {
      DigitMod(n / 2, e - 1, i - 1, h);
    }
  }

  /** The two counter words hold the 64 lowest digits of the counter. */
  lemma CounterDigits(counter: nat, i: nat)
    requires i < 32
    ensures WordDigit(CounterLow(counter), i) <==> Digit(counter, i)
    ensures WordDigit(CounterHigh(counter), i) <==> Digit(counter, 32 + i)
  {
    hide WordOf, WordDigit;
    Pow2Bytes();
    WordDigits(counter % TWO_32, i);
    DigitMod(counter, 32, i, TWO_32);
    WordDigits(counter / TWO_32 % TWO_32, i);
    DigitMod(counter / TWO_32, 32, i, TWO_32);
    ShrIsDiv(counter, 32, TWO_32);
    DigitShr(counter, 32, i);
  }

  lemma {:induction false} DigitsDiffer(a: nat, b: nat, e: nat) returns (i: nat)
    requires a < Pow2(e) && b < Pow2(e) && a != b
    ensures i < e && Digit(a, i) != Digit(b, i)
  {
    if a % 2 != b % 2 {
      i := 0;
    } else {
      i := DigitsDiffer(a / 2, b / 2, e - 1);
      i := i + 1;
    }
  }

  /** Counters below 2^64 have the same two words only if they are equal. */
  lemma CountersDiffer(a: nat, b: nat)
    requires a < TWO_64 && b < TWO_64
    ensures CounterLow(a) == CounterLow(b) && CounterHigh(a) == CounterHigh(b) <==> a == b
  {
    hide CounterLow, CounterHigh, WordDigit;
    if a != b {
      Pow2Bytes();
      var i := DigitsDiffer(a, b, 64);
      if i < 32 {
        CounterDigits(a, i);
        CounterDigits(b, i);
      } else {
        CounterDigits(a, i - 32);
        CounterDigits(b, i - 32);
      }
    }
  }

  /** The bitwise operations on numbers work digit by digit. */
  lemma {:induction false} AndOrDigits(a: nat, b: nat, i: nat)
    ensures Digit(BitAnd(a, b), i) <==> Digit(a, i) && Digit(b, i)
    ensures Digit(BitOr(a, b), i) <==> Digit(a, i) || Digit(b, i)
  {
    if i > 0 {
      AndOrDigits(a / 2, b / 2, i - 1);
      AndHalves(a, b);
    }
  }

  lemma AndHalves(a: nat, b: nat)
    ensures BitAnd(a, b) / 2 == BitAnd(a / 2, b / 2) && BitOr(a, b) / 2 == BitOr(a / 2, b / 2)
  {}

  // ---------- Sums ----------

  /** Word addition is addition of numbers, wrapping around. */
  lemma {:induction false} WordSum(a: nat, b: nat)
    ensures Add32(WordOf(a), WordOf(b)) == WordOf(a + b)
  {
    hide WordOf, Add32, Next;
    if b == 0 {
      WordZero();
      AddZero(WordOf(a));
    } else {
      WordSum(a, b - 1);
      WordNext(b - 1);
      WordNext(a + b - 1);
      AddNext(WordOf(a), WordOf(b - 1));
    }
  }

  lemma AddZero(v: Word)
    ensures Add32(v, 0) == v
  {}

  lemma AddNext(v: Word, w: Word)
    ensures Add32(v, Next(w)) == Next(Add32(v, w))
  {
    hide *;
    NextIs(w);
    NextIs(Add32(v, w));
    AddOne(v, w);
  }

  lemma NextIs(w: Word)
    ensures Next(w) == w + 1
  {}

  lemma AddOne(v: Word, w: Word)
    ensures Add32(v, w + 1) == Add32(v, w) + 1
  {}

  // ---------- Bytes ----------

  /** Byte k of word i is byte 4i + k of the block, the least significant first. */
  lemma BlockBytes(block: Block, i: nat)
    requires i < 16
    ensures var w := BlockWords(block)[i];
      && w & 0xff == block[4 * i] as Word && (w >> 8) & 0xff == block[4 * i + 1] as Word
      && (w >> 16) & 0xff == block[4 * i + 2] as Word && w >> 24 == block[4 * i + 3] as Word
  {
    LoadAt(block, i);
    LoadBytes(block[4 * i], block[4 * i + 1], block[4 * i + 2], block[4 * i + 3]);
  }

  lemma {:induction false} LoadAt(bs: seq<Byte>, i: nat)
    requires |bs| % 4 == 0 && i < |bs| / 4
    ensures LoadWords(bs)[i] == Load32(bs[4 * i], bs[4 * i + 1], bs[4 * i + 2], bs[4 * i + 3])
  {
    if i > 0 {
      LoadAt(bs[4..], i - 1);
    }
  }

  lemma LoadBytes(b0: Byte, b1: Byte, b2: Byte, b3: Byte)
    ensures var w := Load32(b0, b1, b2, b3);
      && w & 0xff == b0 as Word && (w >> 8) & 0xff == b1 as Word
      && (w >> 16) & 0xff == b2 as Word && w >> 24 == b3 as Word
  {}

  /** Stored bytes are the bytes of the words, the least significant first. */
  lemma StoredBytes(ws: seq<Word>, i: nat)
    requires i < |ws|
    ensures var bs := StoreWords(ws);
      && bs[4 * i] as Word == ws[i] & 0xff && bs[4 * i + 1] as Word == (ws[i] >> 8) & 0xff
      && bs[4 * i + 2] as Word == (ws[i] >> 16) & 0xff && bs[4 * i + 3] as Word == ws[i] >> 24
  {
    hide StoreWords, LoadWords, Load32;
    var bs := StoreWords(ws);
    LoadStoreWords(ws);
    LoadAt(bs, i);
    LoadBytes(bs[4 * i], bs[4 * i + 1], bs[4 * i + 2], bs[4 * i + 3]);
  }

  // ---------- The constants ----------

  const PRIMES: seq<nat> := [2, 3, 5, 7, 11, 13, 17, 19]

  /** Their square roots, rounded down. */
  const ROOTS: seq<nat> := [1, 1, 2, 2, 3, 3, 4, 4]

  /** bits are the first 32 fractional bits of the square root of p, whose integer part is root. */
  predicate RootBits(p: nat, root: nat, bits: nat) {
    var x := root * TWO_32 + bits;
    bits < TWO_32 && root * root <= p < (root + 1) * (root + 1) && x * x <= p * TWO_32 * TWO_32 < (x + 1) * (x + 1)
  }

  lemma RootTable()
    ensures RootBits(2, 1, 0x6A09E667) && RootBits(3, 1, 0xBB67AE85)
    ensures RootBits(5, 2, 0x3C6EF372) && RootBits(7, 2, 0xA54FF53A)
    ensures RootBits(11, 3, 0x510E527F) && RootBits(13, 3, 0x9B05688C)
    ensures RootBits(17, 4, 0x1F83D9AB) && RootBits(19, 4, 0x5BE0CD19)
  {}

  /** Word i of IV is made of the square root of the i-th prime. */
  lemma IvIsSquareRoots(i: nat)
    requires i < 8
    ensures RootBits(PRIMES[i], ROOTS[i], IV[i] as nat)
  {
    hide RootBits;
    RootTable();
    assert IV[0] as nat == 0x6A09E667 && IV[1] as nat == 0xBB67AE85;
    assert IV[2] as nat == 0x3C6EF372 && IV[3] as nat == 0xA54FF53A;
    assert IV[4] as nat == 0x510E527F && IV[5] as nat == 0x9B05688C;
    assert IV[6] as nat == 0x1F83D9AB && IV[7] as nat == 0x5BE0CD19;
  }

  /** The domain flags are the four lowest digits. */
  lemma FlagDigits()
    ensures CHUNK_START as Word == Mask(0) && CHUNK_END as Word == Mask(1)
    ensures PARENT as Word == Mask(2) && ROOT as Word == Mask(3)
  {
    assert Mask(1) == 2;
    assert Mask(2) == 4;
  }

  /** What each of the sixteen words of a starting state holds, digit by digit for the numbers. */
  lemma StartWords(cv: Words8, blockLen: nat, counter: nat, flags: Byte, i: nat, d: nat)
    requires i < 16 && d < 32
    ensures var w := WordAt(StartState(cv, BlockInfo(blockLen, counter, flags)), i);
      && (i < 8 ==> w == cv[i])
      && (8 <= i < 12 ==> w == IV[i - 8])
      && (i == 12 ==> (WordDigit(w, d) <==> Digit(counter, d)))
      && (i == 13 ==> (WordDigit(w, d) <==> Digit(counter, 32 + d)))
      && (i == 14 ==> (WordDigit(w, d) <==> Digit(blockLen, d)))
      && (i == 15 ==> w == flags as Word)
  {
    hide WordOf, WordDigit, Digit, CounterLow, CounterHigh;
    CounterDigits(counter, d);
    WordDigits(blockLen, d);
  }
}
