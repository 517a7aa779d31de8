/**
 The PNG CRC-32 of the image fixtures: a table of 256 words and one lookup per byte,
 against the bit-serial register of the PNG specification (section 3.4 of RFC 2083).
 */
module Crc32 {

  type Word = bv32
  type Byte = bv8

  const POLYNOMIAL: Word := 0xedb88320

  /** One shift of the register: the low bit decides whether the polynomial is folded in. */
  function Shift(c: Word): Word {
    if c & 1 == 1 then POLYNOMIAL ^ (c >> 1) else c >> 1
  }

  function Shifts(c: Word, n: nat): Word {
    if n == 0 then c else Shift(Shifts(c, n - 1))
  }

  // ---------- the reference: one message bit at a time ----------

  /** Feed one bit: the register is shifted, and folded when its low bit differs from the message bit. */
  function FeedBit(c: Word, bit: bool): Word {
    if (c & 1 == 1) != bit then POLYNOMIAL ^ (c >> 1) else c >> 1
  }

  function BitOf(b: Byte, k: nat): bool
    requires k < 8
  {
    (b >> k) & 1 == 1
  }

  /** The first `k` bits of a byte, least significant first. */
  function FeedBits(c: Word, b: Byte, k: nat): Word
    requires k <= 8
  {
    if k == 0 then c else FeedBit(FeedBits(c, b, k - 1), BitOf(b, k - 1))
  }

  function Feed(c: Word, message: seq<Byte>): Word {
    if message == [] then c else FeedBits(Feed(c, message[..|message| - 1]), message[|message| - 1], 8)
  }

  /** The register starts with all ones and is complemented at the end. */
  function Reference(message: seq<Byte>): Word {
    Complement(Feed(0xffffffff, message))
  }

  function Complement(c: Word): Word { c ^ 0xffffffff }

  // ---------- the shift is linear and invertible ----------

  // `c` is the sum of `a` and `b`.  Sums are related rather than written out, so that a proof
  // about whole registers does not have to look at their bits.
  ghost predicate Sum(a: Word, b: Word, c: Word) { c == a ^ b }

  lemma ShiftLinear(a: Word, b: Word, c: Word)
    requires Sum(a, b, c)
    ensures Sum(Shift(a), Shift(b), Shift(c))
  {
    XorParts(a, b);
    XorCancels(POLYNOMIAL, a >> 1, b >> 1);
  }

  lemma XorParts(a: Word, b: Word)
    ensures (a ^ b) >> 1 == (a >> 1) ^ (b >> 1)
    ensures (a ^ b) & 1 == (a & 1) ^ (b & 1)
    ensures (a & 1 == 0 || a & 1 == 1) && (b & 1 == 0 || b & 1 == 1)
  {
  }

  lemma XorCancels(p: Word, a: Word, b: Word)
    ensures (p ^ a) ^ (p ^ b) == a ^ b
    ensures p ^ (a ^ b) == (p ^ a) ^ b == a ^ (p ^ b)
  {
  }

  lemma {:induction false} ShiftsLinear(a: Word, b: Word, c: Word, n: nat)
    requires Sum(a, b, c)
    ensures Sum(Shifts(a, n), Shifts(b, n), Shifts(c, n))
  {
    if n > 0 {
      ShiftsLinear(a, b, c, n - 1);
      ShiftLinear(Shifts(a, n - 1), Shifts(b, n - 1), Shifts(c, n - 1));
    }
  }

  /** The polynomial's top bit tells which branch a shift took, so no two registers shift to one. */
  lemma ShiftInjective(a: Word, b: Word)
    requires Shift(a) == Shift(b)
    ensures a == b
  {
  }

  lemma {:induction false} ShiftsInjective(a: Word, b: Word, n: nat)
    requires Shifts(a, n) == Shifts(b, n)
    ensures a == b
  {
    if n > 0 {
      ShiftInjective(Shifts(a, n - 1), Shifts(b, n - 1));
      ShiftsInjective(a, b, n - 1);
    }
  }

  lemma {:induction false} ShiftsAdd(c: Word, m: nat, n: nat)
    ensures Shifts(Shifts(c, m), n) == Shifts(c, m + n)
  {
    if n > 0 { ShiftsAdd(c, m, n - 1); }
  }

  // ---------- one byte ----------

  function Wide(b: Byte): Word { b as Word }

  lemma PlainFour(c: Word)
    ensures c & 0xf == 0 ==> Shifts(c, 4) == c >> 4
  {
    if c & 0xf == 0 {
      assert c & 1 == 0 && (c >> 1) & 1 == 0 && ((c >> 1) >> 1) & 1 == 0 && (((c >> 1) >> 1) >> 1) & 1 == 0;
      assert Shifts(c, 1) == c >> 1;
      assert Shifts(c, 2) == (c >> 1) >> 1;
      assert Shifts(c, 3) == ((c >> 1) >> 1) >> 1;
      assert Shifts(c, 4) == (((c >> 1) >> 1) >> 1) >> 1;
    }
  }

  /** Above the low byte there is nothing to fold: eight shifts only move it down. */
  lemma PlainShifts(c: Word, n: nat)
    requires c & 0xff == 0 && n == 8
    ensures Shifts(c, n) == c >> 8
  {
    PlainFour(c);
    PlainFour(c >> 4);
    ShiftsAdd(c, 4, 4);
    assert c & 0xf == 0 && (c >> 4) & 0xf == 0 && (c >> 4) >> 4 == c >> 8;
  }

  lemma SplitLow(x: Word) returns (low: Word, high: Word, moved: Word)
    ensures low == x & 0xff && moved == x >> 8
    ensures Sum(low, high, x) && high & 0xff == 0 && high >> 8 == moved
  {
    MaskFacts(x);
    low, high, moved := x & 0xff, x & 0xffffff00, x >> 8;
  }

  lemma MaskFacts(x: Word)
    ensures Sum(x & 0xff, x & 0xffffff00, x)
    ensures (x & 0xffffff00) & 0xff == 0 && (x & 0xffffff00) >> 8 == x >> 8
  {
  }

  /** The table step: one lookup and one shift by a byte stand for eight single shifts. */
  lemma TableStep(x: Word, n: nat) returns (low: Word, moved: Word)
    requires n == 8
    ensures low == x & 0xff && moved == x >> 8
    ensures Sum(Shifts(low, n), moved, Shifts(x, n))
  {
    var high;
    low, high, moved := SplitLow(x);
    SplitShifts(low, high, x, moved, n);
  }

  lemma SplitShifts(low: Word, high: Word, x: Word, moved: Word, n: nat)
    requires Sum(low, high, x) && high & 0xff == 0 && moved == high >> 8 && n == 8
    ensures Sum(Shifts(low, n), moved, Shifts(x, n))
  {
    ShiftsLinear(low, high, x, n);
    PlainShifts(high, n);
  }

  lemma FoldingKeepsHighBits(c: Word, b: Byte, x: Word)
    requires Sum(c, Wide(b), x)
    ensures x >> 8 == c >> 8
  {
  }

  // ---------- bits against bytes ----------

  // The bits of `b` that are still to be fed after the first k.
  function Pending(b: Byte, k: nat): Word
    requires k <= 8
  {
    Wide(b >> k)
  }

  lemma PendingShifts(b: Byte, k: nat)
    requires k < 8
    ensures Pending(b, k) >> 1 == Pending(b, k + 1) && BitOf(b, k) == (Pending(b, k) & 1 == 1)
  {
  }

  /** Feeding the low bit of `rest` is shifting the register with all of `rest` folded in. */
  lemma FeedLowBit(c: Word, rest: Word, x: Word)
    requires Sum(x, rest, c)
    ensures Sum(Shift(x), rest >> 1, FeedBit(c, rest & 1 == 1))
  {
    XorParts(x, rest);
    XorCancels(POLYNOMIAL, x >> 1, rest >> 1);
  }

  /** After k bits the register is the whole byte folded in and shifted k times, less the pending bits. */
  lemma {:induction false} FeedBitsIsShifts(c: Word, b: Byte, x: Word, k: nat)
    requires k <= 8 && Sum(c, Wide(b), x)
    ensures Sum(Shifts(x, k), Pending(b, k), FeedBits(c, b, k))
  {
    if k == 0 {
      assert b >> 0 == b;
    } else {
      FeedBitsIsShifts(c, b, x, k - 1);
      PendingShifts(b, k - 1);
      FeedLowBit(FeedBits(c, b, k - 1), Pending(b, k - 1), Shifts(x, k - 1));
    }
  }

  /** Feeding a byte bit by bit is folding it in and shifting eight times. */
  lemma FeedByte(c: Word, b: Byte, x: Word, n: nat)
    requires Sum(c, Wide(b), x) && n == 8
    ensures FeedBits(c, b, n) == Shifts(x, n)
  {
    FeedBitsIsShifts(c, b, x, n);
    NonePending(b, n);
    SumWithZero(Shifts(x, n), FeedBits(c, b, n));
  }

  lemma NonePending(b: Byte, n: nat)
    requires n == 8
    ensures Pending(b, n) == 0
  {
  }

  lemma SumWithZero(a: Word, c: Word)
    requires Sum(a, 0, c)
    ensures a == c
  {
  }

  // ---------- the program ----------

  ghost predicate IsCrcTable(table: seq<Word>) {
    |table| == 256 && forall w: Word :: w < 256 ==> table[w as int] == Shifts(w, 8)
  }

  lemma ByteStep(table: seq<Word>, c: Word, b: Byte, x: Word, index: int, next: Word)
    requires IsCrcTable(table) && Sum(c, Wide(b), x)
    requires index == (x & 0xff) as int && Sum(table[index], c >> 8, next)
    ensures next == FeedBits(c, b, 8)
  {
    FeedByte(c, b, x, 8);
    var low, moved := TableStep(x, 8);
    FoldingKeepsHighBits(c, b, x);
    assert table[low as int] == Shifts(low, 8);
    SumUnique(table[index], moved, next, Shifts(x, 8));
  }

  lemma SumUnique(a: Word, b: Word, c: Word, d: Word)
    requires Sum(a, b, c) && Sum(a, b, d)
    ensures c == d
  {
  }

  /** Build the table: eight shifts of every byte value. */
  method MakeTable() returns (table: array<Word>)
    ensures IsCrcTable(table[..])
  {
    table := new Word[256];
    var n := 0;
    while n < 256
      invariant 0 <= n <= 256
      invariant forall w: Word :: (w as int) < n ==> table[w as int] == Shifts(w, 8)
    {
      var c := n as Word;
      var k := 0;
      while k < 8
        invariant 0 <= k <= 8
        invariant c == Shifts(n as Word, k)
      {
        c := if c & 1 == 1 then 0xedb88320 ^ (c >> 1) else c >> 1;
        k := k + 1;
      }
      table[n] := c;
      n := n + 1;
    }
  }

  /** The table step of one byte feeds its eight bits. */
  method Lookup(table: array<Word>, c: Word, b: Byte) returns (next: Word)
    requires IsCrcTable(table[..])
    ensures next == FeedBits(c, b, 8)
  {
    var x := c ^ Wide(b);
    var index := (x & 0xff) as int;
    next := table[index] ^ (c >> 8);
    ByteStep(table[..], c, b, x, index, next);
  }

  /** One lookup per byte computes the bit-serial checksum. */
  method Checksum(table: array<Word>, buf: seq<Byte>) returns (crc: Word)
    requires IsCrcTable(table[..])
    ensures crc == Reference(buf)
  {
    var c: Word := 0xffffffff;
    var i := 0;
    while i < |buf|
      invariant 0 <= i <= |buf|
      invariant c == Feed(0xffffffff, buf[..i])
    {
      c := Lookup(table, c, buf[i]);
      FeedOneMore(buf, i);
      i := i + 1;
    }
    WholeMessage(buf, c);
    crc := Complement(c);
  }

  lemma FeedOneMore(buf: seq<Byte>, i: nat)
    requires i < |buf|
    ensures Feed(0xffffffff, buf[..i + 1]) == FeedBits(Feed(0xffffffff, buf[..i]), buf[i], 8)
  {
    assert buf[..i + 1][..i] == buf[..i];
  }

  lemma WholeMessage(buf: seq<Byte>, c: Word)
    requires c == Feed(0xffffffff, buf[..|buf|])
    ensures Complement(c) == Reference(buf)
  {
    assert buf[..|buf|] == buf;
  }

  // ---------- the constants, pinned ----------

  // The term x^e of the polynomial, in the reflected order of the register.
  function Term(e: nat): Word
    requires e <= 31
  {
    1 << (31 - e)
  }

  /** The generator x^32 + x^26 + x^23 + x^22 + x^16 + x^12 + x^11 + x^10 + x^8 + x^7 + x^5 + x^4 + x^2 + x + 1. */
  lemma PolynomialIs()
    ensures POLYNOMIAL == Term(26) | Term(23) | Term(22) | Term(16) | Term(12) | Term(11) | Term(10)
                          | Term(8) | Term(7) | Term(5) | Term(4) | Term(2) | Term(1) | Term(0)
  {
  }

  lemma FeedI()
    ensures FeedBits(0xffffffff, 0x49, 8) == 0x22fde946
  {
    assert FeedBits(0xffffffff, 0x49, 1) == 0x7fffffff;
    assert FeedBits(0xffffffff, 0x49, 2) == 0xd2477cdf;
    assert FeedBits(0xffffffff, 0x49, 3) == 0x849b3d4f;
    assert FeedBits(0xffffffff, 0x49, 4) == 0x424d9ea7;
    assert FeedBits(0xffffffff, 0x49, 5) == 0xcc9e4c73;
    assert FeedBits(0xffffffff, 0x49, 6) == 0x8bf7a519;
    assert FeedBits(0xffffffff, 0x49, 7) == 0x45fbd28c;
    assert FeedBits(0xffffffff, 0x49, 8) == 0x22fde946;
  }

  lemma FeedE()
    ensures FeedBits(0x22fde946, 0x45, 8) == 0x992bac53
  {
    assert FeedBits(0x22fde946, 0x45, 1) == 0xfcc67783;
    assert FeedBits(0x22fde946, 0x45, 2) == 0x93dbb8e1;
    assert FeedBits(0x22fde946, 0x45, 3) == 0x49eddc70;
    assert FeedBits(0x22fde946, 0x45, 4) == 0x24f6ee38;
    assert FeedBits(0x22fde946, 0x45, 5) == 0x127b771c;
    assert FeedBits(0x22fde946, 0x45, 6) == 0x93dbb8e;
    assert FeedBits(0x22fde946, 0x45, 7) == 0xe9265ee7;
    assert FeedBits(0x22fde946, 0x45, 8) == 0x992bac53;
  }

  lemma FeedN()
    ensures FeedBits(0x992bac53, 0x4e, 8) == 0x639f4775
  {
    assert FeedBits(0x992bac53, 0x4e, 1) == 0xa12d5509;
    assert FeedBits(0x992bac53, 0x4e, 2) == 0x5096aa84;
    assert FeedBits(0x992bac53, 0x4e, 3) == 0xc5f3d662;
    assert FeedBits(0x992bac53, 0x4e, 4) == 0x8f416811;
    assert FeedBits(0x992bac53, 0x4e, 5) == 0xaa183728;
    assert FeedBits(0x992bac53, 0x4e, 6) == 0x550c1b94;
    assert FeedBits(0x992bac53, 0x4e, 7) == 0xc73e8eea;
    assert FeedBits(0x992bac53, 0x4e, 8) == 0x639f4775;
  }

  lemma FeedD()
    ensures FeedBits(0x639f4775, 0x44, 8) == 0x51bd9f7d
  {
    assert FeedBits(0x639f4775, 0x44, 1) == 0xdc77209a;
    assert FeedBits(0x639f4775, 0x44, 2) == 0x6e3b904d;
    assert FeedBits(0x639f4775, 0x44, 3) == 0x371dc826;
    assert FeedBits(0x639f4775, 0x44, 4) == 0x1b8ee413;
    assert FeedBits(0x639f4775, 0x44, 5) == 0xe07ff129;
    assert FeedBits(0x639f4775, 0x44, 6) == 0x9d877bb4;
    assert FeedBits(0x639f4775, 0x44, 7) == 0xa37b3efa;
    assert FeedBits(0x639f4775, 0x44, 8) == 0x51bd9f7d;
  }

  lemma FeedNext(c: Word, init: seq<Byte>, b: Byte)
    ensures Feed(c, init + [b]) == FeedBits(Feed(c, init), b, 8)
  {
    assert (init + [b])[..|init|] == init;
  }

  /** The checksum of the empty end chunk that closes every PNG file. */
  lemma ChecksumOfEnd()
    ensures Reference([0x49, 0x45, 0x4e, 0x44]) == 0xae426082
  {
    var m: seq<Byte> := [0x49, 0x45, 0x4e, 0x44];
    FeedI();
    FeedE();
    FeedN();
    FeedD();
    FeedNext(0xffffffff, [], 0x49);
    FeedNext(0xffffffff, [0x49], 0x45);
    FeedNext(0xffffffff, [0x49, 0x45], 0x4e);
    FeedNext(0xffffffff, [0x49, 0x45, 0x4e], 0x44);
    assert [] + [0x49] == [0x49] && [0x49] + [0x45] == [0x49, 0x45] && [0x49, 0x45] + [0x4e] == [0x49, 0x45, 0x4e];
    assert m == [0x49, 0x45, 0x4e] + [0x44];
    assert Complement(0x51bd9f7d) == 0xae426082;
  }
}
