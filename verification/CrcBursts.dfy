/**
 What the checksum is for: a burst of damage of at most 32 bits always changes it.
 */
module CrcBursts {
  import opened Crc32

  // ---------- windows of whole bytes ----------

  lemma {:induction false} FeedConcat(c: Word, a: seq<Byte>, b: seq<Byte>)
    ensures Feed(c, a + b) == Feed(Feed(c, a), b)
    decreases |b|
  {
    if b == [] {
      assert a + b == a;
    } else {
      assert (a + b)[..|a + b| - 1] == a + b[..|b| - 1];
      FeedConcat(c, a, b[..|b| - 1]);
    }
  }

  // Up to four bytes as one little-endian word.
  function Pack(u: seq<Byte>): Word {
    if u == [] then 0 else Join(u[0], Pack(u[1..]))
  }

  function Join(b: Byte, p: Word): Word { Wide(b) ^ (p << 8) }

  lemma JoinFits(b: Byte, p: Word)
    ensures p == 0 ==> Join(b, p) <= 0xff
    ensures p <= 0xff ==> Join(b, p) <= 0xffff
    ensures p <= 0xffff ==> Join(b, p) <= 0xffffff
  {
  }

  lemma {:induction false} PackFits(u: seq<Byte>)
    requires |u| <= 3
    ensures |u| == 0 ==> Pack(u) == 0
    ensures |u| == 1 ==> Pack(u) <= 0xff
    ensures |u| == 2 ==> Pack(u) <= 0xffff
    ensures Pack(u) <= 0xffffff
  {
    if u != [] {
      PackFits(u[1..]);
      JoinFits(u[0], Pack(u[1..]));
    }
  }

  lemma JoinInjective(b: Byte, p: Word, b': Byte, p': Word)
    requires p <= 0xffffff && p' <= 0xffffff && Join(b, p) == Join(b', p')
    ensures b == b' && p == p'
  {
  }

  lemma {:induction false} PackInjective(u: seq<Byte>, v: seq<Byte>)
    requires |u| == |v| <= 4 && Pack(u) == Pack(v)
    ensures u == v
  {
    if u != [] {
      var p, q := Pack(u[1..]), Pack(v[1..]);
      PackFits(u[1..]);
      PackFits(v[1..]);
      JoinInjective(u[0], p, v[0], q);
      PackInjective(u[1..], v[1..]);
      assert u == [u[0]] + u[1..] && v == [v[0]] + v[1..];
    }
  }

  lemma MoveUp(p: Word) returns (high: Word)
    requires p <= 0xffffff
    ensures high == p << 8 && high & 0xff == 0 && high >> 8 == p
  {
    high := p << 8;
  }

  lemma SplitJoin(c: Word, b: Byte, p: Word, high: Word, x: Word) returns (y: Word)
    requires high == p << 8 && Sum(c, Join(b, p), x)
    ensures Sum(c, Wide(b), y) && Sum(y, high, x)
  {
    y := c ^ Wide(b);
  }

  /** Folding in several bytes at once: after eight shifts the first byte has been fed. */
  lemma LoadByte(c: Word, b: Byte, p: Word, x: Word, n: nat)
    requires p <= 0xffffff && Sum(c, Join(b, p), x) && n == 8
    ensures Sum(FeedBits(c, b, n), p, Shifts(x, n))
  {
    var high := MoveUp(p);
    var y := SplitJoin(c, b, p, high, x);
    FeedByte(c, b, y, n);
    ShiftsLinear(y, high, x, n);
    PlainShifts(high, n);
  }

  /** Feeding up to four bytes is folding all of them in at once and shifting. */
  lemma {:induction false} FeedIsPack(c: Word, u: seq<Byte>, x: Word, n: nat)
    requires |u| <= 4 && Sum(c, Pack(u), x) && n == 8
    ensures Feed(c, u) == Shifts(x, n * |u|)
    decreases |u|
  {
    if u == [] {
      SumWithZero(c, x);
    } else {
      var b, rest := u[0], u[1..];
      PackFits(rest);
      LoadByte(c, b, Pack(rest), x, n);
      FeedFirst(c, u);
      FeedIsPack(FeedBits(c, b, n), rest, Shifts(x, n), n);
      ShiftsAdd(x, n, n * |rest|);
    }
  }

  lemma FeedFirst(c: Word, u: seq<Byte>)
    requires u != []
    ensures Feed(c, u) == Feed(FeedBits(c, u[0], 8), u[1..])
  {
    assert u == [u[0]] + u[1..] && [u[0]][..0] == [];
    FeedConcat(c, [u[0]], u[1..]);
  }

  lemma SumInjective(c: Word, a: Word, b: Word, x: Word)
    requires Sum(c, a, x) && Sum(c, b, x)
    ensures a == b
  {
  }

  lemma WindowInjective(c: Word, u: seq<Byte>, v: seq<Byte>)
    requires |u| == |v| <= 4 && Feed(c, u) == Feed(c, v)
    ensures u == v
  {
    var x := Fold(c, Pack(u));
    var y := Fold(c, Pack(v));
    FeedIsPack(c, u, x, 8);
    FeedIsPack(c, v, y, 8);
    ShiftsInjective(x, y, 8 * |u|);
    SumInjective(c, Pack(u), Pack(v), x);
    PackInjective(u, v);
  }

  lemma Fold(c: Word, a: Word) returns (x: Word)
    ensures Sum(c, a, x)
  {
    x := c ^ a;
  }

  // ---------- messages as bits ----------

  function Bits(b: Byte): seq<bool> { seq(8, k requires 0 <= k < 8 => BitOf(b, k)) }

  /** The bits of a message in the order in which they are fed. */
  function Stream(m: seq<Byte>): (bits: seq<bool>)
    ensures |bits| == 8 * |m|
  {
    if m == [] then [] else Stream(m[..|m| - 1]) + Bits(m[|m| - 1])
  }

  function FeedStream(c: Word, bits: seq<bool>): Word {
    if bits == [] then c else FeedBit(FeedStream(c, bits[..|bits| - 1]), bits[|bits| - 1])
  }

  lemma {:induction false} StreamConcat(c: Word, a: seq<bool>, b: seq<bool>)
    ensures FeedStream(c, a + b) == FeedStream(FeedStream(c, a), b)
    decreases |b|
  {
    if b == [] {
      assert a + b == a;
    } else {
      assert (a + b)[..|a + b| - 1] == a + b[..|b| - 1];
      StreamConcat(c, a, b[..|b| - 1]);
    }
  }

  lemma {:induction false} ByteIsStream(c: Word, b: Byte, k: nat)
    requires k <= 8
    ensures FeedBits(c, b, k) == FeedStream(c, Bits(b)[..k])
  {
    if k > 0 {
      ByteIsStream(c, b, k - 1);
      OneMoreBit(c, Bits(b), k);
    }
  }

  lemma OneMoreBit(c: Word, bits: seq<bool>, k: nat)
    requires 0 < k <= |bits|
    ensures FeedStream(c, bits[..k]) == FeedBit(FeedStream(c, bits[..k - 1]), bits[k - 1])
  {
    assert bits[..k][..k - 1] == bits[..k - 1];
  }

  lemma {:induction false} FeedIsStream(c: Word, m: seq<Byte>)
    ensures Feed(c, m) == FeedStream(c, Stream(m))
    decreases |m|
  {
    if m != [] {
      var init, last := m[..|m| - 1], m[|m| - 1];
      FeedIsStream(c, init);
      ByteIsStream(Feed(c, init), last, 8);
      assert Bits(last)[..8] == Bits(last);
      StreamConcat(c, Stream(init), Bits(last));
    }
  }

  lemma BitInjective(c: Word, d: Word, bit: bool)
    requires FeedBit(c, bit) == FeedBit(d, bit)
    ensures c == d
  {
    var x, y := if bit then c ^ 1 else c, if bit then d ^ 1 else d;
    FlippedShift(c, bit, x);
    FlippedShift(d, bit, y);
    ShiftInjective(x, y);
  }

  lemma FlippedShift(c: Word, bit: bool, x: Word)
    requires x == if bit then c ^ 1 else c
    ensures FeedBit(c, bit) == Shift(x)
  {
  }

  lemma {:induction false} StreamInjective(c: Word, d: Word, bits: seq<bool>)
    requires FeedStream(c, bits) == FeedStream(d, bits)
    ensures c == d
    decreases |bits|
  {
    if bits != [] {
      var init, last := bits[..|bits| - 1], bits[|bits| - 1];
      BitInjective(FeedStream(c, init), FeedStream(d, init), last);
      StreamInjective(c, d, init);
    }
  }

  // ---------- bits as bytes ----------

  function Weighted(bit: bool, w: Byte): Byte { if bit then w else 0 }

  function ToByte(x: seq<bool>): Byte
    requires |x| == 8
  {
    Weighted(x[0], 1) | Weighted(x[1], 2) | Weighted(x[2], 4) | Weighted(x[3], 8)
    | Weighted(x[4], 16) | Weighted(x[5], 32) | Weighted(x[6], 64) | Weighted(x[7], 128)
  }

  lemma BitsOfByte(x: seq<bool>)
    requires |x| == 8
    ensures Bits(ToByte(x)) == x
  {
    EachBit(x[0], x[1], x[2], x[3], x[4], x[5], x[6], x[7], ToByte(x));
  }

  lemma EachBit(a: bool, b: bool, c: bool, d: bool, e: bool, f: bool, g: bool, h: bool, w: Byte)
    requires w == Weighted(a, 1) | Weighted(b, 2) | Weighted(c, 4) | Weighted(d, 8)
               | Weighted(e, 16) | Weighted(f, 32) | Weighted(g, 64) | Weighted(h, 128)
    ensures BitOf(w, 0) == a && BitOf(w, 1) == b && BitOf(w, 2) == c && BitOf(w, 3) == d
    ensures BitOf(w, 4) == e && BitOf(w, 5) == f && BitOf(w, 6) == g && BitOf(w, 7) == h
  {
  }

  function Chop(bits: seq<bool>): (m: seq<Byte>)
    requires |bits| % 8 == 0
    ensures |m| == |bits| / 8
  {
    if bits == [] then [] else Chop(bits[..|bits| - 8]) + [ToByte(bits[|bits| - 8..])]
  }

  lemma StreamLast(m: seq<Byte>, b: Byte)
    ensures Stream(m + [b]) == Stream(m) + Bits(b)
  {
    assert (m + [b])[..|m|] == m;
  }

  lemma {:induction false} ChopIsInverse(bits: seq<bool>)
    requires |bits| % 8 == 0
    ensures Stream(Chop(bits)) == bits
  {
    if bits != [] {
      var init, last := bits[..|bits| - 8], bits[|bits| - 8..];
      ChopIsInverse(init);
      BitsOfByte(last);
      StreamLast(Chop(init), ToByte(last));
      assert bits == init + last;
    }
  }

  /** Any 32 bits in a row can be read off the register after them. */
  lemma WordWindowInjective(c: Word, u: seq<bool>, v: seq<bool>)
    requires |u| == |v| == 32 && FeedStream(c, u) == FeedStream(c, v)
    ensures u == v
  {
    ChopIsInverse(u);
    ChopIsInverse(v);
    FeedIsStream(c, Chop(u));
    FeedIsStream(c, Chop(v));
    WindowInjective(c, Chop(u), Chop(v));
  }

  // ---------- bursts ----------

  /** Two different messages of one length that agree outside the `k` bits from bit `i`. */
  ghost predicate Burst(m: seq<Byte>, m': seq<Byte>, i: nat, k: nat) {
    && |m| == |m'| && i + k <= 8 * |m| && m != m'
    && Stream(m)[..i] == Stream(m')[..i] && Stream(m)[i + k..] == Stream(m')[i + k..]
  }

  lemma WindowFeed(c: Word, s: seq<bool>, s': seq<bool>, i: nat)
    requires |s| == |s'| && i + 32 <= |s| && s[..i] == s'[..i] && s[i + 32..] == s'[i + 32..]
    requires FeedStream(c, s) == FeedStream(c, s')
    ensures s == s'
  {
    var a, u, v, z := s[..i], s[i..i + 32], s'[i..i + 32], s[i + 32..];
    assert s == (a + u) + z && s' == (a + v) + z;
    StreamConcat(c, a + u, z);
    StreamConcat(c, a + v, z);
    StreamInjective(FeedStream(c, a + u), FeedStream(c, a + v), z);
    StreamConcat(c, a, u);
    StreamConcat(c, a, v);
    WordWindowInjective(FeedStream(c, a), u, v);
  }

  lemma {:induction false} StreamTells(m: seq<Byte>, m': seq<Byte>)
    requires |m| == |m'| && Stream(m) == Stream(m')
    ensures m == m'
    decreases |m|
  {
    if m != [] {
      var n := |m| - 1;
      assert Stream(m)[..8 * n] == Stream(m[..n]) && Stream(m')[..8 * n] == Stream(m'[..n]);
      assert Stream(m)[8 * n..] == Bits(m[n]) && Stream(m')[8 * n..] == Bits(m'[n]);
      StreamTells(m[..n], m'[..n]);
      BitsTell(m[n], m'[n]);
      assert m == m[..n] + [m[n]] && m' == m'[..n] + [m'[n]];
    }
  }

  lemma BitsTell(a: Byte, b: Byte)
    requires Bits(a) == Bits(b)
    ensures a == b
  {
    assert BitOf(a, 0) == Bits(a)[0] == Bits(b)[0] == BitOf(b, 0);
    assert BitOf(a, 1) == Bits(a)[1] == Bits(b)[1] == BitOf(b, 1);
    assert BitOf(a, 2) == Bits(a)[2] == Bits(b)[2] == BitOf(b, 2);
    assert BitOf(a, 3) == Bits(a)[3] == Bits(b)[3] == BitOf(b, 3);
    assert BitOf(a, 4) == Bits(a)[4] == Bits(b)[4] == BitOf(b, 4);
    assert BitOf(a, 5) == Bits(a)[5] == Bits(b)[5] == BitOf(b, 5);
    assert BitOf(a, 6) == Bits(a)[6] == Bits(b)[6] == BitOf(b, 6);
    assert BitOf(a, 7) == Bits(a)[7] == Bits(b)[7] == BitOf(b, 7);
  }

  lemma ReferenceFeeds(m: seq<Byte>, m': seq<Byte>)
    requires Reference(m) == Reference(m')
    ensures Feed(0xffffffff, m) == Feed(0xffffffff, m')
  {
  }

  // A wider window, moved to lie within the message.
  lemma Widened(s: seq<bool>, s': seq<bool>, i: nat, k: nat, j: nat)
    requires |s| == |s'| && j <= i && i + k <= j + 32 <= |s|
    requires s[..i] == s'[..i] && s[i + k..] == s'[i + k..]
    ensures s[..j] == s'[..j] && s[j + 32..] == s'[j + 32..]
  {
    assert s[..j] == s[..i][..j] && s'[..j] == s'[..i][..j];
    assert s[j + 32..] == s[i + k..][j + 32 - i - k..] && s'[j + 32..] == s'[i + k..][j + 32 - i - k..];
  }

  /** Two messages that differ within one burst of at most 32 bits have different checksums. */
  lemma BurstChangesChecksum(m: seq<Byte>, m': seq<Byte>, i: nat, k: nat)
    requires Burst(m, m', i, k) && k <= 32
    ensures Reference(m) != Reference(m')
  {
    if Reference(m) == Reference(m') {
      ReferenceFeeds(m, m');
      if |m| <= 4 {
        WindowInjective(0xffffffff, m, m');
      } else {
        FeedIsStream(0xffffffff, m);
        FeedIsStream(0xffffffff, m');
        var j := if i + 32 <= 8 * |m| then i else 8 * |m| - 32;
        Widened(Stream(m), Stream(m'), i, k, j);
        WindowFeed(0xffffffff, Stream(m), Stream(m'), j);
        StreamTells(m, m');
      }
    }
  }
}
