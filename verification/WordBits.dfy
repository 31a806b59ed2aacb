/** 32-bit words as integers, their bits, and the rotation of the C code. */
module WordBits {
  import opened PowersOfTwo

  const TWO_32 := 0x1_0000_0000

  type word = x: int | 0 <= x < TWO_32

  function Bits(x: word): bv32 { x as bv32 }

  function Word(x: bv32): word { x as int }

  /** `w << s | w >> (32 - s)`. */
  function RotateBits(x: bv32, s: bv6): bv32
    requires s <= 32
  {
    (x << s) | (x >> (32 - s))
  }

  function RotateLeft(x: word, s: nat): word
    requires s < 32
  {
    Word(RotateBits(Bits(x), Amount6(s)))
  }

  /** A shift amount as bits; a table keeps the conversion elementary. */
  function Amount6(s: nat): bv6
    requires s < 32
  {
    match s
    case 0 => 0 case 1 => 1 case 2 => 2 case 3 => 3 case 4 => 4 case 5 => 5 case 6 => 6 case 7 => 7
    case 8 => 8 case 9 => 9 case 10 => 10 case 11 => 11 case 12 => 12 case 13 => 13 case 14 => 14 case 15 => 15
    case 16 => 16 case 17 => 17 case 18 => 18 case 19 => 19 case 20 => 20 case 21 => 21 case 22 => 22 case 23 => 23
    case 24 => 24 case 25 => 25 case 26 => 26 case 27 => 27 case 28 => 28 case 29 => 29 case 30 => 30 case _ => 31
  }

  // ---------- words and their bits ----------

  /** Four bits by their value; a table keeps the conversion elementary. */
  function Nibble(n: int): bv4
    requires 0 <= n < 16
  {
    match n
    case 0 => 0 case 1 => 1 case 2 => 2 case 3 => 3 case 4 => 4 case 5 => 5 case 6 => 6 case 7 => 7
    case 8 => 8 case 9 => 9 case 10 => 10 case 11 => 11 case 12 => 12 case 13 => 13 case 14 => 14 case _ => 15
  }

  function NibbleValue(b: bv4): int {
    b as int
  }

  lemma NibbleBack(n: int)
    requires 0 <= n < 16
    ensures NibbleValue(Nibble(n)) == n
  {
  }

  function Join(a: bv4, b: bv4, c: bv4, d: bv4): bv16 {
    ((d as bv16) << 12) | ((c as bv16) << 8) | ((b as bv16) << 4) | (a as bv16)
  }

  function HalfValue(h: bv16): int {
    h as int
  }

  function JoinHalves(lo: bv16, hi: bv16): bv32 {
    ((hi as bv32) << 16) | (lo as bv32)
  }

  lemma JoinValue(a: bv4, b: bv4, c: bv4, d: bv4)
    ensures HalfValue(Join(a, b, c, d)) ==
            NibbleValue(a) + 16 * NibbleValue(b) + 256 * NibbleValue(c) + 4096 * NibbleValue(d)
  {
  }

  lemma JoinHalvesValue(lo: bv16, hi: bv16)
    ensures Word(JoinHalves(lo, hi)) == HalfValue(lo) + 65536 * HalfValue(hi)
  {
  }

  /** Every 16-bit value has its bits. */
  lemma HalfOf(x: int) returns (h: bv16)
    requires 0 <= x < 65536
    ensures HalfValue(h) == x
  {
    hide NibbleValue, Nibble, HalfValue, Join;
    var p, q := x / 16, x / 256;
    var n0, n1, n2, n3 := x % 16, p % 16, q % 16, q / 16;
    assert q == p / 16;
    NibbleBack(n0);
    NibbleBack(n1);
    NibbleBack(n2);
    NibbleBack(n3);
    h := Join(Nibble(n0), Nibble(n1), Nibble(n2), Nibble(n3));
    JoinValue(Nibble(n0), Nibble(n1), Nibble(n2), Nibble(n3));
  }

  lemma WordBack(v: bv32)
    ensures Bits(Word(v)) == v
  {
  }

  /** The bits of a word stand for the word. */
  lemma BitsBack(x: word)
    ensures Word(Bits(x)) == x
  {
    hide Word, Bits, JoinHalves, HalfValue;
    var lo := HalfOf(x % 65536);
    var hi := HalfOf(x / 65536);
    JoinHalvesValue(lo, hi);
    WordBack(JoinHalves(lo, hi));
  }

  // ---------- the rotation ----------

  function TopFirst(hi: bv1, lo: bv31): bv32 { ((hi as bv32) << 31) | (lo as bv32) }

  function TopLast(hi: bv1, lo: bv31): bv32 { ((lo as bv32) << 1) | (hi as bv32) }

  function Value1(b: bv1): (n: int)
    ensures 0 <= n <= 1
  {
    b as int
  }

  function Value31(b: bv31): (n: int)
    ensures 0 <= n < 0x8000_0000
  {
    b as int
  }

  lemma TopFirstValue(hi: bv1, lo: bv31)
    ensures Word(TopFirst(hi, lo)) == 0x8000_0000 * Value1(hi) + Value31(lo)
  {
  }

  lemma TopLastValue(hi: bv1, lo: bv31)
    ensures Word(TopLast(hi, lo)) == 2 * Value31(lo) + Value1(hi)
  {
  }

  lemma TopBit(v: bv32)
    ensures var hi, lo := (v >> 31) as bv1, (v & 0x7fff_ffff) as bv31;
      TopFirst(hi, lo) == v && RotateBits(v, 1) == TopLast(hi, lo)
  {
  }

  lemma TakeTopBit(v: bv32) returns (hi: bv1, lo: bv31)
    ensures TopFirst(hi, lo) == v && RotateBits(v, 1) == TopLast(hi, lo)
  {
    hide TopFirst, TopLast, RotateBits;
    hi, lo := (v >> 31) as bv1, (v & 0x7fff_ffff) as bv31;
    TopBit(v);
  }

  /** Rotating by one doubles the word and puts its top bit in front. */
  lemma RotateByOne(v: bv32)
    ensures Word(RotateBits(v, 1)) == if Word(v) >= 0x8000_0000 then 2 * Word(v) - TWO_32 + 1 else 2 * Word(v)
  {
    hide Word, TopFirst, TopLast, RotateBits, Value1, Value31;
    var hi, lo := TakeTopBit(v);
    TopFirstValue(hi, lo);
    TopLastValue(hi, lo);
  }

  lemma RotateAgainLow(v: bv32, s: bv6)
    requires 1 <= s < 16
    ensures RotateBits(v, s) == RotateBits(RotateBits(v, s - 1), 1)
  {
  }

  lemma HalfTurn(v: bv32)
    ensures ((v << 16) | (v >> 16)) == (((v << 15) | (v >> 17)) << 1) | (((v << 15) | (v >> 17)) >> 31)
  {
  }

  lemma RotateHalf(v: bv32)
    ensures RotateBits(v, 16) == RotateBits(RotateBits(v, 15), 1)
  {
    HalfTurn(v);
  }

  lemma FromHalf(v: bv32, s: bv6)
    requires 16 <= s < 24
    ensures RotateBits(v, s) == RotateBits(RotateBits(v, 16), s - 16)
  {
  }

  lemma FromHalfOn(v: bv32, s: bv6)
    requires 24 <= s < 32
    ensures RotateBits(v, s) == RotateBits(RotateBits(v, 16), s - 16)
  {
  }

  lemma RotateAgain(v: bv32, s: bv6)
    requires 1 <= s < 32
    ensures RotateBits(v, s) == RotateBits(RotateBits(v, s - 1), 1)
  {
    hide RotateBits;
    if s < 16 {
      RotateAgainLow(v, s);
    } else if s == 16 {
      RotateHalf(v);
    } else {
      Turned(v, s);
      Turned(v, s - 1);
      RotateAgainLow(RotateBits(v, 16), s - 16);
    }
  }

  lemma Turned(v: bv32, s: bv6)
    requires 16 <= s < 32
    ensures RotateBits(v, s) == RotateBits(RotateBits(v, 16), s - 16)
  {
    hide RotateBits;
    if s < 24 {
      FromHalf(v, s);
    } else {
      FromHalfOn(v, s);
    }
  }

  lemma RotateZero(v: bv32)
    ensures RotateBits(v, 0) == v
  {
  }

  lemma Amount6Next(s: nat)
    requires 1 <= s < 32
    ensures Amount6(s) == Amount6(s - 1) + 1 && 1 <= Amount6(s) < 32
  {
  }

  lemma RotateNext(x: word, s: nat)
    requires 1 <= s < 32
    ensures var n := RotateLeft(x, s - 1);
      RotateLeft(x, s) == if n >= 0x8000_0000 then 2 * n - TWO_32 + 1 else 2 * n
  {
    hide Word, Bits, RotateBits;
    Amount6Next(s);
    hide Amount6;
    RotateAgain(Bits(x), Amount6(s));
    RotateByOne(RotateBits(Bits(x), Amount6(s - 1)));
  }

  /** Rotating moves the upper `s` bits to the bottom. */
  lemma {:induction false} RotateSplits(x: word, s: nat)
    requires s < 32
    ensures RotateLeft(x, s) == x % Pow2(32 - s) * Pow2(s) + x / Pow2(32 - s)
  {
    hide RotateLeft, Pow2;
    if s == 0 {
      RotateByZero(x);
    } else {
      RotateSplits(x, s - 1);
      RotateNext(x, s);
      RotateStep(x, s, RotateLeft(x, s - 1));
    }
  }

  lemma RotateByZero(x: word)
    ensures RotateLeft(x, 0) == x % Pow2(32) * Pow2(0) + x / Pow2(32)
  {
    hide Word, Bits, RotateBits, Pow2;
    RotateZero(Bits(x));
    BitsBack(x);
    Pow2Of32();
    assert x % Pow2(32) == x && x / Pow2(32) == 0;
  }

  lemma Pow2Of32()
    ensures Pow2(32) == TWO_32 && Pow2(0) == 1
  {
    assert Pow2(4) == 16 && Pow2(0) == 1;
    hide Pow2;
    Pow2Sum(4, 4);
    Pow2Sum(8, 8);
    Pow2Sum(16, 16);
  }

  lemma RotateStep(x: word, s: nat, n: int)
    requires 1 <= s < 32
    requires n == x % Pow2(33 - s) * Pow2(s - 1) + x / Pow2(33 - s)
    ensures (if n >= 0x8000_0000 then 2 * n - TWO_32 + 1 else 2 * n) == x % Pow2(32 - s) * Pow2(s) + x / Pow2(32 - s)
  {
    hide Pow2;
    Pow2Next(33 - s);
    Pow2Next(s);
    Pow2Sum(32 - s, s - 1);
    Pow2Sum(32 - s, s);
    Pow2Of32();
    Pow2Next(32);
    SplitStep(x, Pow2(32 - s), Pow2(s - 1), n);
  }

  lemma SplitStep(x: word, Q: nat, P: nat, n: int)
    requires Q > 0 && P > 0 && Q * P == 0x8000_0000
    requires n == x % (2 * Q) * P + x / (2 * Q)
    ensures (if n >= 0x8000_0000 then 2 * n - TWO_32 + 1 else 2 * n) == x % Q * (2 * P) + x / Q
  {
    var h, m := x / (2 * Q), x % (2 * Q);
    var c := if m >= Q then 1 else 0;
    var l := if m >= Q then m - Q else m;
    assert x == h * (2 * Q) + m;
    SplitAt(x, Q, h, m, c, l);
    Shares(m, l, c, Q, P);
    SmallParts(h, l, Q, P, x);
    Finish(n, h, c, l * P);
    assert x % Q == l && x / Q == 2 * h + c;
  }

  lemma Finish(n: int, h: nat, c: nat, lP: int)
    requires c < 2 && n == c * 0x8000_0000 + lP + h && 0 <= lP && lP + h < 0x8000_0000
    ensures (if n >= 0x8000_0000 then 2 * n - TWO_32 + 1 else 2 * n) == 2 * lP + (2 * h + c)
  {
  }

  lemma SplitAt(x: nat, Q: nat, h: nat, m: nat, c: nat, l: nat)
    requires Q > 0 && x == h * (2 * Q) + m && c < 2
    requires m == (if c == 1 then Q + l else l) && l < Q
    ensures x / Q == 2 * h + c && x % Q == l && h * (2 * Q) <= x
  {
    Doubled(h, Q);
    OneMore(2 * h, Q);
    assert x == (2 * h + c) * Q + l;
    DivModUnique(2 * h + c, l, Q);
  }

  lemma Shares(m: nat, l: nat, c: nat, Q: nat, P: nat)
    requires c < 2 && m == (if c == 1 then Q + l else l) && Q * P == 0x8000_0000
    ensures m * P == c * 0x8000_0000 + l * P && l * (2 * P) == 2 * (l * P) >= 0
  {
    Doubled(l, P);
    Nonnegative(l, P);
    assert (Q + l) * P == Q * P + l * P;
  }

  lemma SmallParts(h: nat, l: nat, Q: nat, P: nat, x: word)
    requires Q > 0 && P > 0 && Q * P == 0x8000_0000 && l < Q && h * (2 * Q) <= x
    ensures l * P + h < 0x8000_0000
  {
    Doubled(P, Q);
    assert P * Q == Q * P;
    assert (P - h) * (2 * Q) == P * (2 * Q) - h * (2 * Q) > 0;
    MulOrder(P - h, 2 * Q);
    assert (Q - l) * P == Q * P - l * P;
    MulOrder(Q - l, P);
  }

  /** The rotation as arithmetic: what a shift to the left pushes over the top comes back at the bottom. */
  lemma RotateMeans(x: word, s: nat)
    requires 0 < s < 32
    ensures RotateLeft(x, s) == x * Pow2(s) % TWO_32 + x * Pow2(s) / TWO_32
  {
    hide RotateLeft, Pow2;
    RotateSplits(x, s);
    Pow2Sum(32 - s, s);
    Pow2Of32();
    var Q, P := Pow2(32 - s), Pow2(s);
    var h, l := x / Q, x % Q;
    assert x == h * Q + l;
    assert x * P == h * (Q * P) + l * P by {
      assert (h * Q + l) * P == h * Q * P + l * P;
      assert h * Q * P == h * (Q * P);
    }
    assert 0 <= l * P < TWO_32 by {
      assert (Q - l) * P == Q * P - l * P;
      MulOrder(Q - l, P);
      Nonnegative(l, P);
    }
    DivModUnique(h, l * P, TWO_32);
  }

  lemma Nonnegative(x: nat, y: nat)
    ensures x * y >= 0
  {
  }
}
