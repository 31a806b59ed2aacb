/** Streaming MD5 against the one-shot digest of RFC 1321. */
module Md5Stream {
  import opened Bytes
  import opened WordBits
  import opened Md5Block
  import opened PowersOfTwo

  const INIT := State(0x67452301, 0xefcdab89, 0x98badcfe, 0x10325476)

  /** The word that a little-endian host stores in these four bytes. */
  function WordOf(b0: byte, b1: byte, b2: byte, b3: byte): word {
    (b3 * 256 + b2) * 65536 + (b1 * 256 + b0)
  }

  function LeBytes(w: word): (b: seq<byte>)
    ensures |b| == 4
  {
    [w % 256, w / 256 % 256, w / 65536 % 256, w / 16777216]
  }

  /** Storing and loading a word on a little-endian host are inverse. */
  lemma LittleEndian(b0: byte, b1: byte, b2: byte, b3: byte)
    ensures LeBytes(WordOf(b0, b1, b2, b3)) == [b0, b1, b2, b3]
  {
    var w := WordOf(b0, b1, b2, b3);
    DivModUnique(b3 * 65536 + b2 * 256 + b1, b0, 256);
    DivModUnique(b3 * 256 + b2, b1 * 256 + b0, 65536);
    DivModUnique(b3, b2 * 65536 + b1 * 256 + b0, 16777216);
    assert w / 256 == b3 * 65536 + b2 * 256 + b1 && w / 65536 == b3 * 256 + b2 && w / 16777216 == b3;
    DivModUnique(b3 * 256 + b2, b1, 256);
    DivModUnique(b3, b2, 256);
  }

  lemma LittleEndianLoad(w: word)
    ensures var b := LeBytes(w); WordOf(b[0], b[1], b[2], b[3]) == w
  {
    var p, q, r := w / 256, w / 65536, w / 16777216;
    assert p / 256 == q && q / 256 == r;
    assert w == 256 * p + w % 256 && p == 256 * q + p % 256 && q == 256 * r + q % 256;
  }

  function Words(b: seq<byte>): (x: seq<word>)
    requires |b| == 64
    ensures |x| == 16
  {
    seq(16, i requires 0 <= i < 16 => WordOf(b[4 * i], b[4 * i + 1], b[4 * i + 2], b[4 * i + 3]))
  }

  // ---------- RFC 1321, sections 3.1 to 3.5 ----------

  /** The whole 64-byte blocks of a message, one after the other; a shorter rest is ignored. */
  function Absorb(st: State, m: seq<byte>): State
    decreases |m|
  {
    hide Compress, Words;
    if |m| < 64 then st else Absorb(Compress(st, Words(m[..64])), m[64..])
  }

  function Zeros(n: nat): (z: seq<byte>)
    ensures |z| == n
  {
    seq(n, _ => 0)
  }

  /** A 64-bit count, low word first. */
  function LengthBytes(n: nat): (b: seq<byte>)
    ensures |b| == 8
  {
    LeBytes(n % TWO_32) + LeBytes(n / TWO_32 % TWO_32)
  }

  /** The eight bytes are the count modulo 2^64, lowest first. */
  lemma LengthMeans(n: nat)
    ensures var b := LengthBytes(n);
      WordOf(b[0], b[1], b[2], b[3]) + TWO_32 * WordOf(b[4], b[5], b[6], b[7]) == n % (TWO_32 * TWO_32)
  {
    hide LeBytes, WordOf;
    var lo, q := n % TWO_32, n / TWO_32;
    LittleEndianLoad(lo);
    LittleEndianLoad(q % TWO_32);
    var b := LengthBytes(n);
    assert b[..4] == LeBytes(lo) && b[4..] == LeBytes(q % TWO_32);
    assert n == q / TWO_32 * (TWO_32 * TWO_32) + (q % TWO_32 * TWO_32 + lo);
    DivModUnique(q / TWO_32, q % TWO_32 * TWO_32 + lo, TWO_32 * TWO_32);
  }

  /** 0x80, zeros up to 56 modulo 64, then the bit count of the message. */
  function Pad(m: seq<byte>): seq<byte> {
    m + [0x80] + Zeros((119 - |m| % 64) % 64) + LengthBytes(8 * |m|)
  }

  function Output(st: State): seq<byte> {
    LeBytes(st.a) + LeBytes(st.b) + LeBytes(st.c) + LeBytes(st.d)
  }

  function Md5(m: seq<byte>): seq<byte> {
    Output(Absorb(INIT, Pad(m)))
  }

  /** The padding is what the two branches of `MD5Final` append: one block end, or one block end and one block. */
  lemma PadSplits(m: seq<byte>)
    ensures Rest(m) <= 55 ==> Pad(m) == m + ([0x80] + Zeros(55 - Rest(m)) + LengthBytes(8 * |m|))
    ensures Rest(m) > 55 ==> Pad(m) == m + ([0x80] + Zeros(63 - Rest(m))) + (Zeros(56) + LengthBytes(8 * |m|))
  {
    hide LengthBytes;
    var r := Rest(m);
    assert (119 - r) % 64 == if r <= 55 then 55 - r else 119 - r;
    if r > 55 {
      assert Zeros(119 - r) == Zeros(63 - r) + Zeros(56);
    }
  }

  lemma {:induction false} AbsorbConcat(st: State, a: seq<byte>, b: seq<byte>)
    requires |a| % 64 == 0
    ensures Absorb(st, a + b) == Absorb(Absorb(st, a), b)
    decreases |a|
  {
    hide Compress, Words;
    if |a| == 0 {
      assert a + b == b;
    } else {
      assert (a + b)[..64] == a[..64] && (a + b)[64..] == a[64..] + b;
      AbsorbConcat(Compress(st, Words(a[..64])), a[64..], b);
    }
  }

  // ---------- the context ----------

  /** How many bytes of `m` are not yet part of a whole block. */
  function Rest(m: seq<byte>): (r: nat)
    ensures r < 64 && r <= |m|
  {
    |m| % 64
  }

  function Tail(m: seq<byte>): (t: seq<byte>)
    ensures |t| == Rest(m)
  {
    m[|m| - Rest(m)..]
  }

  function Blocks(m: seq<byte>): seq<byte> { m[..|m| - Rest(m)] }

  /** Data that completes the pending block, and whole blocks after it. */
  lemma TakeBlock(m: seq<byte>, d: seq<byte>)
    requires 0 < |d| && Rest(m) + |d| == 64
    ensures Rest(m + d) == 0 && Tail(m + d) == []
    ensures Absorb(INIT, Blocks(m + d)) == Compress(Absorb(INIT, Blocks(m)), Words(Tail(m) + d))
  {
    hide Compress, Words;
    assert |m| == 64 * (|m| / 64) + Rest(m);
    assert m + d == Blocks(m) + (Tail(m) + d);
    assert |m + d| == 64 * (|m| / 64 + 1);
    assert Blocks(m + d) == m + d;
    AbsorbConcat(INIT, Blocks(m), Tail(m) + d);
    var t, st := Tail(m) + d, Absorb(INIT, Blocks(m));
    assert t[..64] == t && t[64..] == [];
  }

  lemma KeepTail(m: seq<byte>, d: seq<byte>)
    requires Rest(m) + |d| < 64
    ensures Tail(m + d) == Tail(m) + d && Blocks(m + d) == Blocks(m) && Rest(m + d) == Rest(m) + |d|
  {
    assert |m| == 64 * (|m| / 64) + Rest(m);
    assert |m + d| == 64 * (|m| / 64) + (Rest(m) + |d|);
    assert Rest(m + d) == Rest(m) + |d|;
  }

  /** Adding `h` and `l` to the two words of a counter whose high word has lost its upper part. */
  lemma AddWithCarry(q: nat, b0: nat, h: nat, l: nat, sum: nat)
    requires b0 < TWO_32 && l < TWO_32 && sum == (q + h) * TWO_32 + (b0 + l)
    ensures var n0 := (b0 + l) % TWO_32;
      var c1 := if n0 < b0 then (q % TWO_32 + 1) % TWO_32 else q % TWO_32;
      n0 == sum % TWO_32 && (c1 + h) % TWO_32 == sum / TWO_32 % TWO_32
  {
    var carry := if b0 + l < TWO_32 then 0 else 1;
    var n0 := b0 + l - carry * TWO_32;
    DivModUnique(carry, n0, TWO_32);
    DivModUnique(q + h + carry, n0, TWO_32);
    ModAdd(q, carry, TWO_32);
    ModAdd(q + carry, h, TWO_32);
  }

  /** The split counter of `MD5Update`: low word, carry into the high word, and len >> 29. */
  lemma CountBits(total: nat, len: nat, b0: nat, b1: nat)
    requires len < TWO_32 && b0 == 8 * total % TWO_32 && b1 == 8 * total / TWO_32 % TWO_32
    ensures var n0 := (b0 + len * 8 % TWO_32) % TWO_32;
      var c1 := if n0 < b0 then (b1 + 1) % TWO_32 else b1;
      n0 == 8 * (total + len) % TWO_32 && (c1 + len / 0x2000_0000) % TWO_32 == 8 * (total + len) / TWO_32 % TWO_32
  {
    var q, h, l := 8 * total / TWO_32, len / 0x2000_0000, len * 8 % TWO_32;
    assert 8 * total == q * TWO_32 + b0 && 8 * len == h * TWO_32 + l;
    AddWithCarry(q, b0, h, l, 8 * (total + len));
  }

  /** The pending byte count is read off the low word of the bit counter. */
  lemma PendingBytes(m: seq<byte>, b0: nat)
    requires b0 == 8 * |m| % TWO_32
    ensures b0 / 8 % 64 == Rest(m)
  {
    var total, q := |m|, 8 * |m| / TWO_32;
    assert 8 * total == q * TWO_32 + b0;
    var k := total - q * 0x2000_0000;
    assert b0 == k * 8 + 0;
    DivModUnique(k, 0, 8);
    assert total == (k / 64 + q * 0x80_0000) * 64 + k % 64;
    DivModUnique(k / 64 + q * 0x80_0000, k % 64, 64);
  }

  lemma ModAdd(x: nat, y: nat, m: nat)
    requires m > 0
    ensures (x % m + y) % m == (x + y) % m
  {
    var r := x % m + y;
    var k := r / m;
    assert x + y == (x / m) * m + r == (x / m + k) * m + r % m;
    DivModUnique(x / m + k, r % m, m);
  }

  class Md5Context {
    const buf: array<word>
    var bits0: nat
    var bits1: nat
    const input: array<byte>
    ghost var msg: seq<byte>

    /** The registers have absorbed the whole blocks of the message so far, `input` starts with the rest of it,
        and the two counters hold its length in bits modulo 2^64. */
    ghost predicate Valid()
      reads this, buf, input
    {
      && buf.Length == 4 && input.Length == 64
      && bits0 == 8 * |msg| % TWO_32 && bits1 == 8 * |msg| / TWO_32 % TWO_32
      && Holding(msg)
    }

    ghost predicate Holding(m: seq<byte>)
      reads this, buf, input
    {
      && buf.Length == 4 && input.Length == 64
      && StateOf(buf) == Absorb(INIT, Blocks(m)) && input[..Rest(m)] == Tail(m)
    }

    /** `MD5Init`. */
    constructor ()
      ensures Valid() && msg == [] && fresh(buf) && fresh(input)
    {
      buf := new word[4] [0x67452301, 0xefcdab89, 0x98badcfe, 0x10325476];
      input := new byte[64](_ => 0);
      bits0, bits1 := 0, 0;
      msg := [];
    }

    /** `byteReverse` over the block buffer, on a little-endian host: no byte moves. */
    method ByteReverse(longs: nat)
      requires 1 <= longs && 4 * longs <= input.Length
      modifies input
      ensures input[..] == old(input[..])
    {
      var p, left := 0, longs;
      while left > 0
        invariant p + 4 * left == 4 * longs
        invariant input[..] == old(input[..])
      {
        LittleEndian(input[p], input[p + 1], input[p + 2], input[p + 3]);
        var t := WordOf(input[p], input[p + 1], input[p + 2], input[p + 3]);
        var b := LeBytes(t);
        input[p], input[p + 1], input[p + 2], input[p + 3] := b[0], b[1], b[2], b[3];
        p := p + 4;
        left := left - 1;
      }
    }

    /** Bytes that fill the block buffer: copied behind the pending ones, and the block goes through the transform. */
    method Complete(at: nat, d: seq<byte>, ghost m: seq<byte>)
      requires Holding(m) && at == Rest(m) && 0 < |d| && at + |d| == 64
      modifies buf, input
      ensures Holding(m + d) && Rest(m + d) == 0
    {
      hide Absorb, Compress, Words, Blocks, Tail, Rest;
      CopyTo(input, at, d);
      assert input[..] == Tail(m) + d;
      ByteReverse(16);
      MD5Transform(buf, Words(input[..]));
      TakeBlock(m, d);
    }

    /** Bytes that do not fill the block buffer wait there. */
    method Keep(at: nat, d: seq<byte>, ghost m: seq<byte>)
      requires Holding(m) && at == Rest(m) && at + |d| < 64
      modifies input
      ensures Holding(m + d)
    {
      hide Absorb, Blocks, Tail, Rest;
      KeepTail(m, d);
      CopyTo(input, at, d);
      assert input[..at + |d|] == Tail(m) + d;
    }

    /** `MD5Update`. */
    method Update(data: seq<byte>)
      requires Valid() && |data| < TWO_32
      modifies this, buf, input
      ensures Valid() && msg == old(msg) + data
    {
      hide Compress, Words, Absorb;
      CountBits(|msg|, |data|, bits0, bits1);
      PendingBytes(msg, bits0);
      var t := bits0;
      bits0 := (t + |data| * 8 % TWO_32) % TWO_32;
      if bits0 < t {
        bits1 := (bits1 + 1) % TWO_32;
      }
      bits1 := (bits1 + |data| / 0x2000_0000) % TWO_32;
      t := t / 8 % 64;
      Absorbing(data, t);
      msg := msg + data;
    }

    /** The part of `MD5Update` after the counters: complete the pending block, then whole blocks, then the rest. */
    method Absorbing(data: seq<byte>, pending: nat)
      requires Holding(msg) && pending == Rest(msg)
      modifies buf, input
      ensures Holding(msg + data)
    {
      hide Holding, Rest;
      var p, m := 0, msg;
      assert data[..0] == [] && msg + [] == msg;
      if pending != 0 {
        var t := 64 - pending;
        if |data| < t {
          Keep(pending, data, msg);
          return;
        }
        Complete(pending, data[..t], msg);
        p, m := t, msg + data[..t];
      }
      while |data| - p >= 64
        invariant p <= |data| && m == msg + data[..p]
        invariant Holding(m) && Rest(m) == 0
      {
        Complete(0, data[p..p + 64], m);
        m := m + data[p..p + 64];
        assert data[..p + 64] == data[..p] + data[p..p + 64];
        p := p + 64;
      }
      Keep(0, data[p..], m);
      assert data == data[..p] + data[p..] && msg + data == m + data[p..];
    }

    /** The end of `MD5Final`: `fill` up to byte 56, the two length words, and a last transform. */
    method LastBlock(at: nat, fill: seq<byte>, ghost m: seq<byte>)
      requires Holding(m) && at == Rest(m) && at + |fill| == 56 && bits0 < TWO_32 && bits1 < TWO_32
      modifies buf, input
      ensures var p := m + (fill + (LeBytes(bits0) + LeBytes(bits1))); Rest(p) == 0 && StateOf(buf) == Absorb(INIT, p)
    {
      hide Absorb, Compress, Words, Tail, Rest, LeBytes;
      ghost var d := fill + (LeBytes(bits0) + LeBytes(bits1));
      CopyTo(input, at, fill);
      ByteReverse(14);
      assert input[..56] == Tail(m) + fill;
      CopyTo(input, 56, LeBytes(bits0));
      CopyTo(input, 60, LeBytes(bits1));
      assert input[..] == Tail(m) + d;
      TakeBlock(m, d);
      MD5Transform(buf, Words(input[..]));
      assert Blocks(m + d) == m + d;
    }

    /** `MD5Final`: the digest of everything that the updates supplied. */
    method Final() returns (digest: seq<byte>)
      requires Valid()
      modifies buf, input
      ensures digest == Md5(msg)
    {
      hide Absorb, Holding, Rest, Zeros, Pad, LeBytes;
      PendingBytes(msg, bits0);
      PadSplits(msg);
      var count := bits0 / 8 % 64;
      if 63 - count < 8 {
        Complete(count, [0x80] + Zeros(63 - count), msg);
        LastBlock(0, Zeros(56), msg + ([0x80] + Zeros(63 - count)));
      } else {
        LastBlock(count, [0x80] + Zeros(55 - count), msg);
      }
      digest := Output(StateOf(buf));
    }
  }

  /** Every way of cutting a message into updates gives the one-shot digest of the whole message. */
  method DigestOfChunks(chunks: seq<seq<byte>>) returns (digest: seq<byte>)
    requires forall c :: c in chunks ==> |c| < TWO_32
    ensures digest == Md5(Flatten(chunks))
  {
    hide Md5;
    var ctx := new Md5Context();
    for i := 0 to |chunks|
      invariant fresh(ctx) && fresh(ctx.buf) && fresh(ctx.input) && ctx.Valid() && ctx.msg == Flatten(chunks[..i])
    {
      ctx.Update(chunks[i]);
      FlattenNext(chunks, i);
    }
    assert chunks[..|chunks|] == chunks;
    digest := ctx.Final();
  }

  /** `make_md5_fcs`: one update for all the data. */
  method MakeMd5Fcs(data: seq<byte>) returns (fcs: seq<byte>)
    requires |data| < TWO_32
    ensures fcs == Md5(data)
  {
    hide Md5;
    var ctx := new Md5Context();
    ctx.Update(data);
    assert [] + data == data;
    fcs := ctx.Final();
  }
}
