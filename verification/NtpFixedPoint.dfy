/** NTP fixed-point arithmetic: microseconds, 32-bit fractions of a second, and differences of time stamps. */
module NtpFixedPoint {

  const TWO_32 := 0x1_0000_0000

  /** NTPFRAC on unsigned 32-bit operands. */
  function NtpFrac(x: nat): nat {
    (4294 * x + 1981 * x % TWO_32 / 2048) % TWO_32
  }

  /** USEC on unsigned 32-bit operands. */
  function Usec(x: nat): nat {
    (x / 4096 - 759 * ((x / 1024 + 32768) / 65536)) % TWO_32
  }

  /** Every 32-bit fraction is a whole number of microseconds below a second. */
  lemma UsecInRange(x: nat)
    requires x < TWO_32
    ensures Usec(x) == x / 4096 - 759 * ((x / 1024 + 32768) / 65536) <= 999_999
  {
    var q, r := x / 1024, (x / 1024 + 32768) / 65536;
    assert x / 4096 == q / 4;
    assert 65536 * r <= q + 32768 < 65536 * r + 65536 && 0 <= r <= 64;
  }

  lemma Floor(n: int, d: int)
    requires d > 0
    ensures d * (n / d) <= n < d * (n / d) + d
  {
  }

  lemma FractionIs(x: nat)
    requires x < 1_000_000
    ensures NtpFrac(x) == 4294 * x + 1981 * x / 2048 < TWO_32
  {
    Floor(1981 * x, 2048);
    assert 1981 * x % TWO_32 == 1981 * x;
  }

  /** The conversion of a microsecond count fits 32 bits, and converting back is off by -380 to 379. */
  lemma FractionRoundTrip(x: nat)
    requires x < 1_000_000
    ensures NtpFrac(x) == 4294 * x + 1981 * x / 2048 < TWO_32
    ensures x - 380 <= Usec(NtpFrac(x)) <= x + 379
  {
    hide NtpFrac, Usec;
    var e := 1981 * x / 2048;
    Floor(1981 * x, 2048);
    FractionIs(x);
    var f := 4294 * x + e;
    UsecInRange(f);
    Floor(f, 4096);
    Floor(f, 1024);
    Floor(f / 1024 + 32768, 65536);
    RoundingErrors(x, e, f, f / 4096, f / 1024, (f / 1024 + 32768) / 65536);
  }

  /** What the four truncations can add up to. */
  lemma RoundingErrors(x: int, e: int, f: int, a: int, b: int, r: int)
    requires 0 <= x < 1_000_000 && f == 4294 * x + e
    requires 2048 * e <= 1981 * x < 2048 * e + 2048
    requires 4096 * a <= f < 4096 * a + 4096 && 1024 * b <= f < 1024 * b + 1024
    requires 65536 * r <= b + 32768 < 65536 * r + 65536
    ensures x - 380 <= a - 759 * r <= x + 379
  {
    assert 0x400_0000 * r <= f + 0x200_0000 < 0x400_0000 * r + 0x400_0000;
  }

  /** The fraction is below the exact one by less than twelve units of 2^-32 s. */
  lemma FractionIsClose(x: nat)
    requires x < 1_000_000
    ensures 0 <= x * TWO_32 - NtpFrac(x) * 1_000_000 < 12 * 1_000_000
  {
    FractionRoundTrip(x);
    Floor(1981 * x, 2048);
    hide NtpFrac, Usec;
  }

  /** The microseconds of every 32-bit fraction are within 381 of the exact ones. */
  lemma UsecIsClose(f: nat)
    requires f < TWO_32
    ensures -381 * TWO_32 < Usec(f) * TWO_32 - f * 1_000_000 < 380 * TWO_32
  {
    UsecInRange(f);
    Floor(f, 4096);
    Floor(f, 1024);
    Floor(f / 1024 + 32768, 65536);
    hide Usec;
    CloseParts(f, f / 4096, f / 1024, (f / 1024 + 32768) / 65536);
  }

  lemma CloseParts(f: int, a: int, b: int, r: int)
    requires 4096 * a <= f < 4096 * a + 4096 && 1024 * b <= f < 1024 * b + 1024
    requires 65536 * r <= b + 32768 < 65536 * r + 65536
    ensures -381 * TWO_32 < (a - 759 * r) * TWO_32 - f * 1_000_000 < 380 * TWO_32
  {
    assert 0x400_0000 * r <= f + 0x200_0000 < 0x400_0000 * r + 0x400_0000;
  }

  /** A time stamp: seconds and a 32-bit fraction. */
  datatype NtpTime = NtpTime(coarse: nat, fine: nat)

  predicate Valid(t: NtpTime) {
    t.coarse < TWO_32 && t.fine < TWO_32
  }

  /** A time stamp in units of 2^-32 s. */
  function Units(t: NtpTime): nat {
    t.coarse * TWO_32 + t.fine
  }

  /** The signed 32-bit value of an unsigned difference. */
  function Signed32(n: int): int {
    var u := n % TWO_32;
    if u < 0x8000_0000 then u else u - TWO_32
  }

  lemma SignedIs(n: int)
    requires -TWO_32 <= n < TWO_32
    ensures Signed32(n) == if n < -0x8000_0000 then n + TWO_32 else if n < 0x8000_0000 then n else n - TWO_32
  {
  }

  /** The whole seconds between two time stamps, rounded down after the one's-complement borrow. */
  function Seconds(start: NtpTime, stop: NtpTime): int {
    stop.coarse - start.coarse - if stop.fine < start.fine then 1 else 0
  }

  /** `ntpdiff`: when the whole seconds fit an int, the exact difference in microseconds, less 2^-32 s when the borrow
      comes in; otherwise it is off by 2^32 s. */
  method NtpDiff(start: NtpTime, stop: NtpTime) returns (micros: real)
    requires Valid(start) && Valid(stop)
    ensures var units := Units(stop) - Units(start) - if stop.fine < start.fine then 1 else 0;
      var off := Signed32(Seconds(start, stop)) - Seconds(start, stop);
      && micros * 4294967296.0 == (units + off * TWO_32) as real * 1000000.0
      && (off == 0 <==> -0x8000_0000 <= Seconds(start, stop) < 0x8000_0000) && off in {-TWO_32, 0, TWO_32}
  {
    hide Signed32;
    var s, u := Signed32(stop.coarse - start.coarse), 0;
    SignedIs(stop.coarse - start.coarse);
    SignedIs(s - 1);
    SignedIs(Seconds(start, stop));
    if stop.fine >= start.fine {
      u := stop.fine - start.fine;
    } else {
      u := start.fine - stop.fine;
      u := TWO_32 - 1 - u;
      s := Signed32(s - 1);
    }
    micros := s as real * 1000000.0 + u as real * (1000000.0 / 4294967296.0);
  }
}
