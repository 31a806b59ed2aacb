/** MD5 on one block: the table-driven rounds of section 3.4 of RFC 1321, and the unrolled transform. */
module Md5Block {
  import opened WordBits

  datatype State = State(a: word, b: word, c: word, d: word)

  /** Addition of 32-bit words. */
  function Add(x: word, y: word): word { (x + y) % TWO_32 }

  // ---------- RFC 1321, section 3.4 ----------

  function BitsOfF(x: bv32, y: bv32, z: bv32): bv32 { (x & y) | (!x & z) }

  function BitsOfG(x: bv32, y: bv32, z: bv32): bv32 { (x & z) | (y & !z) }

  function F(x: word, y: word, z: word): word { Word(BitsOfF(Bits(x), Bits(y), Bits(z))) }

  function G(x: word, y: word, z: word): word { Word(BitsOfG(Bits(x), Bits(y), Bits(z))) }

  function H(x: word, y: word, z: word): word { Word(Bits(x) ^ Bits(y) ^ Bits(z)) }

  function I(x: word, y: word, z: word): word { Word(Bits(y) ^ (Bits(x) | !Bits(z))) }

  /** The auxiliary function of operation `i`, counted from 0. */
  function Aux(i: nat, x: word, y: word, z: word): word {
    if i < 16 then F(x, y, z) else if i < 32 then G(x, y, z) else if i < 48 then H(x, y, z) else I(x, y, z)
  }

  /** Which word of the block operation `i` uses. */
  function Index(i: nat): (k: nat)
    ensures k < 16
  {
    if i < 16 then i else if i < 32 then (5 * i + 1) % 16 else if i < 48 then (3 * i + 5) % 16 else 7 * i % 16
  }

  lemma Index2()
    ensures Index(16) == 1 && Index(17) == 6 && Index(18) == 11 && Index(19) == 0
    ensures Index(20) == 5 && Index(21) == 10 && Index(22) == 15 && Index(23) == 4
    ensures Index(24) == 9 && Index(25) == 14 && Index(26) == 3 && Index(27) == 8
    ensures Index(28) == 13 && Index(29) == 2 && Index(30) == 7 && Index(31) == 12
  {
  }

  lemma Index3()
    ensures Index(32) == 5 && Index(33) == 8 && Index(34) == 11 && Index(35) == 14
    ensures Index(36) == 1 && Index(37) == 4 && Index(38) == 7 && Index(39) == 10
    ensures Index(40) == 13 && Index(41) == 0 && Index(42) == 3 && Index(43) == 6
    ensures Index(44) == 9 && Index(45) == 12 && Index(46) == 15 && Index(47) == 2
  {
  }

  lemma Index4()
    ensures Index(48) == 0 && Index(49) == 7 && Index(50) == 14 && Index(51) == 5
    ensures Index(52) == 12 && Index(53) == 3 && Index(54) == 10 && Index(55) == 1
    ensures Index(56) == 8 && Index(57) == 15 && Index(58) == 6 && Index(59) == 13
    ensures Index(60) == 4 && Index(61) == 11 && Index(62) == 2 && Index(63) == 9
  {
  }

  function Amount(i: nat): (s: nat)
    ensures s < 32
  {
    var q := i % 4;
    if i < 16 then (if q == 0 then 7 else if q == 1 then 12 else if q == 2 then 17 else 22)
    else if i < 32 then (if q == 0 then 5 else if q == 1 then 9 else if q == 2 then 14 else 20)
    else if i < 48 then (if q == 0 then 4 else if q == 1 then 11 else if q == 2 then 16 else 23)
    else if q == 0 then 6 else if q == 1 then 10 else if q == 2 then 15 else 21
  }

  /** The integer part of 4294967296 |sin(i + 1)|, round by round. */
  function Sine(i: nat): word {
    if i < 16 then Sine1(i) else if i < 32 then Sine2(i - 16) else if i < 48 then Sine3(i - 32) else Sine4(i - 48)
  }

  function Sine1(i: nat): word {
    match i
    case 0 => 0xd76aa478 case 1 => 0xe8c7b756 case 2 => 0x242070db case 3 => 0xc1bdceee
    case 4 => 0xf57c0faf case 5 => 0x4787c62a case 6 => 0xa8304613 case 7 => 0xfd469501
    case 8 => 0x698098d8 case 9 => 0x8b44f7af case 10 => 0xffff5bb1 case 11 => 0x895cd7be
    case 12 => 0x6b901122 case 13 => 0xfd987193 case 14 => 0xa679438e case _ => 0x49b40821
  }

  function Sine2(i: nat): word {
    match i
    case 0 => 0xf61e2562 case 1 => 0xc040b340 case 2 => 0x265e5a51 case 3 => 0xe9b6c7aa
    case 4 => 0xd62f105d case 5 => 0x02441453 case 6 => 0xd8a1e681 case 7 => 0xe7d3fbc8
    case 8 => 0x21e1cde6 case 9 => 0xc33707d6 case 10 => 0xf4d50d87 case 11 => 0x455a14ed
    case 12 => 0xa9e3e905 case 13 => 0xfcefa3f8 case 14 => 0x676f02d9 case _ => 0x8d2a4c8a
  }

  function Sine3(i: nat): word {
    match i
    case 0 => 0xfffa3942 case 1 => 0x8771f681 case 2 => 0x6d9d6122 case 3 => 0xfde5380c
    case 4 => 0xa4beea44 case 5 => 0x4bdecfa9 case 6 => 0xf6bb4b60 case 7 => 0xbebfbc70
    case 8 => 0x289b7ec6 case 9 => 0xeaa127fa case 10 => 0xd4ef3085 case 11 => 0x04881d05
    case 12 => 0xd9d4d039 case 13 => 0xe6db99e5 case 14 => 0x1fa27cf8 case _ => 0xc4ac5665
  }

  function Sine4(i: nat): word {
    match i
    case 0 => 0xf4292244 case 1 => 0x432aff97 case 2 => 0xab9423a7 case 3 => 0xfc93a039
    case 4 => 0x655b59c3 case 5 => 0x8f0ccc92 case 6 => 0xffeff47d case 7 => 0x85845dd1
    case 8 => 0x6fa87e4f case 9 => 0xfe2ce6e0 case 10 => 0xa3014314 case 11 => 0x4e0811a1
    case 12 => 0xf7537e82 case 13 => 0xbd3af235 case 14 => 0x2ad7d2bb case _ => 0xeb86d391
  }

  /** a = b + ((a + Aux(b, c, d) + X[k] + T[i]) <<< s), with the four registers renamed for the next operation. */
  function Operation(i: nat, st: State, x: seq<word>): State
    requires |x| == 16
  {
    var sum := Add(Add(Add(st.a, Aux(i, st.b, st.c, st.d)), x[Index(i)]), Sine(i));
    State(st.d, Add(st.b, RotateLeft(sum, Amount(i))), st.b, st.c)
  }

  function Operations(n: nat, st: State, x: seq<word>): State
    requires |x| == 16
  {
    if n == 0 then st else Operation(n - 1, Operations(n - 1, st, x), x)
  }

  /** Sixty-four operations, added to the state they started from. */
  function Compress(st: State, x: seq<word>): State
    requires |x| == 16
  {
    var r := Operations(64, st, x);
    State(Add(st.a, r.a), Add(st.b, r.b), Add(st.c, r.c), Add(st.d, r.d))
  }

  // ---------- the unrolled form ----------

  function BitsOfF1(x: bv32, y: bv32, z: bv32): bv32 { z ^ (x & (y ^ z)) }

  function F1(x: word, y: word, z: word): word { Word(BitsOfF1(Bits(x), Bits(y), Bits(z))) }

  function F2(x: word, y: word, z: word): word { F1(z, x, y) }

  function F3(x: word, y: word, z: word): word { Word(Bits(x) ^ Bits(y) ^ Bits(z)) }

  function F4(x: word, y: word, z: word): word { Word(Bits(y) ^ (Bits(x) | !Bits(z))) }

  /** MD5STEP: the new value of register `w`; its data argument is the sum of a block word and a constant. */
  function Md5Step(f: word, w: word, x: word, data: word, t: word, s: nat): word
    requires s < 32
  {
    Add(RotateLeft(Add(w, Add(Add(f, data), t)), s), x)
  }

  lemma AddAssoc(x: word, y: word, z: word)
    ensures Add(Add(x, y), z) == Add(x, Add(y, z)) && Add(x, y) == Add(y, x)
  {
    assert Add(x, y) == (if x + y < TWO_32 then x + y else x + y - TWO_32);
    assert Add(y, z) == (if y + z < TWO_32 then y + z else y + z - TWO_32);
  }

  lemma Select(x: bv32, y: bv32, z: bv32)
    ensures z ^ (x & (y ^ z)) == (x & y) | (!x & z)
  {
  }

  lemma SelectLast(x: bv32, y: bv32, z: bv32)
    ensures y ^ (z & (x ^ y)) == (x & z) | (y & !z)
  {
  }

  lemma SameBitsF(x: bv32, y: bv32, z: bv32)
    ensures BitsOfF1(x, y, z) == BitsOfF(x, y, z)
  {
    Select(x, y, z);
  }

  lemma SameBitsG(x: bv32, y: bv32, z: bv32)
    ensures BitsOfF1(z, x, y) == BitsOfG(x, y, z)
  {
    SelectLast(x, y, z);
  }

  /** The rewritten F1, F2 and F4 compute the functions of the standard. */
  lemma RewrittenFunctions(x: word, y: word, z: word)
    ensures F1(x, y, z) == F(x, y, z) && F2(x, y, z) == G(x, y, z)
    ensures F3(x, y, z) == H(x, y, z) && F4(x, y, z) == I(x, y, z)
  {
    hide BitsOfF1, BitsOfF, BitsOfG, Bits, Word;
    SameBitsF(Bits(x), Bits(y), Bits(z));
    SameBitsG(Bits(x), Bits(y), Bits(z));
  }

  /** One MD5STEP is one operation. */
  lemma StepIsOperation(i: nat, st: State, x: seq<word>)
    requires |x| == 16
    ensures var v := Md5Step(Aux(i, st.b, st.c, st.d), st.a, st.b, x[Index(i)], Sine(i), Amount(i));
      Operation(i, st, x) == State(st.d, v, st.b, st.c)
  {
    hide Aux, Sine, Amount, Index, RotateLeft, Add;
    var f, w, t := Aux(i, st.b, st.c, st.d), x[Index(i)], Sine(i);
    AddAssoc(st.a, f, w);
    AddAssoc(st.a, Add(f, w), t);
    AddAssoc(st.b, RotateLeft(Add(st.a, Add(Add(f, w), t)), Amount(i)), 0);
  }

  /** The function that the unrolled code uses in step `i`. */
  function Form(i: nat, x: word, y: word, z: word): word {
    if i < 16 then F1(x, y, z) else if i < 32 then F2(x, y, z) else if i < 48 then F3(x, y, z) else F4(x, y, z)
  }

  lemma FormIsAux(i: nat, x: word, y: word, z: word)
    ensures Form(i, x, y, z) == Aux(i, x, y, z)
  {
    hide F1, F2, F3, F4, F, G, H, I;
    RewrittenFunctions(x, y, z);
  }

  /** Four steps bring every register back to its place. */
  lemma Quad(n: nat, st: State, x: seq<word>)
    requires |x| == 16
    ensures var r := Operations(n, st, x);
      var a := Md5Step(Form(n, r.b, r.c, r.d), r.a, r.b, x[Index(n)], Sine(n), Amount(n));
      var d := Md5Step(Form(n + 1, a, r.b, r.c), r.d, a, x[Index(n + 1)], Sine(n + 1), Amount(n + 1));
      var c := Md5Step(Form(n + 2, d, a, r.b), r.c, d, x[Index(n + 2)], Sine(n + 2), Amount(n + 2));
      var b := Md5Step(Form(n + 3, c, d, a), r.b, c, x[Index(n + 3)], Sine(n + 3), Amount(n + 3));
      Operations(n + 4, st, x) == State(a, b, c, d)
  {
    hide Aux, Form, Sine, Amount, Index, Md5Step, Add, Operation;
    var r := Operations(n, st, x);
    FormIsAux(n, r.b, r.c, r.d);
    StepIsOperation(n, r, x);
    var r1 := Operations(n + 1, st, x);
    FormIsAux(n + 1, r1.b, r1.c, r1.d);
    StepIsOperation(n + 1, r1, x);
    var r2 := Operations(n + 2, st, x);
    FormIsAux(n + 2, r2.b, r2.c, r2.d);
    StepIsOperation(n + 2, r2, x);
    var r3 := Operations(n + 3, st, x);
    FormIsAux(n + 3, r3.b, r3.c, r3.d);
    StepIsOperation(n + 3, r3, x);
  }

  method RoundOne(st: State, x: seq<word>, ghost s0: State) returns (r: State)
    requires |x| == 16 && st == Operations(0, s0, x)
    ensures r == Operations(16, s0, x)
  {
    hide Add, Md5Step, Operations, F1;
    var State(a, b, c, d) := st;
    a := Md5Step(F1(b, c, d), a, b, x[0], 0xd76aa478, 7);
    d := Md5Step(F1(a, b, c), d, a, x[1], 0xe8c7b756, 12);
    c := Md5Step(F1(d, a, b), c, d, x[2], 0x242070db, 17);
    b := Md5Step(F1(c, d, a), b, c, x[3], 0xc1bdceee, 22);
    assert Operations(4, s0, x) == State(a, b, c, d) by { Quad(0, s0, x); }
    a := Md5Step(F1(b, c, d), a, b, x[4], 0xf57c0faf, 7);
    d := Md5Step(F1(a, b, c), d, a, x[5], 0x4787c62a, 12);
    c := Md5Step(F1(d, a, b), c, d, x[6], 0xa8304613, 17);
    b := Md5Step(F1(c, d, a), b, c, x[7], 0xfd469501, 22);
    assert Operations(8, s0, x) == State(a, b, c, d) by { Quad(4, s0, x); }
    a := Md5Step(F1(b, c, d), a, b, x[8], 0x698098d8, 7);
    d := Md5Step(F1(a, b, c), d, a, x[9], 0x8b44f7af, 12);
    c := Md5Step(F1(d, a, b), c, d, x[10], 0xffff5bb1, 17);
    b := Md5Step(F1(c, d, a), b, c, x[11], 0x895cd7be, 22);
    assert Operations(12, s0, x) == State(a, b, c, d) by { Quad(8, s0, x); }
    a := Md5Step(F1(b, c, d), a, b, x[12], 0x6b901122, 7);
    d := Md5Step(F1(a, b, c), d, a, x[13], 0xfd987193, 12);
    c := Md5Step(F1(d, a, b), c, d, x[14], 0xa679438e, 17);
    b := Md5Step(F1(c, d, a), b, c, x[15], 0x49b40821, 22);
    assert Operations(16, s0, x) == State(a, b, c, d) by { Quad(12, s0, x); }
    r := State(a, b, c, d);
  }

  method RoundTwo(st: State, x: seq<word>, ghost s0: State) returns (r: State)
    requires |x| == 16 && st == Operations(16, s0, x)
    ensures r == Operations(32, s0, x)
  {
    hide Add, Md5Step, Operations, F2, Index;
    Index2();
    var State(a, b, c, d) := st;
    a := Md5Step(F2(b, c, d), a, b, x[1], 0xf61e2562, 5);
    d := Md5Step(F2(a, b, c), d, a, x[6], 0xc040b340, 9);
    c := Md5Step(F2(d, a, b), c, d, x[11], 0x265e5a51, 14);
    b := Md5Step(F2(c, d, a), b, c, x[0], 0xe9b6c7aa, 20);
    assert Operations(20, s0, x) == State(a, b, c, d) by { Quad(16, s0, x); }
    a := Md5Step(F2(b, c, d), a, b, x[5], 0xd62f105d, 5);
    d := Md5Step(F2(a, b, c), d, a, x[10], 0x02441453, 9);
    c := Md5Step(F2(d, a, b), c, d, x[15], 0xd8a1e681, 14);
    b := Md5Step(F2(c, d, a), b, c, x[4], 0xe7d3fbc8, 20);
    assert Operations(24, s0, x) == State(a, b, c, d) by { Quad(20, s0, x); }
    a := Md5Step(F2(b, c, d), a, b, x[9], 0x21e1cde6, 5);
    d := Md5Step(F2(a, b, c), d, a, x[14], 0xc33707d6, 9);
    c := Md5Step(F2(d, a, b), c, d, x[3], 0xf4d50d87, 14);
    b := Md5Step(F2(c, d, a), b, c, x[8], 0x455a14ed, 20);
    assert Operations(28, s0, x) == State(a, b, c, d) by { Quad(24, s0, x); }
    a := Md5Step(F2(b, c, d), a, b, x[13], 0xa9e3e905, 5);
    d := Md5Step(F2(a, b, c), d, a, x[2], 0xfcefa3f8, 9);
    c := Md5Step(F2(d, a, b), c, d, x[7], 0x676f02d9, 14);
    b := Md5Step(F2(c, d, a), b, c, x[12], 0x8d2a4c8a, 20);
    assert Operations(32, s0, x) == State(a, b, c, d) by { Quad(28, s0, x); }
    r := State(a, b, c, d);
  }

  method RoundThree(st: State, x: seq<word>, ghost s0: State) returns (r: State)
    requires |x| == 16 && st == Operations(32, s0, x)
    ensures r == Operations(48, s0, x)
  {
    hide Add, Md5Step, Operations, F3, Index;
    Index3();
    var State(a, b, c, d) := st;
    a := Md5Step(F3(b, c, d), a, b, x[5], 0xfffa3942, 4);
    d := Md5Step(F3(a, b, c), d, a, x[8], 0x8771f681, 11);
    c := Md5Step(F3(d, a, b), c, d, x[11], 0x6d9d6122, 16);
    b := Md5Step(F3(c, d, a), b, c, x[14], 0xfde5380c, 23);
    assert Operations(36, s0, x) == State(a, b, c, d) by { Quad(32, s0, x); }
    a := Md5Step(F3(b, c, d), a, b, x[1], 0xa4beea44, 4);
    d := Md5Step(F3(a, b, c), d, a, x[4], 0x4bdecfa9, 11);
    c := Md5Step(F3(d, a, b), c, d, x[7], 0xf6bb4b60, 16);
    b := Md5Step(F3(c, d, a), b, c, x[10], 0xbebfbc70, 23);
    assert Operations(40, s0, x) == State(a, b, c, d) by { Quad(36, s0, x); }
    a := Md5Step(F3(b, c, d), a, b, x[13], 0x289b7ec6, 4);
    d := Md5Step(F3(a, b, c), d, a, x[0], 0xeaa127fa, 11);
    c := Md5Step(F3(d, a, b), c, d, x[3], 0xd4ef3085, 16);
    b := Md5Step(F3(c, d, a), b, c, x[6], 0x04881d05, 23);
    assert Operations(44, s0, x) == State(a, b, c, d) by { Quad(40, s0, x); }
    a := Md5Step(F3(b, c, d), a, b, x[9], 0xd9d4d039, 4);
    d := Md5Step(F3(a, b, c), d, a, x[12], 0xe6db99e5, 11);
    c := Md5Step(F3(d, a, b), c, d, x[15], 0x1fa27cf8, 16);
    b := Md5Step(F3(c, d, a), b, c, x[2], 0xc4ac5665, 23);
    assert Operations(48, s0, x) == State(a, b, c, d) by { Quad(44, s0, x); }
    r := State(a, b, c, d);
  }

  method RoundFour(st: State, x: seq<word>, ghost s0: State) returns (r: State)
    requires |x| == 16 && st == Operations(48, s0, x)
    ensures r == Operations(64, s0, x)
  {
    hide Add, Md5Step, Operations, F4, Index;
    Index4();
    var State(a, b, c, d) := st;
    a := Md5Step(F4(b, c, d), a, b, x[0], 0xf4292244, 6);
    d := Md5Step(F4(a, b, c), d, a, x[7], 0x432aff97, 10);
    c := Md5Step(F4(d, a, b), c, d, x[14], 0xab9423a7, 15);
    b := Md5Step(F4(c, d, a), b, c, x[5], 0xfc93a039, 21);
    assert Operations(52, s0, x) == State(a, b, c, d) by { Quad(48, s0, x); }
    a := Md5Step(F4(b, c, d), a, b, x[12], 0x655b59c3, 6);
    d := Md5Step(F4(a, b, c), d, a, x[3], 0x8f0ccc92, 10);
    c := Md5Step(F4(d, a, b), c, d, x[10], 0xffeff47d, 15);
    b := Md5Step(F4(c, d, a), b, c, x[1], 0x85845dd1, 21);
    assert Operations(56, s0, x) == State(a, b, c, d) by { Quad(52, s0, x); }
    a := Md5Step(F4(b, c, d), a, b, x[8], 0x6fa87e4f, 6);
    d := Md5Step(F4(a, b, c), d, a, x[15], 0xfe2ce6e0, 10);
    c := Md5Step(F4(d, a, b), c, d, x[6], 0xa3014314, 15);
    b := Md5Step(F4(c, d, a), b, c, x[13], 0x4e0811a1, 21);
    assert Operations(60, s0, x) == State(a, b, c, d) by { Quad(56, s0, x); }
    a := Md5Step(F4(b, c, d), a, b, x[4], 0xf7537e82, 6);
    d := Md5Step(F4(a, b, c), d, a, x[11], 0xbd3af235, 10);
    c := Md5Step(F4(d, a, b), c, d, x[2], 0x2ad7d2bb, 15);
    b := Md5Step(F4(c, d, a), b, c, x[9], 0xeb86d391, 21);
    assert Operations(64, s0, x) == State(a, b, c, d) by { Quad(60, s0, x); }
    r := State(a, b, c, d);
  }

  lemma OperationsEnds(st: State, r: State, x: seq<word>)
    requires |x| == 16
    ensures Operations(0, st, x) == st
    ensures r == Operations(64, st, x) ==>
      Compress(st, x) == State(Add(st.a, r.a), Add(st.b, r.b), Add(st.c, r.c), Add(st.d, r.d))
  {
  }

  method UnrolledSteps(st: State, x: seq<word>) returns (r: State)
    requires |x| == 16
    ensures r == Operations(64, st, x)
  {
    hide Operations;
    OperationsEnds(st, st, x);
    r := RoundOne(st, x, st);
    r := RoundTwo(r, x, st);
    r := RoundThree(r, x, st);
    r := RoundFour(r, x, st);
  }

  /** `MD5Transform`: sixty-four unrolled steps, then the sums in place. */
  method MD5Transform(buf: array<word>, x: seq<word>)
    requires buf.Length == 4 && |x| == 16
    modifies buf
    ensures StateOf(buf) == Compress(old(StateOf(buf)), x)
  {
    hide Add, Operations, Compress;
    ghost var s0 := StateOf(buf);
    var st := UnrolledSteps(State(buf[0], buf[1], buf[2], buf[3]), x);
    OperationsEnds(s0, st, x);
    buf[0] := Add(buf[0], st.a);
    buf[1] := Add(buf[1], st.b);
    buf[2] := Add(buf[2], st.c);
    buf[3] := Add(buf[3], st.d);
  }

  function StateOf(buf: array<word>): State
    requires buf.Length == 4
    reads buf
  {
    State(buf[0], buf[1], buf[2], buf[3])
  }
}
