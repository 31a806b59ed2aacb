/** A test vector of section A.5 of RFC 1321: the digest of the lower-case alphabet, operation by operation. */
module Md5Vector {
  import opened Bytes
  import opened WordBits
  import opened Md5Block
  import opened Md5Stream

  /** "abcdefghijklmnopqrstuvwxyz" as bytes. */
  function Alphabet(): (m: seq<byte>)
    ensures |m| == 26
  {
    seq(26, i requires 0 <= i < 26 => 97 + i)
  }

  /** The one block of the padded message. */
  function Block(): (x: seq<word>)
    ensures |x| == 16
  {
    [0x64636261, 0x68676665, 0x6c6b6a69, 0x706f6e6d,
     0x74737271, 0x78777675, 0x00807a79, 0x00000000,
     0x00000000, 0x00000000, 0x00000000, 0x00000000,
     0x00000000, 0x00000000, 0x000000d0, 0x00000000]
  }

  lemma BlockWords()
    ensures var x := Block();
      && x[0] == 0x64636261 && x[1] == 0x68676665 && x[2] == 0x6c6b6a69 && x[3] == 0x706f6e6d
      && x[4] == 0x74737271 && x[5] == 0x78777675 && x[6] == 0x00807a79 && x[14] == 0x000000d0
      && x[7] == x[8] == x[9] == x[10] == x[11] == x[12] == x[13] == x[15] == 0
  {
  }

  /** One operation on known registers: the auxiliary function, the sum and the rotation. */
  lemma Known(n: nat, before: State, w: word, f: word, sum: word, turned: word, after: State)
    requires Operations(n, INIT, Block()) == before && Block()[Index(n)] == w
    requires Aux(n, before.b, before.c, before.d) == f
    requires Add(Add(Add(before.a, f), w), Sine(n)) == sum && RotateLeft(sum, Amount(n)) == turned
    requires after == State(before.d, Add(before.b, turned), before.b, before.c)
    ensures Operations(n + 1, INIT, Block()) == after
  {
    hide Aux, Sine, RotateLeft, Add, Index, Amount, Block;
  }

  lemma After1()
    ensures Operations(1, INIT, Block()) == State(0x10325476, 0xd6d117a6, 0xefcdab89, 0x98badcfe)
  {
    hide Operations, Block;
    BlockWords();
    OperationsEnds(INIT, INIT, Block());
    Known(0, State(0x67452301, 0xefcdab89, 0x98badcfe, 0x10325476), 0x64636261, 0x98badcfe, 0x3bce06d8, 0xe7036c1d,
          State(0x10325476, 0xd6d117a6, 0xefcdab89, 0x98badcfe));
  }

  lemma After2()
    ensures Operations(2, INIT, Block()) == State(0x98badcfe, 0xaab1aaaa, 0xd6d117a6, 0xefcdab89)
  {
    hide Operations, Block;
    BlockWords();
    After1();
    Known(1, State(0x10325476, 0xd6d117a6, 0xefcdab89, 0x98badcfe), 0x68676665, 0xceebcbd8, 0x304d3e09, 0xd3e09304,
          State(0x98badcfe, 0xaab1aaaa, 0xd6d117a6, 0xefcdab89));
  }

  lemma After3()
    ensures Operations(3, INIT, Block()) == State(0xefcdab89, 0x227d8cf1, 0xaab1aaaa, 0xd6d117a6)
  {
    hide Operations, Block;
    BlockWords();
    After2();
    Known(2, State(0x98badcfe, 0xaab1aaaa, 0xd6d117a6, 0xefcdab89), 0x6c6b6a69, 0xc7dd03a3, 0xf123bbe5, 0x77cbe247,
          State(0xefcdab89, 0x227d8cf1, 0xaab1aaaa, 0xd6d117a6));
  }

  lemma After4()
    ensures Operations(4, INIT, Block()) == State(0xd6d117a6, 0x4503b812, 0x227d8cf1, 0xaab1aaaa)
  {
    hide Operations, Block;
    BlockWords();
    After3();
    Known(3, State(0xefcdab89, 0x227d8cf1, 0xaab1aaaa, 0xd6d117a6), 0x706f6e6d, 0xf6b19ba6, 0x18ac848a, 0x22862b21,
          State(0xd6d117a6, 0x4503b812, 0x227d8cf1, 0xaab1aaaa));
  }

  lemma After5()
    ensures Operations(5, INIT, Block()) == State(0xaab1aaaa, 0xfe15f787, 0x4503b812, 0x227d8cf1)
  {
    hide Operations, Block;
    BlockWords();
    After4();
    Known(4, State(0xd6d117a6, 0x4503b812, 0x227d8cf1, 0xaab1aaaa), 0x74737271, 0xaab18ab8, 0xeb72247e, 0xb9123f75,
          State(0xaab1aaaa, 0xfe15f787, 0x4503b812, 0x227d8cf1));
  }

  lemma After6()
    ensures Operations(6, INIT, Block()) == State(0x227d8cf1, 0xa811b278, 0xfe15f787, 0x4503b812)
  {
    hide Operations, Block;
    BlockWords();
    After5();
    Known(5, State(0xaab1aaaa, 0xfe15f787, 0x4503b812, 0x227d8cf1), 0x78777675, 0x4469b872, 0xaf1a9fbb, 0xa9fbbaf1,
          State(0x227d8cf1, 0xa811b278, 0xfe15f787, 0x4503b812));
  }

  lemma After7()
    ensures Operations(7, INIT, Block()) == State(0x4503b812, 0xb71122fc, 0xa811b278, 0xfe15f787)
  {
    hide Operations, Block;
    BlockWords();
    After6();
    Known(6, State(0x227d8cf1, 0xa811b278, 0xfe15f787, 0x4503b812), 0x00807a79, 0xed13ba02, 0xb842077f, 0x0eff7084,
          State(0x4503b812, 0xb71122fc, 0xa811b278, 0xfe15f787));
  }

  lemma After8()
    ensures Operations(8, INIT, Block()) == State(0xfe15f787, 0xda9bbb0d, 0xb71122fc, 0xa811b278)
  {
    hide Operations, Block;
    BlockWords();
    After7();
    Known(7, State(0x4503b812, 0xb71122fc, 0xa811b278, 0xfe15f787), 0x00000000, 0xe815f77b, 0x2a60448e, 0x238a9811,
          State(0xfe15f787, 0xda9bbb0d, 0xb71122fc, 0xa811b278));
  }

  lemma After9()
    ensures Operations(9, INIT, Block()) == State(0xa811b278, 0xae752899, 0xda9bbb0d, 0xb71122fc)
  {
    hide Operations, Block;
    BlockWords();
    After8();
    Known(8, State(0xfe15f787, 0xda9bbb0d, 0xb71122fc, 0xa811b278), 0x00000000, 0xb211227c, 0x19a7b2db, 0xd3d96d8c,
          State(0xa811b278, 0xae752899, 0xda9bbb0d, 0xb71122fc));
  }

  lemma After10()
    ensures Operations(10, INIT, Block()) == State(0xb71122fc, 0x2bbe757f, 0xae752899, 0xda9bbb0d)
  {
    hide Operations, Block;
    BlockWords();
    After9();
    Known(9, State(0xa811b278, 0xae752899, 0xda9bbb0d, 0xb71122fc), 0x00000000, 0x9b112a6d, 0xce67d494, 0x7d494ce6,
          State(0xb71122fc, 0x2bbe757f, 0xae752899, 0xda9bbb0d));
  }

  lemma After11()
    ensures Operations(11, INIT, Block()) == State(0xda9bbb0d, 0x7d4bd80b, 0x2bbe757f, 0xae752899)
  {
    hide Operations, Block;
    BlockWords();
    After10();
    Known(10, State(0xb71122fc, 0x2bbe757f, 0xae752899, 0xda9bbb0d), 0x00000000, 0xfa35aa19, 0xb14628c6, 0x518d628c,
          State(0xda9bbb0d, 0x7d4bd80b, 0x2bbe757f, 0xae752899));
  }

  lemma After12()
    ensures Operations(12, INIT, Block()) == State(0xae752899, 0x56cfa5cb, 0x7d4bd80b, 0x2bbe757f)
  {
    hide Operations, Block;
    BlockWords();
    After11();
    Known(11, State(0xda9bbb0d, 0x7d4bd80b, 0x2bbe757f, 0xae752899), 0x00000000, 0xab3e709b, 0x0f370366, 0xd983cdc0,
          State(0xae752899, 0x56cfa5cb, 0x7d4bd80b, 0x2bbe757f));
  }

  lemma After13()
    ensures Operations(13, INIT, Block()) == State(0x2bbe757f, 0x1754a316, 0x56cfa5cb, 0x7d4bd80b)
  {
    hide Operations, Block;
    BlockWords();
    After12();
    Known(12, State(0xae752899, 0x56cfa5cb, 0x7d4bd80b, 0x2bbe757f), 0x00000000, 0x7d7bd03f, 0x978109fa, 0xc084fd4b,
          State(0x2bbe757f, 0x1754a316, 0x56cfa5cb, 0x7d4bd80b));
  }

  lemma After14()
    ensures Operations(14, INIT, Block()) == State(0x7d4bd80b, 0x85567d90, 0x1754a316, 0x56cfa5cb)
  {
    hide Operations, Block;
    BlockWords();
    After13();
    Known(13, State(0x2bbe757f, 0x1754a316, 0x56cfa5cb, 0x7d4bd80b), 0x00000000, 0x7e4ff90b, 0xa7a6e01d, 0x6e01da7a,
          State(0x7d4bd80b, 0x85567d90, 0x1754a316, 0x56cfa5cb));
  }

  lemma After15()
    ensures Operations(15, INIT, Block()) == State(0x56cfa5cb, 0x00df74d5, 0x85567d90, 0x1754a316)
  {
    hide Operations, Block;
    BlockWords();
    After14();
    Known(14, State(0x7d4bd80b, 0x85567d90, 0x1754a316, 0x56cfa5cb), 0x000000d0, 0x57dda15b, 0x7ba2bdc4, 0x7b88f745,
          State(0x56cfa5cb, 0x00df74d5, 0x85567d90, 0x1754a316));
  }

  lemma After16()
    ensures Operations(16, INIT, Block()) == State(0x1754a316, 0x608d6b7e, 0x00df74d5, 0x85567d90)
  {
    hide Operations, Block;
    BlockWords();
    After15();
    Known(15, State(0x56cfa5cb, 0x00df74d5, 0x85567d90, 0x1754a316), 0x00000000, 0x1756f792, 0xb7daa57e, 0x5fadf6a9,
          State(0x1754a316, 0x608d6b7e, 0x00df74d5, 0x85567d90));
  }

  lemma After17()
    ensures Operations(17, INIT, Block()) == State(0x85567d90, 0x2d8071cc, 0x608d6b7e, 0x00df74d5)
  {
    hide Operations, Block;
    BlockWords();
    After16();
    Known(16, State(0x1754a316, 0x608d6b7e, 0x00df74d5, 0x85567d90), 0x68676665, 0x008d6955, 0x76679832, 0xccf3064e,
          State(0x85567d90, 0x2d8071cc, 0x608d6b7e, 0x00df74d5));
  }

  lemma After18()
    ensures Operations(18, INIT, Block()) == State(0x00df74d5, 0x5dcee119, 0x2d8071cc, 0x608d6b7e)
  {
    hide Operations, Block;
    BlockWords();
    After17();
    Known(17, State(0x85567d90, 0x2d8071cc, 0x608d6b7e, 0x00df74d5), 0x00807a79, 0x60807bee, 0xa6982737, 0x304e6f4d,
          State(0x00df74d5, 0x5dcee119, 0x2d8071cc, 0x608d6b7e));
  }

  lemma After19()
    ensures Operations(19, INIT, Block()) == State(0x608d6b7e, 0xedfe7e4b, 0x5dcee119, 0x2d8071cc)
  {
    hide Operations, Block;
    BlockWords();
    After18();
    Known(18, State(0x00df74d5, 0x5dcee119, 0x2d8071cc, 0x608d6b7e), 0x00000000, 0x4d8c7198, 0x74ca40be, 0x902f9d32,
          State(0x608d6b7e, 0xedfe7e4b, 0x5dcee119, 0x2d8071cc));
  }

  lemma After20()
    ensures Operations(20, INIT, Block()) == State(0x2d8071cc, 0x4c2145b3, 0xedfe7e4b, 0x5dcee119)
  {
    hide Operations, Block;
    BlockWords();
    After19();
    Known(19, State(0x608d6b7e, 0xedfe7e4b, 0x5dcee119, 0x2d8071cc), 0x64636261, 0x7dcef059, 0x2c7685e2, 0x5e22c768,
          State(0x2d8071cc, 0x4c2145b3, 0xedfe7e4b, 0x5dcee119));
  }

  lemma After21()
    ensures Operations(21, INIT, Block()) == State(0x5dcee119, 0x570c43e0, 0x4c2145b3, 0xedfe7e4b)
  {
    hide Operations, Block;
    BlockWords();
    After20();
    Known(20, State(0x2d8071cc, 0x4c2145b3, 0xedfe7e4b, 0x5dcee119), 0x78777675, 0xec305f53, 0x685757f1, 0x0aeafe2d,
          State(0x5dcee119, 0x570c43e0, 0x4c2145b3, 0xedfe7e4b));
  }

  lemma After22()
    ensures Operations(22, INIT, Block()) == State(0xedfe7e4b, 0x977efd2a, 0x570c43e0, 0x4c2145b3)
  {
    hide Operations, Block;
    BlockWords();
    After21();
    Known(21, State(0x5dcee119, 0x570c43e0, 0x4c2145b3, 0xedfe7e4b), 0x00000000, 0x450d43f0, 0xa520395c, 0x4072b94a,
          State(0xedfe7e4b, 0x977efd2a, 0x570c43e0, 0x4c2145b3));
  }

  lemma After23()
    ensures Operations(23, INIT, Block()) == State(0x4c2145b3, 0xc28ab49d, 0x977efd2a, 0x570c43e0)
  {
    hide Operations, Block;
    BlockWords();
    After22();
    Known(22, State(0xedfe7e4b, 0x977efd2a, 0x570c43e0, 0x4c2145b3), 0x00000000, 0x172c4762, 0xddccac2e, 0x2b0bb773,
          State(0x4c2145b3, 0xc28ab49d, 0x977efd2a, 0x570c43e0));
  }

  lemma After24()
    ensures Operations(24, INIT, Block()) == State(0x570c43e0, 0xc9f162d4, 0xc28ab49d, 0x977efd2a)
  {
    hide Operations, Block;
    BlockWords();
    After23();
    Known(23, State(0x4c2145b3, 0xc28ab49d, 0x977efd2a, 0x570c43e0), 0x74737271, 0xc27abc8a, 0x6ae37076, 0x0766ae37,
          State(0x570c43e0, 0xc9f162d4, 0xc28ab49d, 0x977efd2a));
  }

  lemma After25()
    ensures Operations(25, INIT, Block()) == State(0x977efd2a, 0x25bfae3b, 0xc9f162d4, 0xc28ab49d)
  {
    hide Operations, Block;
    BlockWords();
    After24();
    Known(24, State(0x570c43e0, 0xc9f162d4, 0xc28ab49d, 0x977efd2a), 0x00000000, 0xc1f06095, 0x3ade725b, 0x5bce4b67,
          State(0x977efd2a, 0x25bfae3b, 0xc9f162d4, 0xc28ab49d));
  }

  lemma After26()
    ensures Operations(26, INIT, Block()) == State(0xc28ab49d, 0x89980104, 0x25bfae3b, 0xc9f162d4)
  {
    hide Operations, Block;
    BlockWords();
    After25();
    Known(25, State(0x977efd2a, 0x25bfae3b, 0xc9f162d4, 0xc28ab49d), 0x000000d0, 0x09fbe659, 0x64b1ec29, 0x63d852c9,
          State(0xc28ab49d, 0x89980104, 0x25bfae3b, 0xc9f162d4));
  }

  lemma After27()
    ensures Operations(27, INIT, Block()) == State(0xc9f162d4, 0xf8c8365f, 0x89980104, 0x25bfae3b)
  {
    hide Operations, Block;
    BlockWords();
    After26();
    Known(26, State(0xc28ab49d, 0x89980104, 0x25bfae3b, 0xc9f162d4), 0x706f6e6d, 0xad9e8c2f, 0xd56dbcc0, 0x6f30355b,
          State(0xc9f162d4, 0xf8c8365f, 0x89980104, 0x25bfae3b));
  }

  lemma After28()
    ensures Operations(28, INIT, Block()) == State(0x25bfae3b, 0xe6d3b398, 0xf8c8365f, 0x89980104)
  {
    hide Operations, Block;
    BlockWords();
    After27();
    Known(27, State(0xc9f162d4, 0xf8c8365f, 0x89980104, 0x25bfae3b), 0x00000000, 0xa888271f, 0xb7d39ee0, 0xee0b7d39,
          State(0x25bfae3b, 0xe6d3b398, 0xf8c8365f, 0x89980104));
  }

  lemma After29()
    ensures Operations(29, INIT, Block()) == State(0x89980104, 0xf54d8710, 0xe6d3b398, 0xf8c8365f)
  {
    hide Operations, Block;
    BlockWords();
    After28();
    Known(28, State(0x25bfae3b, 0xe6d3b398, 0xf8c8365f, 0x89980104), 0x00000000, 0xf0d0375b, 0xc073ce9b, 0x0e79d378,
          State(0x89980104, 0xf54d8710, 0xe6d3b398, 0xf8c8365f));
  }

  lemma After30()
    ensures Operations(30, INIT, Block()) == State(0xf8c8365f, 0x927b72e2, 0xf54d8710, 0xe6d3b398)
  {
    hide Operations, Block;
    BlockWords();
    After29();
    Known(29, State(0x89980104, 0xf54d8710, 0xe6d3b398, 0xf8c8365f), 0x6c6b6a69, 0xf65b8790, 0xe94e96f5, 0x9d2debd2,
          State(0xf8c8365f, 0x927b72e2, 0xf54d8710, 0xe6d3b398));
  }

  lemma After31()
    ensures Operations(31, INIT, Block()) == State(0xe6d3b398, 0x2e69afc7, 0x927b72e2, 0xf54d8710)
  {
    hide Operations, Block;
    BlockWords();
    After30();
    Known(30, State(0xf8c8365f, 0x927b72e2, 0xf54d8710, 0xe6d3b398), 0x00000000, 0x935f3680, 0xf3966fb8, 0x9bee3ce5,
          State(0xe6d3b398, 0x2e69afc7, 0x927b72e2, 0xf54d8710));
  }

  lemma After32()
    ensures Operations(32, INIT, Block()) == State(0xf54d8710, 0xaeb35766, 0x2e69afc7, 0x927b72e2)
  {
    hide Operations, Block;
    BlockWords();
    After31();
    Known(31, State(0xe6d3b398, 0x2e69afc7, 0x927b72e2, 0xf54d8710), 0x00000000, 0x267bf7e2, 0x9a79f804, 0x8049a79f,
          State(0xf54d8710, 0xaeb35766, 0x2e69afc7, 0x927b72e2));
  }

  lemma After33()
    ensures Operations(33, INIT, Block()) == State(0x927b72e2, 0xb4bf680e, 0xaeb35766, 0x2e69afc7)
  {
    hide Operations, Block;
    BlockWords();
    After32();
    Known(32, State(0xf54d8710, 0xaeb35766, 0x2e69afc7, 0x927b72e2), 0x78777675, 0x12a18a43, 0x8060c10a, 0x060c10a8,
          State(0x927b72e2, 0xb4bf680e, 0xaeb35766, 0x2e69afc7));
  }

  lemma After34()
    ensures Operations(34, INIT, Block()) == State(0x2e69afc7, 0x4c8ffa80, 0xb4bf680e, 0xaeb35766)
  {
    hide Operations, Block;
    BlockWords();
    After33();
    Known(33, State(0x927b72e2, 0xb4bf680e, 0xaeb35766, 0x2e69afc7), 0x00000000, 0x346590af, 0x4e52fa12, 0x97d09272,
          State(0x2e69afc7, 0x4c8ffa80, 0xb4bf680e, 0xaeb35766));
  }

  lemma After35()
    ensures Operations(35, INIT, Block()) == State(0xaeb35766, 0x2361ed0a, 0x4c8ffa80, 0xb4bf680e)
  {
    hide Operations, Block;
    BlockWords();
    After34();
    Known(34, State(0x2e69afc7, 0x4c8ffa80, 0xb4bf680e, 0xaeb35766), 0x00000000, 0x5683c5e8, 0xf28ad6d1, 0xd6d1f28a,
          State(0xaeb35766, 0x2361ed0a, 0x4c8ffa80, 0xb4bf680e));
  }

  lemma After36()
    ensures Operations(36, INIT, Block()) == State(0xb4bf680e, 0x06a5e211, 0x2361ed0a, 0x4c8ffa80)
  {
    hide Operations, Block;
    BlockWords();
    After35();
    Known(35, State(0xaeb35766, 0x2361ed0a, 0x4c8ffa80, 0xb4bf680e), 0x000000d0, 0xdb517f84, 0x87ea0fc6, 0xe343f507,
          State(0xb4bf680e, 0x06a5e211, 0x2361ed0a, 0x4c8ffa80));
  }

  lemma After37()
    ensures Operations(37, INIT, Block()) == State(0x4c8ffa80, 0xb9c0c733, 0x06a5e211, 0x2361ed0a)
  {
    hide Operations, Block;
    BlockWords();
    After36();
    Known(36, State(0xb4bf680e, 0x06a5e211, 0x2361ed0a, 0x4c8ffa80), 0x68676665, 0x694bf59b, 0x2b31ae52, 0xb31ae522,
          State(0x4c8ffa80, 0xb9c0c733, 0x06a5e211, 0x2361ed0a));
  }

  lemma After38()
    ensures Operations(38, INIT, Block()) == State(0x2361ed0a, 0xf1e6dc7a, 0xb9c0c733, 0x06a5e211)
  {
    hide Operations, Block;
    BlockWords();
    After37();
    Known(37, State(0x4c8ffa80, 0xb9c0c733, 0x06a5e211, 0x2361ed0a), 0x74737271, 0x9c04c828, 0xa8e704c2, 0x38261547,
          State(0x2361ed0a, 0xf1e6dc7a, 0xb9c0c733, 0x06a5e211));
  }

  lemma After39()
    ensures Operations(39, INIT, Block()) == State(0x06a5e211, 0x23a9451b, 0xf1e6dc7a, 0xb9c0c733)
  {
    hide Operations, Block;
    BlockWords();
    After38();
    Known(38, State(0x2361ed0a, 0xf1e6dc7a, 0xb9c0c733, 0x06a5e211), 0x00000000, 0x4e83f958, 0x68a131c2, 0x31c268a1,
          State(0x06a5e211, 0x23a9451b, 0xf1e6dc7a, 0xb9c0c733));
  }

  lemma After40()
    ensures Operations(40, INIT, Block()) == State(0xb9c0c733, 0x8d41bf99, 0x23a9451b, 0xf1e6dc7a)
  {
    hide Operations, Block;
    BlockWords();
    After39();
    Known(39, State(0x06a5e211, 0x23a9451b, 0xf1e6dc7a, 0xb9c0c733), 0x00000000, 0x6b8f5e52, 0x30f4fcd3, 0x69987a7e,
          State(0xb9c0c733, 0x8d41bf99, 0x23a9451b, 0xf1e6dc7a));
  }

  lemma After41()
    ensures Operations(41, INIT, Block()) == State(0xf1e6dc7a, 0xa3e88ead, 0x8d41bf99, 0x23a9451b)
  {
    hide Operations, Block;
    BlockWords();
    After40();
    Known(40, State(0xb9c0c733, 0x8d41bf99, 0x23a9451b, 0xf1e6dc7a), 0x00000000, 0x5f0e26f8, 0x416a6cf1, 0x16a6cf14,
          State(0xf1e6dc7a, 0xa3e88ead, 0x8d41bf99, 0x23a9451b));
  }

  lemma After42()
    ensures Operations(42, INIT, Block()) == State(0x23a9451b, 0x02c0b11c, 0xa3e88ead, 0x8d41bf99)
  {
    hide Operations, Block;
    BlockWords();
    After41();
    Known(41, State(0xf1e6dc7a, 0xa3e88ead, 0x8d41bf99, 0x23a9451b), 0x64636261, 0x0d00742f, 0x4debdb04, 0x5ed8226f,
          State(0x23a9451b, 0x02c0b11c, 0xa3e88ead, 0x8d41bf99));
  }

  lemma After43()
    ensures Operations(43, INIT, Block()) == State(0x8d41bf99, 0x66f6468d, 0x02c0b11c, 0xa3e88ead)
  {
    hide Operations, Block;
    BlockWords();
    After42();
    Known(42, State(0x23a9451b, 0x02c0b11c, 0xa3e88ead, 0x8d41bf99), 0x706f6e6d, 0x2c698028, 0x95716435, 0x64359571,
          State(0x8d41bf99, 0x66f6468d, 0x02c0b11c, 0xa3e88ead));
  }

  lemma After44()
    ensures Operations(44, INIT, Block()) == State(0xa3e88ead, 0x90a35af5, 0x66f6468d, 0x02c0b11c)
  {
    hide Operations, Block;
    BlockWords();
    After43();
    Known(43, State(0x8d41bf99, 0x66f6468d, 0x02c0b11c, 0xa3e88ead), 0x00807a79, 0xc7de793c, 0x5a28d053, 0x29ad1468,
          State(0xa3e88ead, 0x90a35af5, 0x66f6468d, 0x02c0b11c));
  }

  lemma After45()
    ensures Operations(45, INIT, Block()) == State(0x02c0b11c, 0xb5d41f9c, 0x90a35af5, 0x66f6468d)
  {
    hide Operations, Block;
    BlockWords();
    After44();
    Known(44, State(0xa3e88ead, 0x90a35af5, 0x66f6468d, 0x02c0b11c), 0x00000000, 0xf495ad64, 0x72530c4a, 0x2530c4a7,
          State(0x02c0b11c, 0xb5d41f9c, 0x90a35af5, 0x66f6468d));
  }

  lemma After46()
    ensures Operations(46, INIT, Block()) == State(0x66f6468d, 0xa04b4904, 0xb5d41f9c, 0x90a35af5)
  {
    hide Operations, Block;
    BlockWords();
    After45();
    Known(45, State(0x02c0b11c, 0xb5d41f9c, 0x90a35af5, 0x66f6468d), 0x00000000, 0x438103e4, 0x2d1d4ee5, 0xea772968,
          State(0x66f6468d, 0xa04b4904, 0xb5d41f9c, 0x90a35af5));
  }

  lemma After47()
    ensures Operations(47, INIT, Block()) == State(0x90a35af5, 0x703d54d8, 0xa04b4904, 0xb5d41f9c)
  {
    hide Operations, Block;
    BlockWords();
    After46();
    Known(46, State(0x66f6468d, 0xa04b4904, 0xb5d41f9c, 0x90a35af5), 0x00000000, 0x853c0c6d, 0x0bd4cff2, 0xcff20bd4,
          State(0x90a35af5, 0x703d54d8, 0xa04b4904, 0xb5d41f9c));
  }

  lemma After48()
    ensures Operations(48, INIT, Block()) == State(0xb5d41f9c, 0x71d10367, 0x703d54d8, 0xa04b4904)
  {
    hide Operations, Block;
    BlockWords();
    After47();
    Known(47, State(0x90a35af5, 0x703d54d8, 0xa04b4904, 0xb5d41f9c), 0x6c6b6a69, 0x65a20240, 0x275d1e03, 0x0193ae8f,
          State(0xb5d41f9c, 0x71d10367, 0x703d54d8, 0xa04b4904));
  }

  lemma After49()
    ensures Operations(49, INIT, Block()) == State(0xa04b4904, 0xfc32dd6e, 0x71d10367, 0x703d54d8)
  {
    hide Operations, Block;
    BlockWords();
    After48();
    Known(48, State(0xb5d41f9c, 0x71d10367, 0x703d54d8, 0xa04b4904), 0x64636261, 0x0fc8e327, 0x1e298768, 0x8a61da07,
          State(0xa04b4904, 0xfc32dd6e, 0x71d10367, 0x703d54d8));
  }

  lemma After50()
    ensures Operations(50, INIT, Block()) == State(0x703d54d8, 0x65456b34, 0xfc32dd6e, 0x71d10367)
  {
    hide Operations, Block;
    BlockWords();
    After49();
    Known(49, State(0xa04b4904, 0xfc32dd6e, 0x71d10367, 0x703d54d8), 0x00000000, 0x8e23fc08, 0x719a44a3, 0x69128dc6,
          State(0x703d54d8, 0x65456b34, 0xfc32dd6e, 0x71d10367));
  }

  lemma After51()
    ensures Operations(51, INIT, Block()) == State(0x71d10367, 0xb35602cb, 0x65456b34, 0xfc32dd6e)
  {
    hide Operations, Block;
    BlockWords();
    After50();
    Known(50, State(0x703d54d8, 0x65456b34, 0xfc32dd6e, 0x71d10367), 0x000000d0, 0x135d22d2, 0x2f2e9c21, 0x4e109797,
          State(0x71d10367, 0xb35602cb, 0x65456b34, 0xfc32dd6e));
  }

  lemma After52()
    ensures Operations(52, INIT, Block()) == State(0xfc32dd6e, 0x33edb197, 0xb35602cb, 0x65456b34)
  {
    hide Operations, Block;
    BlockWords();
    After51();
    Known(51, State(0x71d10367, 0xb35602cb, 0x65456b34, 0xfc32dd6e), 0x78777675, 0xd69a49ef, 0xbd766404, 0x8097aecc,
          State(0xfc32dd6e, 0x33edb197, 0xb35602cb, 0x65456b34));
  }

  lemma After53()
    ensures Operations(53, INIT, Block()) == State(0x65456b34, 0xc1e942f1, 0x33edb197, 0xb35602cb)
  {
    hide Operations, Block;
    BlockWords();
    After52();
    Known(52, State(0xfc32dd6e, 0x33edb197, 0xb35602cb, 0x65456b34), 0x00000000, 0x08a9b714, 0x6a37ee45, 0x8dfb915a,
          State(0x65456b34, 0xc1e942f1, 0x33edb197, 0xb35602cb));
  }

  lemma After54()
    ensures Operations(54, INIT, Block()) == State(0xb35602cb, 0xd9bb987c, 0xc1e942f1, 0x33edb197)
  {
    hide Operations, Block;
    BlockWords();
    After53();
    Known(53, State(0x65456b34, 0xc1e942f1, 0x33edb197, 0xb35602cb), 0x706f6e6d, 0xfe044e62, 0x62c5f495, 0x17d2558b,
          State(0xb35602cb, 0xd9bb987c, 0xc1e942f1, 0x33edb197));
  }

  lemma After55()
    ensures Operations(55, INIT, Block()) == State(0x33edb197, 0x23a68048, 0xd9bb987c, 0xc1e942f1)
  {
    hide Operations, Block;
    BlockWords();
    After54();
    Known(54, State(0xb35602cb, 0xd9bb987c, 0xc1e942f1, 0x33edb197), 0x00000000, 0x1c529c8d, 0xcf9893d5, 0x49eae7cc,
          State(0x33edb197, 0x23a68048, 0xd9bb987c, 0xc1e942f1));
  }

  lemma After56()
    ensures Operations(56, INIT, Block()) == State(0xc1e942f1, 0x83877d1b, 0x23a68048, 0xd9bb987c)
  {
    hide Operations, Block;
    BlockWords();
    After55();
    Known(55, State(0x33edb197, 0x23a68048, 0xd9bb987c, 0xc1e942f1), 0x68676665, 0xe60d2532, 0x07e69aff, 0x5fe0fcd3,
          State(0xc1e942f1, 0x83877d1b, 0x23a68048, 0xd9bb987c));
  }

  lemma After57()
    ensures Operations(57, INIT, Block()) == State(0xd9bb987c, 0x0077c208, 0x83877d1b, 0x23a68048)
  {
    hide Operations, Block;
    BlockWords();
    After56();
    Known(56, State(0xc1e942f1, 0x83877d1b, 0x23a68048, 0xd9bb987c), 0x00000000, 0x8461ffd3, 0xb5f3c113, 0x7cf044ed,
          State(0xd9bb987c, 0x0077c208, 0x83877d1b, 0x23a68048));
  }

  lemma After58()
    ensures Operations(58, INIT, Block()) == State(0x23a68048, 0x847fc2e7, 0x0077c208, 0x83877d1b)
  {
    hide Operations, Block;
    BlockWords();
    After57();
    Known(57, State(0xd9bb987c, 0x0077c208, 0x83877d1b, 0x23a68048), 0x00000000, 0x5ff882a4, 0x37e10200, 0x840800df,
          State(0x23a68048, 0x847fc2e7, 0x0077c208, 0x83877d1b));
  }

  lemma After59()
    ensures Operations(59, INIT, Block()) == State(0x83877d1b, 0xa3e2247f, 0x847fc2e7, 0x0077c208)
  {
    hide Operations, Block;
    BlockWords();
    After58();
    Known(58, State(0x23a68048, 0x847fc2e7, 0x0077c208, 0x83877d1b), 0x00807a79, 0xfc0800ef, 0xc3303ec4, 0x1f626198,
          State(0x83877d1b, 0xa3e2247f, 0x847fc2e7, 0x0077c208));
  }

  lemma After60()
    ensures Operations(60, INIT, Block()) == State(0x0077c208, 0x5e6bc930, 0xa3e2247f, 0x847fc2e7)
  {
    hide Operations, Block;
    BlockWords();
    After59();
    Known(59, State(0x83877d1b, 0xa3e2247f, 0x847fc2e7, 0x0077c208), 0x00000000, 0x7b95ff18, 0x4d258dd4, 0xba89a4b1,
          State(0x0077c208, 0x5e6bc930, 0xa3e2247f, 0x847fc2e7));
  }

  lemma After61()
    ensures Operations(61, INIT, Block()) == State(0x847fc2e7, 0x708ed9c2, 0x5e6bc930, 0xa3e2247f)
  {
    hide Operations, Block;
    BlockWords();
    After60();
    Known(60, State(0x0077c208, 0x5e6bc930, 0xa3e2247f, 0x847fc2e7), 0x74737271, 0xdc09d947, 0x48488c42, 0x12231092,
          State(0x847fc2e7, 0x708ed9c2, 0x5e6bc930, 0xa3e2247f));
  }

  lemma After62()
    ensures Operations(62, INIT, Block()) == State(0xa3e2247f, 0x2baf1354, 0x708ed9c2, 0x5e6bc930)
  {
    hide Operations, Block;
    BlockWords();
    After61();
    Known(61, State(0x847fc2e7, 0x708ed9c2, 0x5e6bc930, 0xa3e2247f), 0x00000000, 0x22f412f2, 0x64aec80e, 0xbb203992,
          State(0xa3e2247f, 0x2baf1354, 0x708ed9c2, 0x5e6bc930));
  }

  lemma After63()
    ensures Operations(63, INIT, Block()) == State(0x5e6bc930, 0xd38f1e7f, 0x2baf1354, 0x708ed9c2)
  {
    hide Operations, Block;
    BlockWords();
    After62();
    Known(62, State(0xa3e2247f, 0x2baf1354, 0x708ed9c2, 0x5e6bc930), 0x6c6b6a69, 0xdb31ee1d, 0x16574fc0, 0xa7e00b2b,
          State(0x5e6bc930, 0xd38f1e7f, 0x2baf1354, 0x708ed9c2));
  }

  lemma After64()
    ensures Operations(64, INIT, Block()) == State(0x708ed9c2, 0x1116e6d8, 0xd38f1e7f, 0x2baf1354)
  {
    hide Operations, Block;
    BlockWords();
    After63();
    Known(63, State(0x5e6bc930, 0xd38f1e7f, 0x2baf1354, 0x708ed9c2), 0x00000000, 0xf4502d2b, 0x3e42c9ec, 0x3d87c859,
          State(0x708ed9c2, 0x1116e6d8, 0xd38f1e7f, 0x2baf1354));
  }

  lemma Compressed()
    ensures Compress(INIT, Block()) == State(0xd7d3fcc3, 0x00e49261, 0x6c49fb7d, 0x3be167ca)
  {
    hide Operations, Block;
    After64();
    OperationsEnds(INIT, State(0x708ed9c2, 0x1116e6d8, 0xd38f1e7f, 0x2baf1354), Block());
  }

  /** The padded message: the letters, one bit, zeros, and the length of 208 bits. */
  lemma Padded()
    ensures var p := Pad(Alphabet());
      && |p| == 64 && p[26] == 0x80 && p[56] == 208
      && (forall i :: 0 <= i < 26 ==> p[i] == 97 + i)
      && (forall i :: 27 <= i < 64 && i != 56 ==> p[i] == 0)
  {
    var m := Alphabet();
    var length := LengthBytes(208);
    assert length == [208, 0, 0, 0, 0, 0, 0, 0];
    assert Pad(m) == m + [0x80] + Zeros(29) + length;
  }

  lemma WordValues()
    ensures WordOf(97, 98, 99, 100) == 0x64636261
    ensures WordOf(101, 102, 103, 104) == 0x68676665
    ensures WordOf(105, 106, 107, 108) == 0x6c6b6a69
    ensures WordOf(109, 110, 111, 112) == 0x706f6e6d
    ensures WordOf(113, 114, 115, 116) == 0x74737271
    ensures WordOf(117, 118, 119, 120) == 0x78777675
    ensures WordOf(121, 122, 128, 0) == 0x00807a79
    ensures WordOf(208, 0, 0, 0) == 0x000000d0
    ensures WordOf(0, 0, 0, 0) == 0x00000000
  {
  }

  lemma PaddedWords()
    ensures |Pad(Alphabet())| == 64 && Words(Pad(Alphabet())) == Block()
  {
    hide Pad, Alphabet, Block, Words, WordOf;
    Padded();
    BlockWords();
    WordValues();
    var p := Pad(Alphabet());
    WordsAre(p);
    assert Words(p)[0] == WordOf(97, 98, 99, 100);
    assert Words(p)[1] == WordOf(101, 102, 103, 104);
    assert Words(p)[2] == WordOf(105, 106, 107, 108);
    assert Words(p)[3] == WordOf(109, 110, 111, 112);
    assert Words(p)[4] == WordOf(113, 114, 115, 116);
    assert Words(p)[5] == WordOf(117, 118, 119, 120);
    assert Words(p)[6] == WordOf(121, 122, 128, 0);
    assert Words(p)[7] == WordOf(0, 0, 0, 0);
    assert Words(p)[8] == WordOf(0, 0, 0, 0);
    assert Words(p)[9] == WordOf(0, 0, 0, 0);
    assert Words(p)[10] == WordOf(0, 0, 0, 0);
    assert Words(p)[11] == WordOf(0, 0, 0, 0);
    assert Words(p)[12] == WordOf(0, 0, 0, 0);
    assert Words(p)[13] == WordOf(0, 0, 0, 0);
    assert Words(p)[14] == WordOf(208, 0, 0, 0);
    assert Words(p)[15] == WordOf(0, 0, 0, 0);
    assert forall k :: 0 <= k < 16 ==> Words(p)[k] == Block()[k];
  }

  lemma WordsAre(p: seq<byte>)
    requires |p| == 64
    ensures forall k :: 0 <= k < 16 ==> Words(p)[k] == WordOf(p[4 * k], p[4 * k + 1], p[4 * k + 2], p[4 * k + 3])
  {
  }

  /** The published digest. */
  lemma AlphabetDigest()
    ensures Md5(Alphabet()) == [0xc3, 0xfc, 0xd3, 0xd7, 0x61, 0x92, 0xe4, 0x00,
                               0x7d, 0xfb, 0x49, 0x6c, 0xca, 0x67, 0xe1, 0x3b]
  {
    hide Pad, Alphabet, Block, Words, Compress, LeBytes;
    PaddedWords();
    Compressed();
    var p := Pad(Alphabet());
    assert p[..64] == p && p[64..] == [];
    assert Absorb(INIT, p) == State(0xd7d3fcc3, 0x00e49261, 0x6c49fb7d, 0x3be167ca);
    DigestBytes();
  }

  lemma DigestBytes()
    ensures Output(State(0xd7d3fcc3, 0x00e49261, 0x6c49fb7d, 0x3be167ca)) ==
            [0xc3, 0xfc, 0xd3, 0xd7, 0x61, 0x92, 0xe4, 0x00,
             0x7d, 0xfb, 0x49, 0x6c, 0xca, 0x67, 0xe1, 0x3b]
  {
  }
}
