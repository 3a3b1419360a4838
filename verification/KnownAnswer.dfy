/** A published test vector of BLAKE3: the 64 bytes 0, 1, ..., 63.  They take one compression, whose
  * state is followed from half round to half round.  What the tables and constants of the model say
  * has to come out right here. */
module KnownAnswer {
  import opened Basics
  import opened Tree
  import opened Rounds
  import opened RowKernel
  import opened Words
  import opened Compress

  // The quarter round on words that are known

  function Plus(a: word, b: word): word {
    a + b
  }

  function Xor(a: word, b: word): word {
    a ^ b
  }

  function Right16(w: word): word {
    (w >> 16) | (w << 16)
  }

  function Right12(w: word): word {
    (w >> 12) | (w << 20)
  }

  function Right8(w: word): word {
    (w >> 8) | (w << 24)
  }

  function Right7(w: word): word {
    (w >> 7) | (w << 25)
  }

  function Mix(a: word, b: word, c: word, d: word, x: word, y: word): Quad<word> {
    var a1 := Sum3(a, b, x);
    var d1 := Right16(Xor(d, a1));
    var c1 := Plus(c, d1);
    var b1 := Right12(Xor(b, c1));
    var a2 := Sum3(a1, b1, y);
    var d2 := Right8(Xor(d1, a2));
    var c2 := Plus(c1, d2);
    Quad(a2, Right7(Xor(b1, c2)), c2, d2)
  }

  ghost predicate Known(o: Ops<word>) {
    && (forall a: word, b: word :: o.add(a, b) == Plus(a, b))
    && (forall a: word, b: word, x: word :: o.add3(a, b, x) == Sum3(a, b, x))
    && (forall a: word, b: word :: o.xor(a, b) == Xor(a, b))
    && (forall w: word :: o.rot16(w) == Right16(w))
    && (forall w: word :: o.rot12(w) == Right12(w))
    && (forall w: word :: o.rot8(w) == Right8(w))
    && (forall w: word :: o.rot7(w) == Right7(w))
  }

  lemma Rotations(w: word)
    ensures Rotr(w, 16) == Right16(w) && Rotr(w, 12) == Right12(w) && Rotr(w, 8) == Right8(w) && Rotr(w, 7) == Right7(w)
  {
  }

  lemma PortableSums(a: word, b: word, x: word)
    ensures PORTABLE.add(a, b) == Plus(a, b) && PORTABLE.add3(a, b, x) == Sum3(a, b, x) && PORTABLE.xor(a, b) == Xor(a, b)
  {
    hide Sum3;
  }

  lemma PortableRotations(w: word)
    ensures PORTABLE.rot16(w) == Right16(w) && PORTABLE.rot12(w) == Right12(w)
    ensures PORTABLE.rot8(w) == Right8(w) && PORTABLE.rot7(w) == Right7(w)
  {
    hide Rotr, Right16, Right12, Right8, Right7;
    Rotations(w);
  }

  lemma PortableKnown()
    ensures Known(PORTABLE)
  {
    hide Plus, Xor, Sum3, Right16, Right12, Right8, Right7;
    forall a: word, b: word
      ensures PORTABLE.add(a, b) == Plus(a, b)
    {
      PortableSums(a, b, 0);
    }
    forall a: word, b: word, x: word
      ensures PORTABLE.add3(a, b, x) == Sum3(a, b, x)
    {
      PortableSums(a, b, x);
    }
    forall a: word, b: word
      ensures PORTABLE.xor(a, b) == Xor(a, b)
    {
      PortableSums(a, b, 0);
    }
    forall w: word
      ensures PORTABLE.rot16(w) == Right16(w)
    {
      PortableRotations(w);
    }
    forall w: word
      ensures PORTABLE.rot12(w) == Right12(w)
    {
      PortableRotations(w);
    }
    forall w: word
      ensures PORTABLE.rot8(w) == Right8(w)
    {
      PortableRotations(w);
    }
    forall w: word
      ensures PORTABLE.rot7(w) == Right7(w)
    {
      PortableRotations(w);
    }
  }

  lemma MixIsG(o: Ops<word>, a: word, b: word, c: word, d: word, x: word, y: word)
    requires Known(o)
    ensures G(o, a, b, c, d, x, y) == Mix(a, b, c, d, x, y)
  {
    hide Plus, Xor, Sum3, Right16, Right12, Right8, Right7;
  }

  lemma AllMixes()
    ensures forall a: word, b: word, c: word, d: word, x: word, y: word ::
      G(PORTABLE, a, b, c, d, x, y) == Mix(a, b, c, d, x, y)
  {
    hide Known;
    PortableKnown();
    forall a: word, b: word, c: word, d: word, x: word, y: word
      ensures G(PORTABLE, a, b, c, d, x, y) == Mix(a, b, c, d, x, y)
    {
      MixIsG(PORTABLE, a, b, c, d, x, y);
    }
  }

  // The message and its rounds

  /** The bytes 0 to 63, four to a little-endian word. */
  const WORDS: seq<word> := [
    0x03020100, 0x07060504, 0x0B0A0908, 0x0F0E0D0C, 0x13121110, 0x17161514, 0x1B1A1918, 0x1F1E1D1C,
    0x23222120, 0x27262524, 0x2B2A2928, 0x2F2E2D2C, 0x33323130, 0x37363534, 0x3B3A3938, 0x3F3E3D3C]

  const AFTER_0: State<word> :=
    State(0x6A09E667, 0xBB67AE85, 0x3C6EF372, 0xA54FF53A, 0x510E527F, 0x9B05688C, 0x1F83D9AB, 0x5BE0CD19,
          0x6A09E667, 0xBB67AE85, 0x3C6EF372, 0xA54FF53A, 0x00000000, 0x00000000, 0x00000040, 0x0000000B)

  const AFTER_1: State<word> :=
    State(0x841B353A, 0xBC762A99, 0x7BC6F67C, 0x0DB12F4B, 0x13AC4CB6, 0xAB80B582, 0x78D7C89F, 0x44ADB812,
          0x0A9A96E0, 0xC7F9BD09, 0x17FE2798, 0xC15304DC, 0x05E7AB0B, 0xF1CA1402, 0x458798AB, 0xB48BE36E)

  const AFTER_2: State<word> :=
    State(0xBADA2BD4, 0x117A63C6, 0x1098B66C, 0x58BD36D5, 0x9C33E5B7, 0x06C6D7AF, 0x00E3E701, 0xE69BF088,
          0x1A159720, 0xB4A1B01C, 0xBB0C1B51, 0xF7F9C5F5, 0x5A047616, 0xE2193F4B, 0xBDEC2A97, 0x02886034)

  const AFTER_3: State<word> :=
    State(0x9AF92CCD, 0x7F46F5A3, 0x04C1D031, 0x106A65AF, 0xD0F47EE1, 0x3E258331, 0x10749322, 0x1D68CD00,
          0xCE5F0982, 0x729A0239, 0xEBFC97F9, 0x40E13997, 0xB5926716, 0xF874085C, 0x27635083, 0x8E5EDD27)

  const AFTER_4: State<word> :=
    State(0xED37CC74, 0xB9E66D6C, 0x9CB3211B, 0x9ED6CBBC, 0x8002FCAA, 0x95DC1075, 0x461006E7, 0x4A3B0E2C,
          0x31060B64, 0xC1122100, 0xFCC44624, 0x5997F509, 0x7C3F5E12, 0x2EC17D26, 0x02C1F5AB, 0xE4514841)

  const AFTER_5: State<word> :=
    State(0xD91E3FD0, 0xE4C16DEC, 0x011C3195, 0x24012AD6, 0x41D2073D, 0xC9BD7F68, 0x3E343F11, 0x553A02CE,
          0xD374E5C9, 0x328DCB2F, 0xADFA68C6, 0xFB2E3DFB, 0x406BE449, 0xD05C9474, 0x6B1D5423, 0xBDFCD813)

  const AFTER_6: State<word> :=
    State(0x430F218C, 0x7793917D, 0x8273BEEA, 0x375C9AD6, 0x90BCEE01, 0x10553402, 0x716586D3, 0x7E619F96,
          0xE268E17B, 0x6FAD9358, 0x7506E2C7, 0xAE8F410F, 0x9D32468B, 0x8F4E4385, 0x17D1DEB9, 0x8EEF9AE8)

  const AFTER_7: State<word> :=
    State(0x47BD97D5, 0x8CC4D5D7, 0xB6E9D3FB, 0xF5001539, 0x9AB50003, 0x4CBFC400, 0x69CD4536, 0xD8507434,
          0x06CC7A9B, 0x58989F3D, 0xDD895B4C, 0x17462AEB, 0x3629AF11, 0x316368EB, 0xAEA00929, 0x404B25C6)

  lemma Schedule0()
    ensures Scheduled(WORDS, 0) == [
      0x03020100, 0x07060504, 0x0B0A0908, 0x0F0E0D0C, 0x13121110, 0x17161514, 0x1B1A1918, 0x1F1E1D1C,
      0x23222120, 0x27262524, 0x2B2A2928, 0x2F2E2D2C, 0x33323130, 0x37363534, 0x3B3A3938, 0x3F3E3D3C]
  {
    ScheduleShape();
  }

  lemma Columns0()
    ensures Mix(0x6A09E667, 0x510E527F, 0x6A09E667, 0x00000000, 0x03020100, 0x07060504)
            == Quad(0x350F6ED9, 0x7C122543, 0x66FD8E51, 0xC30CE9D0)
    ensures Mix(0xBB67AE85, 0x9B05688C, 0xBB67AE85, 0x00000000, 0x0B0A0908, 0x0F0E0D0C)
            == Quad(0xE789356B, 0x2D1E9950, 0xF848A050, 0x1CC79054)
    ensures Mix(0x3C6EF372, 0x1F83D9AB, 0x3C6EF372, 0x00000040, 0x13121110, 0x17161514)
            == Quad(0x43EB493C, 0xCFDD537A, 0x5379E89C, 0x389D8626)
    ensures Mix(0xA54FF53A, 0x5BE0CD19, 0xA54FF53A, 0x0000000B, 0x1B1A1918, 0x1F1E1D1C)
            == Quad(0x0546AD94, 0x712CA71A, 0x5F8E3835, 0xDEDE26B1)
  {
  }

  lemma Diagonals0()
    ensures Mix(0x350F6ED9, 0x2D1E9950, 0x5379E89C, 0xDEDE26B1, 0x23222120, 0x27262524)
            == Quad(0x841B353A, 0xAB80B582, 0x17FE2798, 0xB48BE36E)
    ensures Mix(0xE789356B, 0xCFDD537A, 0x5F8E3835, 0xC30CE9D0, 0x2B2A2928, 0x2F2E2D2C)
            == Quad(0xBC762A99, 0x78D7C89F, 0xC15304DC, 0x05E7AB0B)
    ensures Mix(0x43EB493C, 0x712CA71A, 0x66FD8E51, 0x1CC79054, 0x33323130, 0x37363534)
            == Quad(0x7BC6F67C, 0x44ADB812, 0x0A9A96E0, 0xF1CA1402)
    ensures Mix(0x0546AD94, 0x7C122543, 0xF848A050, 0x389D8626, 0x3B3A3938, 0x3F3E3D3C)
            == Quad(0x0DB12F4B, 0x13AC4CB6, 0xC7F9BD09, 0x458798AB)
  {
  }

  lemma Round0()
    ensures Round(PORTABLE, AFTER_0, Scheduled(WORDS, 0)) == AFTER_1
  {
    hide G, Mix, Scheduled;
    Schedule0();
    Columns0();
    Diagonals0();
    AllMixes();
  }

  lemma Schedule1()
    ensures Scheduled(WORDS, 1) == [
      0x0B0A0908, 0x1B1A1918, 0x0F0E0D0C, 0x2B2A2928, 0x1F1E1D1C, 0x03020100, 0x13121110, 0x37363534,
      0x07060504, 0x2F2E2D2C, 0x33323130, 0x17161514, 0x27262524, 0x3B3A3938, 0x3F3E3D3C, 0x23222120]
  {
    ScheduleShape();
  }

  lemma Columns1()
    ensures Mix(0x841B353A, 0x13AC4CB6, 0x0A9A96E0, 0x05E7AB0B, 0x0B0A0908, 0x1B1A1918)
            == Quad(0xE7EF9637, 0xC008AF50, 0x2E545A47, 0x01C61C31)
    ensures Mix(0xBC762A99, 0xAB80B582, 0xC7F9BD09, 0xF1CA1402, 0x0F0E0D0C, 0x2B2A2928)
            == Quad(0x0785C04E, 0xC44E969B, 0x421DE41D, 0x80FEA046)
    ensures Mix(0x7BC6F67C, 0x78D7C89F, 0x17FE2798, 0x458798AB, 0x1F1E1D1C, 0x03020100)
            == Quad(0x6B812212, 0x39A217BF, 0x85C99B47, 0x292F1D74)
    ensures Mix(0x0DB12F4B, 0x44ADB812, 0xC15304DC, 0xB48BE36E, 0x13121110, 0x37363534)
            == Quad(0x8900BD57, 0xEAC962AB, 0x88E8DA43, 0xAC92036C)
  {
  }

  lemma Diagonals1()
    ensures Mix(0xE7EF9637, 0xC44E969B, 0x85C99B47, 0xAC92036C, 0x07060504, 0x2F2E2D2C)
            == Quad(0xBADA2BD4, 0x06C6D7AF, 0xBB0C1B51, 0x02886034)
    ensures Mix(0x0785C04E, 0x39A217BF, 0x88E8DA43, 0x01C61C31, 0x33323130, 0x17161514)
            == Quad(0x117A63C6, 0x00E3E701, 0xF7F9C5F5, 0x5A047616)
    ensures Mix(0x6B812212, 0xEAC962AB, 0x2E545A47, 0x80FEA046, 0x27262524, 0x3B3A3938)
            == Quad(0x1098B66C, 0xE69BF088, 0x1A159720, 0xE2193F4B)
    ensures Mix(0x8900BD57, 0xC008AF50, 0x421DE41D, 0x292F1D74, 0x3F3E3D3C, 0x23222120)
            == Quad(0x58BD36D5, 0x9C33E5B7, 0xB4A1B01C, 0xBDEC2A97)
  {
  }

  lemma Round1()
    ensures Round(PORTABLE, AFTER_1, Scheduled(WORDS, 1)) == AFTER_2
  {
    hide G, Mix, Scheduled;
    Schedule1();
    Columns1();
    Diagonals1();
    AllMixes();
  }

  lemma Schedule2()
    ensures Scheduled(WORDS, 2) == [
      0x0F0E0D0C, 0x13121110, 0x2B2A2928, 0x33323130, 0x37363534, 0x0B0A0908, 0x1F1E1D1C, 0x3B3A3938,
      0x1B1A1918, 0x17161514, 0x27262524, 0x03020100, 0x2F2E2D2C, 0x3F3E3D3C, 0x23222120, 0x07060504]
  {
    ScheduleShape();
  }

  lemma Columns2()
    ensures Mix(0xBADA2BD4, 0x9C33E5B7, 0x1A159720, 0x5A047616, 0x0F0E0D0C, 0x13121110)
            == Quad(0xE22019FA, 0x1C1BA13C, 0x6521745D, 0xE28AA125)
    ensures Mix(0x117A63C6, 0x06C6D7AF, 0xB4A1B01C, 0xE2193F4B, 0x2B2A2928, 0x33323130)
            == Quad(0xD8AF01B5, 0x8D6BD541, 0xD7FBCB2E, 0xC78379A0)
    ensures Mix(0x1098B66C, 0x00E3E701, 0xBB0C1B51, 0xBDEC2A97, 0x37363534, 0x0B0A0908)
            == Quad(0xCEA815B8, 0x01C7252B, 0x9979AF8F, 0xE6369EE0)
    ensures Mix(0x58BD36D5, 0xE69BF088, 0xF7F9C5F5, 0x02886034, 0x1F1E1D1C, 0x3B3A3938)
            == Quad(0xC1812B7E, 0x4D73C685, 0x9E2CEF6B, 0x81E5CC77)
  {
  }

  lemma Diagonals2()
    ensures Mix(0xE22019FA, 0x8D6BD541, 0x9979AF8F, 0x81E5CC77, 0x1B1A1918, 0x17161514)
            == Quad(0x9AF92CCD, 0x3E258331, 0xEBFC97F9, 0x8E5EDD27)
    ensures Mix(0xD8AF01B5, 0x01C7252B, 0x9E2CEF6B, 0xE28AA125, 0x27262524, 0x03020100)
            == Quad(0x7F46F5A3, 0x10749322, 0x40E13997, 0xB5926716)
    ensures Mix(0xCEA815B8, 0x4D73C685, 0x6521745D, 0xC78379A0, 0x2F2E2D2C, 0x3F3E3D3C)
            == Quad(0x04C1D031, 0x1D68CD00, 0xCE5F0982, 0xF874085C)
    ensures Mix(0xC1812B7E, 0x1C1BA13C, 0xD7FBCB2E, 0xE6369EE0, 0x23222120, 0x07060504)
            == Quad(0x106A65AF, 0xD0F47EE1, 0x729A0239, 0x27635083)
  {
  }

  lemma Round2()
    ensures Round(PORTABLE, AFTER_2, Scheduled(WORDS, 2)) == AFTER_3
  {
    hide G, Mix, Scheduled;
    Schedule2();
    Columns2();
    Diagonals2();
    AllMixes();
  }

  lemma Schedule3()
    ensures Scheduled(WORDS, 3) == [
      0x2B2A2928, 0x1F1E1D1C, 0x33323130, 0x27262524, 0x3B3A3938, 0x0F0E0D0C, 0x37363534, 0x3F3E3D3C,
      0x13121110, 0x03020100, 0x2F2E2D2C, 0x0B0A0908, 0x17161514, 0x23222120, 0x07060504, 0x1B1A1918]
  {
    ScheduleShape();
  }

  lemma Columns3()
    ensures Mix(0x9AF92CCD, 0xD0F47EE1, 0xCE5F0982, 0xB5926716, 0x2B2A2928, 0x1F1E1D1C)
            == Quad(0xE49B20A7, 0x79142753, 0xA4768709, 0x22575B02)
    ensures Mix(0x7F46F5A3, 0x3E258331, 0x729A0239, 0xF874085C, 0x33323130, 0x27262524)
            == Quad(0x98E77CA0, 0xDFBC1CCF, 0x5F2CCA97, 0x4A3ABF74)
    ensures Mix(0x04C1D031, 0x10749322, 0xEBFC97F9, 0x27635083, 0x3B3A3938, 0x0F0E0D0C)
            == Quad(0x226930B0, 0x953233EE, 0x5BF37053, 0xA3EE6147)
    ensures Mix(0x106A65AF, 0x1D68CD00, 0x40E13997, 0x8E5EDD27, 0x37363534, 0x3F3E3D3C)
            == Quad(0x4336120D, 0x13909CF6, 0x56A017E7, 0x5AF9F2F9)
  {
  }

  lemma Diagonals3()
    ensures Mix(0xE49B20A7, 0xDFBC1CCF, 0x5BF37053, 0x5AF9F2F9, 0x13121110, 0x03020100)
            == Quad(0xED37CC74, 0x95DC1075, 0xFCC44624, 0xE4514841)
    ensures Mix(0x98E77CA0, 0x953233EE, 0x56A017E7, 0x22575B02, 0x2F2E2D2C, 0x0B0A0908)
            == Quad(0xB9E66D6C, 0x461006E7, 0x5997F509, 0x7C3F5E12)
    ensures Mix(0x226930B0, 0x13909CF6, 0xA4768709, 0x4A3ABF74, 0x17161514, 0x23222120)
            == Quad(0x9CB3211B, 0x4A3B0E2C, 0x31060B64, 0x2EC17D26)
    ensures Mix(0x4336120D, 0x79142753, 0x5F2CCA97, 0xA3EE6147, 0x07060504, 0x1B1A1918)
            == Quad(0x9ED6CBBC, 0x8002FCAA, 0xC1122100, 0x02C1F5AB)
  {
  }

  lemma Round3()
    ensures Round(PORTABLE, AFTER_3, Scheduled(WORDS, 3)) == AFTER_4
  {
    hide G, Mix, Scheduled;
    Schedule3();
    Columns3();
    Diagonals3();
    AllMixes();
  }

  lemma Schedule4()
    ensures Scheduled(WORDS, 4) == [
      0x33323130, 0x37363534, 0x27262524, 0x2F2E2D2C, 0x3F3E3D3C, 0x2B2A2928, 0x3B3A3938, 0x23222120,
      0x1F1E1D1C, 0x0B0A0908, 0x17161514, 0x0F0E0D0C, 0x03020100, 0x07060504, 0x1B1A1918, 0x13121110]
  {
    ScheduleShape();
  }

  lemma Columns4()
    ensures Mix(0xED37CC74, 0x8002FCAA, 0x31060B64, 0x7C3F5E12, 0x33323130, 0x37363534)
            == Quad(0x89788583, 0x22288AB4, 0xA5900C10, 0xD02D2459)
    ensures Mix(0xB9E66D6C, 0x95DC1075, 0xC1122100, 0x2EC17D26, 0x27262524, 0x2F2E2D2C)
            == Quad(0x3BD77EC7, 0xB237B787, 0x8E1B6D4F, 0xEEE5F426)
    ensures Mix(0x9CB3211B, 0x461006E7, 0xFCC44624, 0x02C1F5AB, 0x3F3E3D3C, 0x2B2A2928)
            == Quad(0x4D6842FC, 0xA19417A1, 0xCA376446, 0x3CDDFD62)
    ensures Mix(0x9ED6CBBC, 0x4A3B0E2C, 0x5997F509, 0xE4514841, 0x3B3A3938, 0x23222120)
            == Quad(0xF81E206B, 0x5B3665B2, 0x2B9D3506, 0x76A37FE0)
  {
  }

  lemma Diagonals4()
    ensures Mix(0x89788583, 0xB237B787, 0xCA376446, 0x76A37FE0, 0x1F1E1D1C, 0x0B0A0908)
            == Quad(0xD91E3FD0, 0xC9BD7F68, 0xADFA68C6, 0xBDFCD813)
    ensures Mix(0x3BD77EC7, 0xA19417A1, 0x2B9D3506, 0xD02D2459, 0x17161514, 0x0F0E0D0C)
            == Quad(0xE4C16DEC, 0x3E343F11, 0xFB2E3DFB, 0x406BE449)
    ensures Mix(0x4D6842FC, 0x5B3665B2, 0xA5900C10, 0xEEE5F426, 0x03020100, 0x07060504)
            == Quad(0x011C3195, 0x553A02CE, 0xD374E5C9, 0xD05C9474)
    ensures Mix(0xF81E206B, 0x22288AB4, 0x8E1B6D4F, 0x3CDDFD62, 0x1B1A1918, 0x13121110)
            == Quad(0x24012AD6, 0x41D2073D, 0x328DCB2F, 0x6B1D5423)
  {
  }

  lemma Round4()
    ensures Round(PORTABLE, AFTER_4, Scheduled(WORDS, 4)) == AFTER_5
  {
    hide G, Mix, Scheduled;
    Schedule4();
    Columns4();
    Diagonals4();
    AllMixes();
  }

  lemma Schedule5()
    ensures Scheduled(WORDS, 5) == [
      0x27262524, 0x3B3A3938, 0x2F2E2D2C, 0x17161514, 0x23222120, 0x33323130, 0x3F3E3D3C, 0x07060504,
      0x37363534, 0x0F0E0D0C, 0x03020100, 0x2B2A2928, 0x0B0A0908, 0x1B1A1918, 0x13121110, 0x1F1E1D1C]
  {
    ScheduleShape();
  }

  lemma Columns5()
    ensures Mix(0xD91E3FD0, 0x41D2073D, 0xD374E5C9, 0x406BE449, 0x27262524, 0x3B3A3938)
            == Quad(0x75024957, 0xFEE2B782, 0x86EA6291, 0x2AFD7A4B)
    ensures Mix(0xE4C16DEC, 0xC9BD7F68, 0x328DCB2F, 0xD05C9474, 0x2F2E2D2C, 0x17161514)
            == Quad(0x5943B35E, 0x282BB226, 0x715990DE, 0xAFD7B7BE)
    ensures Mix(0x011C3195, 0x3E343F11, 0xADFA68C6, 0x6B1D5423, 0x23222120, 0x33323130)
            == Quad(0x67E9A1AA, 0xD3D78B40, 0x39817EDD, 0xC5A20CA8)
    ensures Mix(0x24012AD6, 0x553A02CE, 0xFB2E3DFB, 0xBDFCD813, 0x3F3E3D3C, 0x07060504)
            == Quad(0xD46F2198, 0x21BED0DC, 0xCB87DFA4, 0x1D669C24)
  {
  }

  lemma Diagonals5()
    ensures Mix(0x75024957, 0x282BB226, 0x39817EDD, 0x1D669C24, 0x37363534, 0x0F0E0D0C)
            == Quad(0x430F218C, 0x10553402, 0x7506E2C7, 0x8EEF9AE8)
    ensures Mix(0x5943B35E, 0xD3D78B40, 0xCB87DFA4, 0x2AFD7A4B, 0x03020100, 0x2B2A2928)
            == Quad(0x7793917D, 0x716586D3, 0xAE8F410F, 0x9D32468B)
    ensures Mix(0x67E9A1AA, 0x21BED0DC, 0x86EA6291, 0xAFD7B7BE, 0x0B0A0908, 0x1B1A1918)
            == Quad(0x8273BEEA, 0x7E619F96, 0xE268E17B, 0x8F4E4385)
    ensures Mix(0xD46F2198, 0xFEE2B782, 0x715990DE, 0xC5A20CA8, 0x13121110, 0x1F1E1D1C)
            == Quad(0x375C9AD6, 0x90BCEE01, 0x6FAD9358, 0x17D1DEB9)
  {
  }

  lemma Round5()
    ensures Round(PORTABLE, AFTER_5, Scheduled(WORDS, 5)) == AFTER_6
  {
    hide G, Mix, Scheduled;
    Schedule5();
    Columns5();
    Diagonals5();
    AllMixes();
  }

  lemma Schedule6()
    ensures Scheduled(WORDS, 6) == [
      0x2F2E2D2C, 0x3F3E3D3C, 0x17161514, 0x03020100, 0x07060504, 0x27262524, 0x23222120, 0x1B1A1918,
      0x3B3A3938, 0x2B2A2928, 0x0B0A0908, 0x33323130, 0x0F0E0D0C, 0x13121110, 0x1F1E1D1C, 0x37363534]
  {
    ScheduleShape();
  }

  lemma Columns6()
    ensures Mix(0x430F218C, 0x90BCEE01, 0xE268E17B, 0x9D32468B, 0x2F2E2D2C, 0x3F3E3D3C)
            == Quad(0x36653C6B, 0x20179635, 0xFFE7D8E6, 0xA34C57A3)
    ensures Mix(0x7793917D, 0x10553402, 0x6FAD9358, 0x8F4E4385, 0x17161514, 0x03020100)
            == Quad(0xB2A264FC, 0x28889DA0, 0x54EF597D, 0x4C2BB475)
    ensures Mix(0x8273BEEA, 0x716586D3, 0x7506E2C7, 0x17D1DEB9, 0x07060504, 0x27262524)
            == Quad(0xB26CF189, 0xAA0184C4, 0x90A5E3F1, 0x8726141C)
    ensures Mix(0x375C9AD6, 0x7E619F96, 0xAE8F410F, 0x8EEF9AE8, 0x23222120, 0x1B1A1918)
            == Quad(0x7C7B8DC4, 0xB366635F, 0x3BB0B6F9, 0xCBBD1FDB)
  {
  }

  lemma Diagonals6()
    ensures Mix(0x36653C6B, 0x28889DA0, 0x90A5E3F1, 0xCBBD1FDB, 0x3B3A3938, 0x2B2A2928)
            == Quad(0x47BD97D5, 0x4CBFC400, 0xDD895B4C, 0x404B25C6)
    ensures Mix(0xB2A264FC, 0xAA0184C4, 0x3BB0B6F9, 0xA34C57A3, 0x0B0A0908, 0x33323130)
            == Quad(0x8CC4D5D7, 0x69CD4536, 0x17462AEB, 0x3629AF11)
    ensures Mix(0xB26CF189, 0xB366635F, 0xFFE7D8E6, 0x4C2BB475, 0x0F0E0D0C, 0x13121110)
            == Quad(0xB6E9D3FB, 0xD8507434, 0x06CC7A9B, 0x316368EB)
    ensures Mix(0x7C7B8DC4, 0x20179635, 0x54EF597D, 0x8726141C, 0x1F1E1D1C, 0x37363534)
            == Quad(0xF5001539, 0x9AB50003, 0x58989F3D, 0xAEA00929)
  {
  }

  lemma Round6()
    ensures Round(PORTABLE, AFTER_6, Scheduled(WORDS, 6)) == AFTER_7
  {
    hide G, Mix, Scheduled;
    Schedule6();
    Columns6();
    Diagonals6();
    AllMixes();
  }

  const OUTPUT: seq<word> := [
    0x4171ED4E, 0xD45C4AEA, 0x6B6088B7, 0xE2463FD2, 0xAC9CAF12, 0x7DDCACEB, 0xC76D4C1F, 0x981B51F2,
    0x6CC59CFC, 0xE3FF31B8, 0xE1E7A83E, 0xB209DFD1, 0x6727FD6E, 0xAA660067, 0xB123D082, 0x1BABE8DF]

  lemma AllRounds()
    ensures RoundsFrom(PORTABLE, AFTER_0, WORDS, 0) == AFTER_7
  {
    hide Round, Scheduled;
    Round0();
    Round1();
    Round2();
    Round3();
    Round4();
    Round5();
    Round6();
    assert RoundsFrom(PORTABLE, AFTER_6, WORDS, 6) == AFTER_7;
    assert RoundsFrom(PORTABLE, AFTER_5, WORDS, 5) == AFTER_7;
    assert RoundsFrom(PORTABLE, AFTER_4, WORDS, 4) == AFTER_7;
    assert RoundsFrom(PORTABLE, AFTER_3, WORDS, 3) == AFTER_7;
    assert RoundsFrom(PORTABLE, AFTER_2, WORDS, 2) == AFTER_7;
    assert RoundsFrom(PORTABLE, AFTER_1, WORDS, 1) == AFTER_7;
  }

  lemma Started()
    ensures InitState(IV, LenByte(64), 0, 11) == AFTER_0
  {
  }

  lemma Fed()
    ensures FeedForward(PORTABLE, AFTER_7, CvWords(IV)) == OUTPUT
  {
  }
  lemma MessageRoot(m: Mode, message: seq<byte>)
    requires |message| == 64
    ensures SubtreeOutput(m, message, 0) == Output(m.key, message, 64, 0, m.flags | 1 | 2)
  {
    assert FullBlocks(64) == 0;
    assert message[0..] == message && message + Zeros(0) == message;
  }

  lemma Flags()
    ensures 0 | 1 | 2 | ROOT == 11 as byte
  {
  }

  lemma Compressed()
    ensures OutputWords(PORTABLE, IV, StoreWords(WORDS), LenByte(64), 0, 11) == OUTPUT
  {
    hide RoundsFrom, FeedForward, InitState;
    LoadStored(WORDS);
    Started();
    AllRounds();
    Fed();
  }

  /** The hash of the 64 bytes 0, 1, ..., 63, by the little-endian words of its first 64 bytes. */
  lemma CountingHash()
    ensures Hash(Mode(KernelOf(PORTABLE), IV, 0), StoreWords(WORDS), 0, 64) == StoreWords(OUTPUT)
  {
    hide OutputWords, SubtreeOutput, StoreWords;
    var m := Mode(KernelOf(PORTABLE), IV, 0);
    MessageRoot(m, StoreWords(WORDS));
    Compressed();
    Flags();
    var o := SubtreeOutput(m, StoreWords(WORDS), 0);
    var r := RootBytes(m, o, 0, 64);
    forall j | 0 <= j < 64
      ensures r[j] == StoreWords(OUTPUT)[j]
    {
      assert r[j] == RootByte(m, o, j);
    }
  }

}
