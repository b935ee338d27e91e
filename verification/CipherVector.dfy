/** Known answers of the link cipher: XXTEA computed by hand, round by round, for one key and one counter value. */
module CipherVector {
  import opened Words
  import opened Octets
  import opened Nrf24Crypt

  const SAMPLE_ADDR: Bytes := [0x12, 0x34, 0x56, 0x78, 0x9A]
  const SAMPLE_KEY: Key := [0x12345678, 0x9A123456, 0x789A1234, 0x56789A12]

  /** The words of the sample key, by the two bits that select them. */
  function SampleWord(e: bv32): bv32 {
    if e == 0 then 0x12345678 else if e == 1 then 0x9A123456 else if e == 2 then 0x789A1234 else 0x56789A12
  }

  /** One round under the sample key leads from one state to the next; `s` is the running sum. */
  predicate RoundGives(v0: bv32, v1: bv32, sum: bv32, w0: bv32, w1: bv32, s: bv32) {
    var e := (s >> 2) & 3;
    && Add(sum, DELTA) == s
    && Add(v0, Mix(v1, v1, s, SampleWord(e))) == w0 && Add(v1, Mix(w0, w0, s, SampleWord(e ^ 1))) == w1
  }

  lemma Selected(s: bv32)
    ensures var e := (s >> 2) & 3;
            SAMPLE_KEY[KeyIndex(0, s)] == SampleWord(e) && SAMPLE_KEY[KeyIndex(1, s)] == SampleWord(e ^ 1)
  {
    IndexBits(s);
    hide KeyIndex;
  }

  lemma IndexBits(s: bv32)
    ensures (s >> 2) & 3 == 0 ==> KeyIndex(0, s) == 0 && KeyIndex(1, s) == 1
    ensures (s >> 2) & 3 == 1 ==> KeyIndex(0, s) == 1 && KeyIndex(1, s) == 0
    ensures (s >> 2) & 3 == 2 ==> KeyIndex(0, s) == 2 && KeyIndex(1, s) == 3
    ensures (s >> 2) & 3 == 3 ==> KeyIndex(0, s) == 3 && KeyIndex(1, s) == 2
    ensures (s >> 2) & 3 in {0, 1, 2, 3}
  {
  }

  lemma OneRound(v0: bv32, v1: bv32, sum: bv32, w0: bv32, w1: bv32, s: bv32, n: nat)
    requires n > 0 && RoundGives(v0, v1, sum, w0, w1, s)
    ensures
      Encrypt(Xxtea(SAMPLE_KEY), Block(v0, v1), sum, n) == Encrypt(Xxtea(SAMPLE_KEY), Block(w0, w1), s, n - 1)
  {
    hide Mix;
    hide Add;
    hide KeyIndex;
    hide SampleWord;
    Selected(s);
  }

  lemma Rounds1To8()
    ensures RoundGives(0x01020304, 0xFEFDFCFB, 0x00000000, 0x0C34FB2F, 0x1E329824, 0x9E3779B9)
    ensures RoundGives(0x0C34FB2F, 0x1E329824, 0x9E3779B9, 0x837DF756, 0x0750D16C, 0x3C6EF372)
    ensures RoundGives(0x837DF756, 0x0750D16C, 0x3C6EF372, 0x521FA70D, 0x02D7B3E4, 0xDAA66D2B)
    ensures RoundGives(0x521FA70D, 0x02D7B3E4, 0xDAA66D2B, 0x7CC58E06, 0xCA91DB4C, 0x78DDE6E4)
    ensures RoundGives(0x7CC58E06, 0xCA91DB4C, 0x78DDE6E4, 0x22D41CC2, 0xEDFF843F, 0x1715609D)
    ensures RoundGives(0x22D41CC2, 0xEDFF843F, 0x1715609D, 0xC54CCB48, 0x06065B6C, 0xB54CDA56)
    ensures RoundGives(0xC54CCB48, 0x06065B6C, 0xB54CDA56, 0xA41AD941, 0x446C3731, 0x5384540F)
    ensures RoundGives(0xA41AD941, 0x446C3731, 0x5384540F, 0x374785CE, 0xAB7BE7BE, 0xF1BBCDC8)
  {
  }

  lemma Rounds9To16()
    ensures RoundGives(0x374785CE, 0xAB7BE7BE, 0xF1BBCDC8, 0xCDA4A0A7, 0x1A6C21A8, 0x8FF34781)
    ensures RoundGives(0xCDA4A0A7, 0x1A6C21A8, 0x8FF34781, 0x677332F3, 0x7B1D290B, 0x2E2AC13A)
    ensures RoundGives(0x677332F3, 0x7B1D290B, 0x2E2AC13A, 0xF6684491, 0x6BFCA7D6, 0xCC623AF3)
    ensures RoundGives(0xF6684491, 0x6BFCA7D6, 0xCC623AF3, 0x57F279CF, 0x2B8119BB, 0x6A99B4AC)
    ensures RoundGives(0x57F279CF, 0x2B8119BB, 0x6A99B4AC, 0x104BBD32, 0x7EC64CC1, 0x08D12E65)
    ensures RoundGives(0x104BBD32, 0x7EC64CC1, 0x08D12E65, 0xEE727A8A, 0xD88DA780, 0xA708A81E)
    ensures RoundGives(0xEE727A8A, 0xD88DA780, 0xA708A81E, 0x0746548B, 0x9F564266, 0x454021D7)
    ensures RoundGives(0x0746548B, 0x9F564266, 0x454021D7, 0x70F79C2E, 0x5EFB8FEE, 0xE3779B90)
  {
  }

  lemma Rounds17To24()
    ensures RoundGives(0x70F79C2E, 0x5EFB8FEE, 0xE3779B90, 0xC92EE693, 0xA86262EF, 0x81AF1549)
    ensures RoundGives(0xC92EE693, 0xA86262EF, 0x81AF1549, 0x0F5EC06F, 0x3F6EF809, 0x1FE68F02)
    ensures RoundGives(0x0F5EC06F, 0x3F6EF809, 0x1FE68F02, 0x3385EE09, 0x3D8FA671, 0xBE1E08BB)
    ensures RoundGives(0x3385EE09, 0x3D8FA671, 0xBE1E08BB, 0x11EFBD02, 0x6FF14201, 0x5C558274)
    ensures RoundGives(0x11EFBD02, 0x6FF14201, 0x5C558274, 0x7292D95D, 0xD36A7461, 0xFA8CFC2D)
    ensures RoundGives(0x7292D95D, 0xD36A7461, 0xFA8CFC2D, 0x556DA4DA, 0x7A00A8B8, 0x98C475E6)
    ensures RoundGives(0x556DA4DA, 0x7A00A8B8, 0x98C475E6, 0x37DBE4C7, 0x84752821, 0x36FBEF9F)
    ensures RoundGives(0x37DBE4C7, 0x84752821, 0x36FBEF9F, 0x5BC2301E, 0x3E1342AA, 0xD5336958)
  {
  }

  lemma Rounds25To32()
    ensures RoundGives(0x5BC2301E, 0x3E1342AA, 0xD5336958, 0xF4D5955D, 0x1C4738B8, 0x736AE311)
    ensures RoundGives(0xF4D5955D, 0x1C4738B8, 0x736AE311, 0x400E5E9F, 0x7F872501, 0x11A25CCA)
    ensures RoundGives(0x400E5E9F, 0x7F872501, 0x11A25CCA, 0x0B7F65C6, 0x51DB3EDC, 0xAFD9D683)
    ensures RoundGives(0x0B7F65C6, 0x51DB3EDC, 0xAFD9D683, 0x858424D5, 0xE57816D2, 0x4E11503C)
    ensures RoundGives(0x858424D5, 0xE57816D2, 0x4E11503C, 0xDAE52F28, 0xC2A6A3E5, 0xEC48C9F5)
    ensures RoundGives(0xDAE52F28, 0xC2A6A3E5, 0xEC48C9F5, 0xBEB0EE1D, 0xC8FB36B0, 0x8A8043AE)
    ensures RoundGives(0xBEB0EE1D, 0xC8FB36B0, 0x8A8043AE, 0x4E138E13, 0xAAF075A1, 0x28B7BD67)
    ensures RoundGives(0x4E138E13, 0xAAF075A1, 0x28B7BD67, 0x9A205DAA, 0xEB84077D, 0xC6EF3720)
  {
  }

  lemma After8()
    ensures Encrypt(Xxtea(SAMPLE_KEY), Block(0x01020304, 0xFEFDFCFB), 0x00000000, 32) ==
            Encrypt(Xxtea(SAMPLE_KEY), Block(0x374785CE, 0xAB7BE7BE), 0xF1BBCDC8, 24)
  {
    hide RoundGives;
    hide Xxtea;
    hide Encrypt;
    Rounds1To8();
    OneRound(0x01020304, 0xFEFDFCFB, 0x00000000, 0x0C34FB2F, 0x1E329824, 0x9E3779B9, 32);
    OneRound(0x0C34FB2F, 0x1E329824, 0x9E3779B9, 0x837DF756, 0x0750D16C, 0x3C6EF372, 31);
    OneRound(0x837DF756, 0x0750D16C, 0x3C6EF372, 0x521FA70D, 0x02D7B3E4, 0xDAA66D2B, 30);
    OneRound(0x521FA70D, 0x02D7B3E4, 0xDAA66D2B, 0x7CC58E06, 0xCA91DB4C, 0x78DDE6E4, 29);
    OneRound(0x7CC58E06, 0xCA91DB4C, 0x78DDE6E4, 0x22D41CC2, 0xEDFF843F, 0x1715609D, 28);
    OneRound(0x22D41CC2, 0xEDFF843F, 0x1715609D, 0xC54CCB48, 0x06065B6C, 0xB54CDA56, 27);
    OneRound(0xC54CCB48, 0x06065B6C, 0xB54CDA56, 0xA41AD941, 0x446C3731, 0x5384540F, 26);
    OneRound(0xA41AD941, 0x446C3731, 0x5384540F, 0x374785CE, 0xAB7BE7BE, 0xF1BBCDC8, 25);
  }

  lemma After16()
    ensures Encrypt(Xxtea(SAMPLE_KEY), Block(0x374785CE, 0xAB7BE7BE), 0xF1BBCDC8, 24) ==
            Encrypt(Xxtea(SAMPLE_KEY), Block(0x70F79C2E, 0x5EFB8FEE), 0xE3779B90, 16)
  {
    hide RoundGives;
    hide Xxtea;
    hide Encrypt;
    Rounds9To16();
    OneRound(0x374785CE, 0xAB7BE7BE, 0xF1BBCDC8, 0xCDA4A0A7, 0x1A6C21A8, 0x8FF34781, 24);
    OneRound(0xCDA4A0A7, 0x1A6C21A8, 0x8FF34781, 0x677332F3, 0x7B1D290B, 0x2E2AC13A, 23);
    OneRound(0x677332F3, 0x7B1D290B, 0x2E2AC13A, 0xF6684491, 0x6BFCA7D6, 0xCC623AF3, 22);
    OneRound(0xF6684491, 0x6BFCA7D6, 0xCC623AF3, 0x57F279CF, 0x2B8119BB, 0x6A99B4AC, 21);
    OneRound(0x57F279CF, 0x2B8119BB, 0x6A99B4AC, 0x104BBD32, 0x7EC64CC1, 0x08D12E65, 20);
    OneRound(0x104BBD32, 0x7EC64CC1, 0x08D12E65, 0xEE727A8A, 0xD88DA780, 0xA708A81E, 19);
    OneRound(0xEE727A8A, 0xD88DA780, 0xA708A81E, 0x0746548B, 0x9F564266, 0x454021D7, 18);
    OneRound(0x0746548B, 0x9F564266, 0x454021D7, 0x70F79C2E, 0x5EFB8FEE, 0xE3779B90, 17);
  }

  lemma After24()
    ensures Encrypt(Xxtea(SAMPLE_KEY), Block(0x70F79C2E, 0x5EFB8FEE), 0xE3779B90, 16) ==
            Encrypt(Xxtea(SAMPLE_KEY), Block(0x5BC2301E, 0x3E1342AA), 0xD5336958, 8)
  {
    hide RoundGives;
    hide Xxtea;
    hide Encrypt;
    Rounds17To24();
    OneRound(0x70F79C2E, 0x5EFB8FEE, 0xE3779B90, 0xC92EE693, 0xA86262EF, 0x81AF1549, 16);
    OneRound(0xC92EE693, 0xA86262EF, 0x81AF1549, 0x0F5EC06F, 0x3F6EF809, 0x1FE68F02, 15);
    OneRound(0x0F5EC06F, 0x3F6EF809, 0x1FE68F02, 0x3385EE09, 0x3D8FA671, 0xBE1E08BB, 14);
    OneRound(0x3385EE09, 0x3D8FA671, 0xBE1E08BB, 0x11EFBD02, 0x6FF14201, 0x5C558274, 13);
    OneRound(0x11EFBD02, 0x6FF14201, 0x5C558274, 0x7292D95D, 0xD36A7461, 0xFA8CFC2D, 12);
    OneRound(0x7292D95D, 0xD36A7461, 0xFA8CFC2D, 0x556DA4DA, 0x7A00A8B8, 0x98C475E6, 11);
    OneRound(0x556DA4DA, 0x7A00A8B8, 0x98C475E6, 0x37DBE4C7, 0x84752821, 0x36FBEF9F, 10);
    OneRound(0x37DBE4C7, 0x84752821, 0x36FBEF9F, 0x5BC2301E, 0x3E1342AA, 0xD5336958, 9);
  }

  lemma After32()
    ensures Encrypt(Xxtea(SAMPLE_KEY), Block(0x5BC2301E, 0x3E1342AA), 0xD5336958, 8) ==
            Encrypt(Xxtea(SAMPLE_KEY), Block(0x9A205DAA, 0xEB84077D), 0xC6EF3720, 0)
  {
    hide RoundGives;
    hide Xxtea;
    hide Encrypt;
    Rounds25To32();
    OneRound(0x5BC2301E, 0x3E1342AA, 0xD5336958, 0xF4D5955D, 0x1C4738B8, 0x736AE311, 8);
    OneRound(0xF4D5955D, 0x1C4738B8, 0x736AE311, 0x400E5E9F, 0x7F872501, 0x11A25CCA, 7);
    OneRound(0x400E5E9F, 0x7F872501, 0x11A25CCA, 0x0B7F65C6, 0x51DB3EDC, 0xAFD9D683, 6);
    OneRound(0x0B7F65C6, 0x51DB3EDC, 0xAFD9D683, 0x858424D5, 0xE57816D2, 0x4E11503C, 5);
    OneRound(0x858424D5, 0xE57816D2, 0x4E11503C, 0xDAE52F28, 0xC2A6A3E5, 0xEC48C9F5, 4);
    OneRound(0xDAE52F28, 0xC2A6A3E5, 0xEC48C9F5, 0xBEB0EE1D, 0xC8FB36B0, 0x8A8043AE, 3);
    OneRound(0xBEB0EE1D, 0xC8FB36B0, 0x8A8043AE, 0x4E138E13, 0xAAF075A1, 0x28B7BD67, 2);
    OneRound(0x4E138E13, 0xAAF075A1, 0x28B7BD67, 0x9A205DAA, 0xEB84077D, 0xC6EF3720, 1);
  }

  /** The 32 rounds of XXTEA for two words. */
  lemma KnownBlock()
    ensures Encrypt(Xxtea(SAMPLE_KEY), Block(0x01020304, 0xFEFDFCFB), 0, 32) == Block(0x9A205DAA, 0xEB84077D)
  {
    hide Xxtea;
    After8();
    After16();
    After24();
    After32();
    assert Encrypt(Xxtea(SAMPLE_KEY), Block(0x9A205DAA, 0xEB84077D), 0xC6EF3720, 0) == Block(0x9A205DAA, 0xEB84077D);
    hide Encrypt;
  }

  /** A known answer: the keystream for one key and one counter value. */
  lemma KnownKeystream()
    ensures CtrKeystream(SAMPLE_KEY)(0x01020304) == [0x9A, 0x20, 0x5D, 0xAA, 0xEB, 0x84, 0x07, 0x7D]
  {
    hide Encrypt;
    hide Xxtea;
    KnownBlock();
  }

  lemma KnownLoads()
    ensures Load([0x12, 0x34, 0x56, 0x78]) == 0x12345678
    ensures Load([0x9A, 0x12, 0x34, 0x56]) == 0x9A123456
    ensures Load([0x78, 0x9A, 0x12, 0x34]) == 0x789A1234
    ensures Load([0x56, 0x78, 0x9A, 0x12]) == 0x56789A12
  {
  }

  lemma KnownKey()
    ensures DeriveKey(SAMPLE_ADDR) == SAMPLE_KEY
  {
    KnownLoads();
    hide Load;
    var key := DeriveKey(SAMPLE_ADDR);
    assert key[0] == 0x12345678;
    assert key[1] == 0x9A123456;
    assert key[2] == 0x789A1234;
    assert key[3] == 0x56789A12;
  }

  lemma KnownXors()
    ensures Xor(0x0F, 0x9A) == 0x95 && Xor(0x00, 0x20) == 0x20
  {
    hide XorNat;
    XorStep(0x0F, 0x9A);
    XorStep(0x07, 0x4D);
    XorStep(0x03, 0x26);
    XorStep(0x01, 0x13);
    XorZero(0x09);
    XorZero(0x20);
  }

  /** The same from the address: the frame that a message is sealed in under the key derived from it. */
  lemma KnownFrame()
    ensures SealFrame(CtrKeystream(DeriveKey(SAMPLE_ADDR)), 0x01020304, [0x0F, 0x00]) == [0x04, 0x95, 0x20]
  {
    hide CtrKeystream;
    hide DeriveKey;
    hide Xor;
    KnownKey();
    KnownKeystream();
    KnownXors();
    var plain: Bytes := [0x0F, 0x00];
    var ks := CtrKeystream(SAMPLE_KEY);
    assert XorStream(ks, plain, 0x01020304) == XorBlock(plain, ks(0x01020304));
  }
}
