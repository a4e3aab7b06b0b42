/** Packet vector 1 of section 8 of RFC 3610, value by value. */
module CcmVector {
  import opened Gf256
  import opened Aes
  import opened Ccm

  const NONCE: Bytes := [0x00, 0x00, 0x00, 0x03, 0x02, 0x01, 0x00, 0xa0, 0xa1, 0xa2, 0xa3, 0xa4, 0xa5]
  const HEADER: Bytes := [0x00, 0x01, 0x02, 0x03, 0x04, 0x05, 0x06, 0x07]
  const PAYLOAD: Bytes :=
    [0x08, 0x09, 0x0a, 0x0b, 0x0c, 0x0d, 0x0e, 0x0f, 0x10, 0x11, 0x12, 0x13, 0x14, 0x15, 0x16, 0x17,
     0x18, 0x19, 0x1a, 0x1b, 0x1c, 0x1d, 0x1e]

  // What the block cipher is given, and what it gives: B_0 and the chained blocks, then A_0, A_1 and A_2.

  const IN0: Block := [0x59] + NONCE + [0x00, 0x17]
  const OUT0: Block :=
    [0xeb, 0x9d, 0x55, 0x47, 0x73, 0x09, 0x55, 0xab, 0x23, 0x1e, 0x0a, 0x2d, 0xfe, 0x4b, 0x90, 0xd6]
  const IN1: Block :=
    [0xeb, 0x95, 0x55, 0x46, 0x71, 0x0a, 0x51, 0xae, 0x25, 0x19, 0x0a, 0x2d, 0xfe, 0x4b, 0x90, 0xd6]
  const OUT1: Block :=
    [0xcd, 0xb6, 0x41, 0x1e, 0x3c, 0xdc, 0x9b, 0x4f, 0x5d, 0x92, 0x58, 0xb6, 0x9e, 0xe7, 0xf0, 0x91]
  const IN2: Block :=
    [0xc5, 0xbf, 0x4b, 0x15, 0x30, 0xd1, 0x95, 0x40, 0x4d, 0x83, 0x4a, 0xa5, 0x8a, 0xf2, 0xe6, 0x86]
  const OUT2: Block :=
    [0x9c, 0x38, 0x40, 0x5e, 0xa0, 0x3c, 0x1b, 0xc9, 0x04, 0xb5, 0x8b, 0x40, 0xc7, 0x6c, 0xa2, 0xeb]
  const IN3: Block :=
    [0x84, 0x21, 0x5a, 0x45, 0xbc, 0x21, 0x05, 0xc9, 0x04, 0xb5, 0x8b, 0x40, 0xc7, 0x6c, 0xa2, 0xeb]
  const OUT3: Block :=
    [0x2d, 0xc6, 0x97, 0xe4, 0x11, 0xca, 0x83, 0xa8, 0x60, 0xc2, 0xc4, 0x06, 0xcc, 0xaa, 0x54, 0x2f]
  const A0: Block := [0x01] + NONCE + [0x00, 0x00]
  const S0: Block :=
    [0x3a, 0x2e, 0x46, 0xc8, 0xec, 0x33, 0xa5, 0x48, 0x56, 0x20, 0x54, 0x2c, 0x02, 0x2c, 0xc0, 0x7d]
  const A1: Block := [0x01] + NONCE + [0x00, 0x01]
  const S1: Block :=
    [0x50, 0x85, 0x9d, 0x91, 0x6d, 0xcb, 0x6d, 0xdd, 0xe0, 0x77, 0xc2, 0xd1, 0xd4, 0xec, 0x9f, 0x97]
  const A2: Block := [0x01] + NONCE + [0x00, 0x02]
  const S2: Block :=
    [0x75, 0x46, 0x71, 0x7a, 0xc6, 0xde, 0x9a, 0xff, 0x64, 0x0c, 0x9c, 0x06, 0xde, 0x6d, 0x0d, 0x8f]

  // The blocks that are chained.

  const B1: Block :=
    [0x00, 0x08, 0x00, 0x01, 0x02, 0x03, 0x04, 0x05, 0x06, 0x07, 0x00, 0x00, 0x00, 0x00, 0x00, 0x00]
  const B2: Block := PAYLOAD[..16]
  const B3: Block := PAYLOAD[16..] + [0, 0, 0, 0, 0, 0, 0, 0, 0]

  const CIPHERTEXT: Bytes :=
    [0x58, 0x8c, 0x97, 0x9a, 0x61, 0xc6, 0x63, 0xd2, 0xf0, 0x66, 0xd0, 0xc2, 0xc0, 0xf9, 0x89, 0x80,
     0x6d, 0x5f, 0x6b, 0x61, 0xda, 0xc3, 0x84]
  const TAG: Bytes := [0x17, 0xe8, 0xd1, 0x2c, 0xfd, 0xf9, 0x26, 0xe0]

  lemma Small(n: nat)
    requires n < 256
    ensures BigEndian(n, 2) == [0x00, n as bv8]
  {
    hide BigEndian, Octet;
    assert n / 256 == 0 && n % 256 == n;
    BigEndianStep(n, 2);
    BigEndianStep(0, 1);
  }

  lemma Counter(n: nat)
    requires n < 256
    ensures CounterBlock(NONCE, n) == [0x01] + NONCE + [0x00, n as bv8]
  {
    hide BigEndian;
    Small(n);
  }

  lemma FirstFormat()
    ensures FirstBlock(NONCE, true, 8, 23) == IN0
  {
    hide BigEndian;
    Small(23);
    var flags := 64 + 8 * ((8 - 2) / 2) + (15 - |NONCE| - 1);
    assert flags == 89 && flags as bv8 == 0x59;
  }

  lemma HeaderBlocks()
    ensures Blocks(EncodeAad(HEADER)) == [B1]
  {
    Small(8);
    hide BigEndian;
    assert EncodeAad(HEADER) == [0x00, 0x08] + HEADER;
    assert PadBlock(EncodeAad(HEADER), 0) == B1;
  }

  lemma PayloadBlocks()
    ensures Blocks(PAYLOAD) == [B2, B3]
  {
    assert PadBlock(PAYLOAD, 0) == B2 && PadBlock(PAYLOAD, 16) == B3;
  }

  lemma Chained()
    ensures Xor(OUT0, B1) == IN1 && Xor(OUT1, B2) == IN2 && Xor(OUT2, B3) == IN3
  {
    XorListed(OUT0, B1);
    XorListed(OUT1, B2);
    XorListed(OUT2, B3);
    hide Xor;
  }

  /** With a block cipher that gives the vector's values, encryption gives the vector's packet. */
  lemma PacketVectorOne(e: BlockFunction)
    requires e(IN0) == OUT0 && e(IN1) == OUT1 && e(IN2) == OUT2 && e(IN3) == OUT3
    requires e(A0) == S0 && e(A1) == S1 && e(A2) == S2
    ensures Encrypt(e, NONCE, HEADER, PAYLOAD, 8) == Sealed(CIPHERTEXT, TAG)
  {
    CipherText(e);
    Tag(e);
  }

  lemma CipherText(e: BlockFunction)
    requires e(A1) == S1 && e(A2) == S2
    ensures Ctr(e, NONCE, PAYLOAD) == CIPHERTEXT
  {
    hide CounterBlock, Ctr, Xor;
    Counter(1);
    Counter(2);
    Halves();
    StreamHalves(e, PAYLOAD);
    var c := Ctr(e, NONCE, PAYLOAD);
    assert c == c[..16] + c[16..] && CIPHERTEXT == CIPHERTEXT[..16] + CIPHERTEXT[16..];
  }

  lemma StreamHalves(e: BlockFunction, p: Bytes)
    requires |p| == 23
    ensures var c, k1, k2 := Ctr(e, NONCE, p), e(CounterBlock(NONCE, 1)), e(CounterBlock(NONCE, 2));
      c[..16] == Xor(p[..16], k1) && c[16..] == Xor(p[16..] + [0, 0, 0, 0, 0, 0, 0, 0, 0], k2)[..7]
  {
    hide CounterBlock, Add;
  }

  lemma Halves()
    ensures Xor(B2, S1) == CIPHERTEXT[..16] && Xor(B3, S2)[..7] == CIPHERTEXT[16..]
  {
    XorListed(B2, S1);
    XorListed(B3, S2);
    hide Xor;
  }

  lemma Tag(e: BlockFunction)
    requires e(IN0) == OUT0 && e(IN1) == OUT1 && e(IN2) == OUT2 && e(IN3) == OUT3 && e(A0) == S0
    ensures MaskedTag(e, NONCE, EncodeAad(HEADER), PAYLOAD, 8) == TAG
  {
    FirstFormat();
    Counter(0);
    HeaderBlocks();
    PayloadBlocks();
    Chained();
    hide CounterBlock, FirstBlock, EncodeAad, Blocks, Xor;
    CbcMacNone(e, OUT0);
    CbcMacAppend(e, OUT0, [], B1);
    CbcMacAppend(e, OUT0, [B1], B2);
    CbcMacAppend(e, OUT0, [B1, B2], B3);
    assert [] + [B1] == [B1] && [B1] + [B2] == [B1, B2] && [B1, B2] + [B3] == [B1] + [B2, B3];
    assert CbcMac(e, OUT0, [B1] + [B2, B3]) == OUT3;
  }
}
