/** The byte arithmetic of AES: GF(2^8), the substitution box and one column of MixColumns (FIPS 197). */
module Gf256 {

  // ---- Bytes as elements of GF(2^8), FIPS 197 section 4 ----

  /** Multiplication by {02}. */
  function Xtime(x: bv8): bv8 { (x << 1) ^ (if x & 0x80 != 0 then 0x1b else 0x00) }

  /** Multiplication: the sum of the `{02}`-multiples of `a` selected by the bits of `b`. */
  function Mul(a: bv8, b: bv8): bv8 {
    var a1 := Xtime(a);
    var a2 := Xtime(a1);
    var a3 := Xtime(a2);
    var a4 := Xtime(a3);
    var a5 := Xtime(a4);
    var a6 := Xtime(a5);
    var a7 := Xtime(a6);
    (if b & 0x01 != 0 then a else 0) ^ (if b & 0x02 != 0 then a1 else 0) ^
    (if b & 0x04 != 0 then a2 else 0) ^ (if b & 0x08 != 0 then a3 else 0) ^
    (if b & 0x10 != 0 then a4 else 0) ^ (if b & 0x20 != 0 then a5 else 0) ^
    (if b & 0x40 != 0 then a6 else 0) ^ (if b & 0x80 != 0 then a7 else 0)
  }

  /** Addition. Named so that proofs about sums need not look inside it. */
  function Add(a: bv8, b: bv8): bv8 { a ^ b }

  function Sum(a: bv8, b: bv8, c: bv8, d: bv8): bv8 { Add(Add(a, b), Add(c, d)) }

  /** The constant factors of MixColumns and its inverse. */
  function Mul03(x: bv8): bv8 { Add(Xtime(x), x) }
  function Mul09(x: bv8): bv8 { Add(Xtime(Xtime(Xtime(x))), x) }
  function Mul0B(x: bv8): bv8 { Add(Mul09(x), Xtime(x)) }
  function Mul0D(x: bv8): bv8 { Add(Mul09(x), Xtime(Xtime(x))) }
  function Mul0E(x: bv8): bv8 { Add(Add(Xtime(Xtime(Xtime(x))), Xtime(Xtime(x))), Xtime(x)) }

  function Rotl(b: bv8, n: bv4): bv8
    requires n <= 8
  {
    (b << n) | (b >> (8 - n))
  }

  /** The affine map of FIPS 197 section 5.1.1 and its inverse. */
  function Affine(b: bv8): bv8 { b ^ Rotl(b, 1) ^ Rotl(b, 2) ^ Rotl(b, 3) ^ Rotl(b, 4) ^ 0x63 }

  function InvAffine(b: bv8): bv8 { Rotl(b, 1) ^ Rotl(b, 3) ^ Rotl(b, 6) ^ 0x05 }

  /** The substitution table, one 16-byte row per high nibble. */
  function SBox(x: bv8): bv8 {
    var row: bv128 :=
      match x >> 4
      case 0x0 => 0x637c777bf26b6fc53001672bfed7ab76
      case 0x1 => 0xca82c97dfa5947f0add4a2af9ca472c0
      case 0x2 => 0xb7fd9326363ff7cc34a5e5f171d83115
      case 0x3 => 0x04c723c31896059a071280e2eb27b275
      case 0x4 => 0x09832c1a1b6e5aa0523bd6b329e32f84
      case 0x5 => 0x53d100ed20fcb15b6acbbe394a4c58cf
      case 0x6 => 0xd0efaafb434d338545f9027f503c9fa8
      case 0x7 => 0x51a3408f929d38f5bcb6da2110fff3d2
      case 0x8 => 0xcd0c13ec5f974417c4a77e3d645d1973
      case 0x9 => 0x60814fdc222a908846eeb814de5e0bdb
      case 0xa => 0xe0323a0a4906245cc2d3ac629195e479
      case 0xb => 0xe7c8376d8dd54ea96c56f4ea657aae08
      case 0xc => 0xba78252e1ca6b4c6e8dd741f4bbd8b8a
      case 0xd => 0x703eb5664803f60e613557b986c11d9e
      case 0xe => 0xe1f8981169d98e949b1e87e9ce5528df
      case _ => 0x8ca1890dbfe6426841992d0fb054bb16
    ;
    ((row >> ((0x0f - (x & 0x0f)) << 3)) & 0xff) as bv8
  }

  /** Its inverse table. */
  function InvSBox(x: bv8): bv8 {
    var row: bv128 :=
      match x >> 4
      case 0x0 => 0x52096ad53036a538bf40a39e81f3d7fb
      case 0x1 => 0x7ce339829b2fff87348e4344c4dee9cb
      case 0x2 => 0x547b9432a6c2233dee4c950b42fac34e
      case 0x3 => 0x082ea16628d924b2765ba2496d8bd125
      case 0x4 => 0x72f8f66486689816d4a45ccc5d65b692
      case 0x5 => 0x6c704850fdedb9da5e154657a78d9d84
      case 0x6 => 0x90d8ab008cbcd30af7e45805b8b34506
      case 0x7 => 0xd02c1e8fca3f0f02c1afbd0301138a6b
      case 0x8 => 0x3a9111414f67dcea97f2cfcef0b4e673
      case 0x9 => 0x96ac7422e7ad3585e2f937e81c75df6e
      case 0xa => 0x47f11a711d29c5896fb7620eaa18be1b
      case 0xb => 0xfc563e4bc6d279209adbc0fe78cd5af4
      case 0xc => 0x1fdda8338807c731b11210592780ec5f
      case 0xd => 0x60517fa919b54a0d2de57a9f93c99cef
      case 0xe => 0xa0e03b4dae2af5b0c8ebbb3c83539961
      case _ => 0x172b047eba77d626e169146355210c7d
    ;
    ((row >> ((0x0f - (x & 0x0f)) << 3)) & 0xff) as bv8
  }

  lemma AffineInverse(b: bv8)
    ensures Affine(InvAffine(b)) == b
  {
  }

  /** The table is the standard's: the affine image of the multiplicative inverse (of zero, for zero). */
  lemma SBoxIsStandard(x: bv8)
    ensures exists b: bv8 :: SBox(x) == Affine(b) && (if x == 0 then b == 0 else Mul(x, b) == 1)
  {
    var b := InvAffine(SBox(x));
    AffineInverse(SBox(x));
    assert x != 0 ==> Mul(x, b) == 1;
  }

  lemma SBoxInverse(x: bv8)
    ensures InvSBox(SBox(x)) == x
  {
  }

  lemma InvSBoxInverse(x: bv8)
    ensures SBox(InvSBox(x)) == x
  {
  }

  // ---- One output byte of MixColumns and of its inverse ----

  function MixColumn(a: bv8, b: bv8, c: bv8, d: bv8): bv8 { Sum(Xtime(a), Mul03(b), c, d) }

  function InvMixColumn(a: bv8, b: bv8, c: bv8, d: bv8): bv8 {
    Sum(Mul0E(a), Mul0B(b), Mul0D(c), Mul09(d))
  }

  lemma XtimeAdd(a: bv8, b: bv8)
    ensures Xtime(Add(a, b)) == Add(Xtime(a), Xtime(b))
  {
    assert (a ^ b) << 1 == (a << 1) ^ (b << 1);
    if a & 0x80 != 0 {
      if b & 0x80 != 0 { assert (a ^ b) & 0x80 == 0; } else { assert (a ^ b) & 0x80 != 0; }
    } else {
      if b & 0x80 != 0 { assert (a ^ b) & 0x80 != 0; } else { assert (a ^ b) & 0x80 == 0; }
    }
  }

  /** The constant factors are the products their names say. */
  lemma ConstantFactors(x: bv8)
    ensures Mul(x, 0x02) == Xtime(x) && Mul(x, 0x03) == Mul03(x) && Mul(x, 0x09) == Mul09(x)
    ensures Mul(x, 0x0b) == Mul0B(x) && Mul(x, 0x0d) == Mul0D(x) && Mul(x, 0x0e) == Mul0E(x)
  {
  }

  lemma AddMiddle(a: bv8, b: bv8, c: bv8, d: bv8)
    ensures Add(Add(a, b), Add(c, d)) == Add(Add(a, c), Add(b, d))
  {
    assert (a ^ b) ^ (c ^ d) == (a ^ c) ^ (b ^ d);
  }

  lemma FactorsAdd(a: bv8, b: bv8)
    ensures Mul03(Add(a, b)) == Add(Mul03(a), Mul03(b)) && Mul09(Add(a, b)) == Add(Mul09(a), Mul09(b))
    ensures Mul0B(Add(a, b)) == Add(Mul0B(a), Mul0B(b)) && Mul0D(Add(a, b)) == Add(Mul0D(a), Mul0D(b))
    ensures Mul0E(Add(a, b)) == Add(Mul0E(a), Mul0E(b))
  {
    hide Xtime;
    hide Add;
    var a1, b1 := Xtime(a), Xtime(b);
    var a2, b2 := Xtime(a1), Xtime(b1);
    var a3, b3 := Xtime(a2), Xtime(b2);
    XtimeAdd(a, b);
    XtimeAdd(a1, b1);
    XtimeAdd(a2, b2);
    AddMiddle(a1, b1, a, b);
    AddMiddle(a3, b3, a, b);
    AddMiddle(Add(a3, a), Add(b3, b), a1, b1);
    AddMiddle(Add(a3, a), Add(b3, b), a2, b2);
    AddMiddle(a3, b3, a2, b2);
    AddMiddle(Add(a3, a2), Add(b3, b2), a1, b1);
  }

  lemma SumsAdd(a: bv8, b: bv8, c: bv8, d: bv8)
    ensures Mul09(Sum(a, b, c, d)) == Sum(Mul09(a), Mul09(b), Mul09(c), Mul09(d))
    ensures Mul0B(Sum(a, b, c, d)) == Sum(Mul0B(a), Mul0B(b), Mul0B(c), Mul0B(d))
    ensures Mul0D(Sum(a, b, c, d)) == Sum(Mul0D(a), Mul0D(b), Mul0D(c), Mul0D(d))
    ensures Mul0E(Sum(a, b, c, d)) == Sum(Mul0E(a), Mul0E(b), Mul0E(c), Mul0E(d))
    ensures Mul03(Sum(a, b, c, d)) == Sum(Mul03(a), Mul03(b), Mul03(c), Mul03(d))
    ensures Xtime(Sum(a, b, c, d)) == Sum(Xtime(a), Xtime(b), Xtime(c), Xtime(d))
  {
    hide Xtime;
    hide Add;
    hide Mul03;
    hide Mul09;
    hide Mul0B;
    hide Mul0D;
    hide Mul0E;
    FactorsAdd(Add(a, b), Add(c, d));
    FactorsAdd(a, b);
    FactorsAdd(c, d);
    XtimeAdd(Add(a, b), Add(c, d));
    XtimeAdd(a, b);
    XtimeAdd(c, d);
  }

  /** A 4x4 array of bytes adds up the same by rows and by columns. */
  lemma Transpose(a0: bv8, a1: bv8, a2: bv8, a3: bv8, b0: bv8, b1: bv8, b2: bv8, b3: bv8,
                  c0: bv8, c1: bv8, c2: bv8, c3: bv8, d0: bv8, d1: bv8, d2: bv8, d3: bv8)
    ensures Sum(Sum(a0, b0, c0, d0), Sum(a1, b1, c1, d1), Sum(a2, b2, c2, d2), Sum(a3, b3, c3, d3)) ==
            Sum(Sum(a0, a1, a2, a3), Sum(b0, b1, b2, b3), Sum(c0, c1, c2, c3), Sum(d0, d1, d2, d3))
  {
    hide Add;
    AddMiddle(Add(a0, b0), Add(c0, d0), Add(a1, b1), Add(c1, d1));
    AddMiddle(Add(a2, b2), Add(c2, d2), Add(a3, b3), Add(c3, d3));
    AddMiddle(a0, b0, a1, b1);
    AddMiddle(c0, d0, c1, d1);
    AddMiddle(a2, b2, a3, b3);
    AddMiddle(c2, d2, c3, d3);
    AddMiddle(Add(Add(a0, a1), Add(b0, b1)), Add(Add(c0, c1), Add(d0, d1)), Add(Add(a2, a3), Add(b2, b3)),
      Add(Add(c2, c3), Add(d2, d3)));
    AddMiddle(Add(a0, a1), Add(b0, b1), Add(a2, a3), Add(b2, b3));
    AddMiddle(Add(c0, c1), Add(d0, d1), Add(c2, c3), Add(d2, d3));
  }

  /** Row-by-column products of the two matrices: the unit and zeros, in both orders. */
  lemma MatrixProducts(x: bv8)
    ensures Sum(Mul0E(Xtime(x)), Mul0B(x), Mul0D(x), Mul09(Mul03(x))) == x
    ensures Sum(Mul0E(Mul03(x)), Mul0B(Xtime(x)), Mul0D(x), Mul09(x)) == 0
    ensures Sum(Mul0E(x), Mul0B(Mul03(x)), Mul0D(Xtime(x)), Mul09(x)) == 0
    ensures Sum(Mul0E(x), Mul0B(x), Mul0D(Mul03(x)), Mul09(Xtime(x))) == 0
  {
  }

  lemma ProductsMatrix(x: bv8)
    ensures Sum(Xtime(Mul0E(x)), Mul03(Mul09(x)), Mul0D(x), Mul0B(x)) == x
    ensures Sum(Xtime(Mul0B(x)), Mul03(Mul0E(x)), Mul09(x), Mul0D(x)) == 0
    ensures Sum(Xtime(Mul0D(x)), Mul03(Mul0B(x)), Mul0E(x), Mul09(x)) == 0
    ensures Sum(Xtime(Mul09(x)), Mul03(Mul0D(x)), Mul0B(x), Mul0E(x)) == 0
  {
  }

  lemma SumRotate(a: bv8, b: bv8, c: bv8, d: bv8)
    ensures Sum(a, b, c, d) == Sum(b, c, d, a)
  {
    assert (a ^ b) ^ (c ^ d) == (b ^ c) ^ (d ^ a);
  }

  lemma MixColumnInverse(a: bv8, b: bv8, c: bv8, d: bv8)
    ensures InvMixColumn(MixColumn(a, b, c, d), MixColumn(b, c, d, a), MixColumn(c, d, a, b),
      MixColumn(d, a, b, c)) == a
  {
    assert Sum(a, 0, 0, 0) == a;
    hide Xtime;
    hide Add;
    hide Sum;
    hide Mul03;
    hide Mul09;
    hide Mul0B;
    hide Mul0D;
    hide Mul0E;
    SumRotate(a, Xtime(b), Mul03(c), d);
    SumRotate(a, b, Xtime(c), Mul03(d));
    SumRotate(b, Xtime(c), Mul03(d), a);
    SumRotate(Xtime(d), Mul03(a), b, c);
    SumsAdd(Xtime(a), Mul03(b), c, d);
    SumsAdd(a, Xtime(b), Mul03(c), d);
    SumsAdd(a, b, Xtime(c), Mul03(d));
    SumsAdd(Mul03(a), b, c, Xtime(d));
    Transpose(Mul0E(Xtime(a)), Mul0B(a), Mul0D(a), Mul09(Mul03(a)), Mul0E(Mul03(b)), Mul0B(Xtime(b)),
              Mul0D(b), Mul09(b), Mul0E(c), Mul0B(Mul03(c)), Mul0D(Xtime(c)), Mul09(c),
              Mul0E(d), Mul0B(d), Mul0D(Mul03(d)), Mul09(Xtime(d)));
    MatrixProducts(a);
    MatrixProducts(b);
    MatrixProducts(c);
    MatrixProducts(d);
  }

  lemma InvMixColumnInverse(a: bv8, b: bv8, c: bv8, d: bv8)
    ensures MixColumn(InvMixColumn(a, b, c, d), InvMixColumn(b, c, d, a), InvMixColumn(c, d, a, b),
      InvMixColumn(d, a, b, c)) == a
  {
    assert Sum(a, 0, 0, 0) == a;
    hide Xtime;
    hide Add;
    hide Sum;
    hide Mul03;
    hide Mul09;
    hide Mul0B;
    hide Mul0D;
    hide Mul0E;
    SumRotate(Mul09(a), Mul0E(b), Mul0B(c), Mul0D(d));
    SumRotate(Mul0D(a), Mul09(b), Mul0E(c), Mul0B(d));
    SumRotate(Mul09(b), Mul0E(c), Mul0B(d), Mul0D(a));
    SumRotate(Mul0E(d), Mul0B(a), Mul0D(b), Mul09(c));
    SumsAdd(Mul0E(a), Mul0B(b), Mul0D(c), Mul09(d));
    SumsAdd(Mul09(a), Mul0E(b), Mul0B(c), Mul0D(d));
    Transpose(Xtime(Mul0E(a)), Mul03(Mul09(a)), Mul0D(a), Mul0B(a), Xtime(Mul0B(b)), Mul03(Mul0E(b)),
              Mul09(b), Mul0D(b), Xtime(Mul0D(c)), Mul03(Mul0B(c)), Mul0E(c), Mul09(c),
              Xtime(Mul09(d)), Mul03(Mul0D(d)), Mul0B(d), Mul0E(d));
    ProductsMatrix(a);
    ProductsMatrix(b);
    ProductsMatrix(c);
    ProductsMatrix(d);
  }

  lemma FactoredByte(a: bv8, b: bv8, c: bv8, d: bv8)
    ensures Add(a, Add(Sum(a, b, c, d), Xtime(Add(a, b)))) == MixColumn(a, b, c, d)
  {
    hide Xtime;
    XtimeAdd(a, b);
    FactoredXor(a, b, c, d, Xtime(a), Xtime(b));
  }

  lemma FactoredXor(a: bv8, b: bv8, c: bv8, d: bv8, x: bv8, y: bv8)
    ensures a ^ (((a ^ b) ^ (c ^ d)) ^ (x ^ y)) == (x ^ (y ^ b)) ^ (c ^ d)
  {
  }

  /** The code computes a column from its sum `h` and four doublings; this is MixColumns. */
  lemma FactoredColumn(a: bv8, b: bv8, c: bv8, d: bv8)
    ensures var h := Sum(a, b, c, d);
      && Add(a, Add(h, Xtime(Add(a, b)))) == MixColumn(a, b, c, d)
      && Add(b, Add(h, Xtime(Add(b, c)))) == MixColumn(b, c, d, a)
      && Add(c, Add(h, Xtime(Add(c, d)))) == MixColumn(c, d, a, b)
      && Add(d, Add(h, Xtime(Add(d, a)))) == MixColumn(d, a, b, c)
  {
    hide Add;
    hide Sum;
    hide Xtime;
    hide MixColumn;
    FactoredByte(a, b, c, d);
    FactoredByte(b, c, d, a);
    FactoredByte(c, d, a, b);
    FactoredByte(d, a, b, c);
    SumRotate(a, b, c, d);
    SumRotate(b, c, d, a);
    SumRotate(c, d, a, b);
  }
}
