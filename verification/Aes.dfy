/**
 * AES-128 as in FIPS 197: the forward cipher of components/ble_device_base/ble_aes_ccm.cpp, over byte arrays,
 * against the standard's cipher, key expansion and inverse cipher.
 */
module Aes {
  import opened Gf256

  type Block = b: seq<bv8> | |b| == 16 witness seq(16, _ => 0)

  // ---- The standard's transformations (sections 5.1 and 5.3); byte r + 4c is row r of column c ----

  function SubBytes(s: Block): Block { seq(16, i requires 0 <= i < 16 => SBox(s[i])) }

  /** Row `r` rotates left by `r` columns. */
  function ShiftRows(s: Block): Block {
    [s[0], s[5], s[10], s[15], s[4], s[9], s[14], s[3],
     s[8], s[13], s[2], s[7], s[12], s[1], s[6], s[11]]
  }

  function MixedColumn(s: Block, c: nat): (r: seq<bv8>)
    requires c <= 12
    ensures |r| == 4
  {
    [MixColumn(s[c], s[c + 1], s[c + 2], s[c + 3]), MixColumn(s[c + 1], s[c + 2], s[c + 3], s[c]),
     MixColumn(s[c + 2], s[c + 3], s[c], s[c + 1]), MixColumn(s[c + 3], s[c], s[c + 1], s[c + 2])]
  }

  function MixColumns(s: Block): Block {
    MixedColumn(s, 0) + MixedColumn(s, 4) + MixedColumn(s, 8) + MixedColumn(s, 12)
  }

  function Xor(s: Block, k: Block): Block { seq(16, i requires 0 <= i < 16 => Add(s[i], k[i])) }

  function InvSubBytes(s: Block): Block { seq(16, i requires 0 <= i < 16 => InvSBox(s[i])) }

  function InvShiftRows(s: Block): Block {
    [s[0], s[13], s[10], s[7], s[4], s[1], s[14], s[11],
     s[8], s[5], s[2], s[15], s[12], s[9], s[6], s[3]]
  }

  function InvMixedColumn(s: Block, c: nat): (r: seq<bv8>)
    requires c <= 12
    ensures |r| == 4
  {
    [InvMixColumn(s[c], s[c + 1], s[c + 2], s[c + 3]), InvMixColumn(s[c + 1], s[c + 2], s[c + 3], s[c]),
     InvMixColumn(s[c + 2], s[c + 3], s[c], s[c + 1]), InvMixColumn(s[c + 3], s[c], s[c + 1], s[c + 2])]
  }

  function InvMixColumns(s: Block): Block {
    InvMixedColumn(s, 0) + InvMixedColumn(s, 4) + InvMixedColumn(s, 8) + InvMixedColumn(s, 12)
  }

  // ---- Key expansion (section 5.2): word i of the schedule, and round key r as a block ----

  function Rcon(i: nat): bv8
    requires 1 <= i <= 10
  {
    [0x01, 0x02, 0x04, 0x08, 0x10, 0x20, 0x40, 0x80, 0x1b, 0x36][i - 1]
  }

  function AddWord(a: seq<bv8>, b: seq<bv8>): (w: seq<bv8>)
    requires |a| == |b| == 4
    ensures |w| == 4
  {
    [Add(a[0], b[0]), Add(a[1], b[1]), Add(a[2], b[2]), Add(a[3], b[3])]
  }

  /** Every fourth word is rotated, substituted and given a round constant before it is added. */
  function RotatedWord(t: seq<bv8>, i: nat): (r: seq<bv8>)
    requires |t| == 4 && 4 <= i < 44
    ensures |r| == 4
  {
    if i % 4 == 0 then [Add(SBox(t[1]), Rcon(i / 4)), SBox(t[2]), SBox(t[3]), SBox(t[0])] else t
  }

  function KeyWord(key: Block, i: nat): (w: seq<bv8>)
    requires i < 44
    ensures |w| == 4
    decreases i, key
  {
    if i < 4 then key[4 * i..4 * i + 4]
    else
      AddWord(KeyWord(key, i - 4), RotatedWord(KeyWord(key, i - 1), i))
  }

  /** The first `n` words of the schedule, as bytes. */
  function Schedule(key: Block, n: nat): (r: seq<bv8>)
    requires n <= 44
    ensures |r| == 4 * n
    decreases n, key
  {
    if n == 0 then [] else Schedule(key, n - 1) + KeyWord(key, n - 1)
  }

  function RoundKey(key: Block, r: nat): Block
    requires r <= 10
  {
    Schedule(key, 44)[16 * r..16 * r + 16]
  }

  lemma {:induction false} ScheduleWord(key: Block, n: nat, w: nat)
    requires w < n <= 44
    ensures Schedule(key, n)[4 * w..4 * w + 4] == KeyWord(key, w)
    decreases n
  {
    if w < n - 1 {
      ScheduleWord(key, n - 1, w);
      assert Schedule(key, n)[..4 * n - 4] == Schedule(key, n - 1);
      assert Schedule(key, n)[4 * w..4 * w + 4] == Schedule(key, n)[..4 * n - 4][4 * w..4 * w + 4];
    }
  }

  // ---- The cipher (section 5.1) and the inverse cipher (section 5.3) ----

  function Rounds(key: Block, s: Block, n: nat): Block
    requires n <= 9
    decreases n, key
  {
    if n == 0 then Xor(s, RoundKey(key, 0))
    else Xor(MixColumns(ShiftRows(SubBytes(Rounds(key, s, n - 1)))), RoundKey(key, n))
  }

  function Cipher(key: Block, s: Block): Block {
    Xor(ShiftRows(SubBytes(Rounds(key, s, 9))), RoundKey(key, 10))
  }

  function InvRounds(key: Block, s: Block, n: nat): Block
    requires n <= 9
    decreases n, key
  {
    if n == 0 then Xor(s, RoundKey(key, 0))
    else InvRounds(key, InvSubBytes(InvShiftRows(InvMixColumns(Xor(s, RoundKey(key, n))))), n - 1)
  }

  function InvCipher(key: Block, s: Block): Block {
    InvRounds(key, InvSubBytes(InvShiftRows(Xor(s, RoundKey(key, 10)))), 9)
  }

  lemma FirstWords(key: Block)
    ensures Schedule(key, 4) == key
  {
    assert Schedule(key, 3) == Schedule(key, 2) + key[8..12] && Schedule(key, 2) == Schedule(key, 1) + key[4..8];
    assert Schedule(key, 1) == Schedule(key, 0) + key[0..4];
    assert key == key[0..4] + key[4..8] + key[8..12] + key[12..16];
  }

  lemma KeyWordStep(key: Block, w: nat, t: seq<bv8>)
    requires 4 <= w < 44
    requires t == RotatedWord(KeyWord(key, w - 1), w)
    ensures KeyWord(key, w) == AddWord(KeyWord(key, w - 4), t)
  {
    hide RotatedWord, AddWord;
  }

  // ---- The same, as the standard words it ----

  /** Section 5.2: the round constants are the powers of {02}. */
  lemma RconPowers(i: nat)
    requires 1 <= i <= 10
    ensures Rcon(i) == if i == 1 then 1 else Xtime(Rcon(i - 1))
  {
  }

  /** Section 5.1.2: row `r` is shifted to the left by `r` places. */
  lemma ShiftRowsByRow(s: Block, r: nat, c: nat)
    requires r < 4 && c < 4
    ensures ShiftRows(s)[r + 4 * c] == s[r + 4 * ((c + r) % 4)]
  {
  }

  /** Section 5.1.3: each column is multiplied by the matrix of {02}, {03}, {01}, {01}, row by row rotated. */
  lemma MixColumnsByMatrix(s: Block, r: nat, c: nat)
    requires r < 4 && c < 4
    ensures MixColumns(s)[r + 4 * c] ==
      Sum(Mul(s[r + 4 * c], 0x02), Mul(s[(r + 1) % 4 + 4 * c], 0x03), s[(r + 2) % 4 + 4 * c], s[(r + 3) % 4 + 4 * c])
  {
    hide Mul, Xtime, Mul03, Sum, MixColumns, MixedColumn;
    ConstantFactors(s[r + 4 * c]);
    ConstantFactors(s[(r + 1) % 4 + 4 * c]);
    ColumnByMatrix(s, 4 * c, r);
    ByteOfColumn(s, r, c);
  }

  lemma ByteOfColumn(s: Block, r: nat, c: nat)
    requires r < 4 && c < 4
    ensures MixColumns(s)[r + 4 * c] == MixedColumn(s, 4 * c)[r]
  {
    MixColumnsListed(s);
    hide MixColumns, MixedColumn;
    assert (c == 0 || c == 1 || c == 2 || c == 3) && (r == 0 || r == 1 || r == 2 || r == 3);
  }

  lemma ColumnByMatrix(s: Block, c: nat, r: nat)
    requires c <= 12 && r < 4
    ensures MixedColumn(s, c)[r] == MixColumn(s[c + r], s[c + (r + 1) % 4], s[c + (r + 2) % 4], s[c + (r + 3) % 4])
  {
    hide MixColumn;
  }

  lemma SubBytesListed(s: Block)
    ensures SubBytes(s) ==
      [SBox(s[0]), SBox(s[1]), SBox(s[2]), SBox(s[3]), SBox(s[4]), SBox(s[5]), SBox(s[6]), SBox(s[7]),
       SBox(s[8]), SBox(s[9]), SBox(s[10]), SBox(s[11]), SBox(s[12]), SBox(s[13]), SBox(s[14]), SBox(s[15])]
  {
    hide SBox;
  }

  lemma XorListed(s: Block, k: Block)
    ensures Xor(s, k) ==
      [Add(s[0], k[0]), Add(s[1], k[1]), Add(s[2], k[2]), Add(s[3], k[3]),
       Add(s[4], k[4]), Add(s[5], k[5]), Add(s[6], k[6]), Add(s[7], k[7]),
       Add(s[8], k[8]), Add(s[9], k[9]), Add(s[10], k[10]), Add(s[11], k[11]),
       Add(s[12], k[12]), Add(s[13], k[13]), Add(s[14], k[14]), Add(s[15], k[15])]
  {
    hide Add;
  }

  lemma MixColumnsListed(s: Block)
    ensures var m := MixColumns(s);
      var a, b, c, d := MixedColumn(s, 0), MixedColumn(s, 4), MixedColumn(s, 8), MixedColumn(s, 12);
      m == [a[0], a[1], a[2], a[3], b[0], b[1], b[2], b[3], c[0], c[1], c[2], c[3], d[0], d[1], d[2], d[3]]
  {
    hide MixedColumn;
  }

  /** The next round key: the last word rotated, substituted and given a constant, then summed up word by word. */
  function NextRoundKey(k: Block, rcon: bv8): Block {
    var w0 := AddWord(k[0..4], [Add(SBox(k[13]), rcon), SBox(k[14]), SBox(k[15]), SBox(k[12])]);
    var w1 := AddWord(k[4..8], w0);
    var w2 := AddWord(k[8..12], w1);
    w0 + w1 + w2 + AddWord(k[12..16], w2)
  }

  lemma RoundKeyWords(key: Block, r: nat)
    requires r <= 10
    ensures RoundKey(key, r) ==
      KeyWord(key, 4 * r) + KeyWord(key, 4 * r + 1) + KeyWord(key, 4 * r + 2) + KeyWord(key, 4 * r + 3)
  {
    hide KeyWord, Schedule;
    var s, i := Schedule(key, 44), 16 * r;
    WordAt(key, 4 * r);
    WordAt(key, 4 * r + 1);
    WordAt(key, 4 * r + 2);
    WordAt(key, 4 * r + 3);
    assert s[i..i + 16] == s[i..i + 4] + s[i + 4..i + 8] + s[i + 8..i + 12] + s[i + 12..i + 16];
  }

  lemma WordAt(key: Block, w: nat)
    requires w < 44
    ensures Schedule(key, 44)[4 * w..4 * w + 4] == KeyWord(key, w)
  {
    hide Schedule, KeyWord;
    ScheduleWord(key, 44, w);
  }

  lemma FirstRoundKey(key: Block)
    ensures RoundKey(key, 0) == key
  {
    RoundKeyWords(key, 0);
    assert key == key[0..4] + key[4..8] + key[8..12] + key[12..16];
  }

  lemma RoundKeyStep(key: Block, r: nat)
    requires r < 10
    ensures RoundKey(key, r + 1) == NextRoundKey(RoundKey(key, r), Rcon(r + 1))
  {
    hide Add, SBox, Rcon, KeyWord, RoundKey, Schedule, AddWord;
    var w := 4 * r + 4;
    RoundKeyWords(key, r);
    RoundKeyWords(key, r + 1);
    FourWords(KeyWord(key, w - 4), KeyWord(key, w - 3), KeyWord(key, w - 2), KeyWord(key, w - 1));
    FirstOfRound(key, r);
    NextOfRound(key, w + 1);
    NextOfRound(key, w + 2);
    NextOfRound(key, w + 3);
  }

  lemma FirstOfRound(key: Block, r: nat)
    requires r < 10
    ensures var w, l := 4 * r + 4, KeyWord(key, 4 * r + 3);
      KeyWord(key, w) ==
      AddWord(KeyWord(key, w - 4), [Add(SBox(l[1]), Rcon(r + 1)), SBox(l[2]), SBox(l[3]), SBox(l[0])])
  {
    hide Add, SBox, Rcon, KeyWord, AddWord;
    var w := 4 * r + 4;
    assert w % 4 == 0 && w / 4 == r + 1;
    KeyWordStep(key, w, RotatedWord(KeyWord(key, w - 1), w));
  }

  lemma NextOfRound(key: Block, w: nat)
    requires 4 <= w < 44 && w % 4 != 0
    ensures KeyWord(key, w) == AddWord(KeyWord(key, w - 4), KeyWord(key, w - 1))
  {
    hide KeyWord, AddWord;
    KeyWordStep(key, w, KeyWord(key, w - 1));
  }

  lemma FromColumns(o: Block, t: Block)
    requires forall j :: 0 <= j < 4 ==> t[4 * j..4 * j + 4] == MixedColumn(o, 4 * j)
    ensures t == MixColumns(o)
  {
    hide MixedColumn;
    assert t[4 * 0..4 * 0 + 4] == t[0..4] && t[4 * 1..4 * 1 + 4] == t[4..8];
    assert t[4 * 2..4 * 2 + 4] == t[8..12] && t[4 * 3..4 * 3 + 4] == t[12..16];
    assert t == t[0..4] + t[4..8] + t[8..12] + t[12..16];
  }

  lemma FourWords(a: seq<bv8>, b: seq<bv8>, c: seq<bv8>, d: seq<bv8>)
    requires |a| == |b| == |c| == |d| == 4
    ensures var k := a + b + c + d;
      k[0..4] == a && k[4..8] == b && k[8..12] == c && k[12..16] == d
      && k[12] == d[0] && k[13] == d[1] && k[14] == d[2] && k[15] == d[3]
  {
  }

  lemma XorTwice(s: Block, k: Block)
    ensures Xor(Xor(s, k), k) == s
  {
  }

  lemma SubBytesInverse(s: Block)
    ensures InvSubBytes(SubBytes(s)) == s && SubBytes(InvSubBytes(s)) == s
  {
    hide SBox;
    hide InvSBox;
    forall i | 0 <= i < 16 ensures InvSBox(SBox(s[i])) == s[i] && SBox(InvSBox(s[i])) == s[i] {
      SBoxInverse(s[i]);
      InvSBoxInverse(s[i]);
    }
  }

  lemma ShiftRowsInverse(s: Block)
    ensures InvShiftRows(ShiftRows(s)) == s && ShiftRows(InvShiftRows(s)) == s
  {
  }

  lemma SliceOfFour(t: Block, c: nat, col: seq<bv8>)
    requires c <= 12 && |col| == 4 && t[c..c + 4] == col
    ensures t[c] == col[0] && t[c + 1] == col[1] && t[c + 2] == col[2] && t[c + 3] == col[3]
  {
    var u := t[c..c + 4];
    assert u[0] == t[c] && u[1] == t[c + 1] && u[2] == t[c + 2] && u[3] == t[c + 3];
  }

  lemma MixedColumnInverse(s: Block, t: Block, c: nat)
    requires c <= 12 && t[c..c + 4] == MixedColumn(s, c)
    ensures InvMixedColumn(t, c) == s[c..c + 4]
  {
    hide MixColumn, InvMixColumn;
    var a0, a1, a2, a3 := s[c], s[c + 1], s[c + 2], s[c + 3];
    SliceOfFour(t, c, MixedColumn(s, c));
    MixColumnInverse(a0, a1, a2, a3);
    MixColumnInverse(a1, a2, a3, a0);
    MixColumnInverse(a2, a3, a0, a1);
    MixColumnInverse(a3, a0, a1, a2);
    assert s[c..c + 4] == [a0, a1, a2, a3];
  }

  lemma InvMixedColumnInverse(s: Block, t: Block, c: nat)
    requires c <= 12 && t[c..c + 4] == InvMixedColumn(s, c)
    ensures MixedColumn(t, c) == s[c..c + 4]
  {
    hide MixColumn, InvMixColumn;
    var a0, a1, a2, a3 := s[c], s[c + 1], s[c + 2], s[c + 3];
    SliceOfFour(t, c, InvMixedColumn(s, c));
    InvMixColumnInverse(a0, a1, a2, a3);
    InvMixColumnInverse(a1, a2, a3, a0);
    InvMixColumnInverse(a2, a3, a0, a1);
    InvMixColumnInverse(a3, a0, a1, a2);
    assert s[c..c + 4] == [a0, a1, a2, a3];
  }

  lemma MixColumnsInverse(s: Block)
    ensures InvMixColumns(MixColumns(s)) == s && MixColumns(InvMixColumns(s)) == s
  {
    hide MixedColumn;
    hide InvMixedColumn;
    var t, u := MixColumns(s), InvMixColumns(s);
    assert t[0..4] == MixedColumn(s, 0) && t[4..8] == MixedColumn(s, 4) && t[8..12] == MixedColumn(s, 8)
      && t[12..16] == MixedColumn(s, 12);
    assert u[0..4] == InvMixedColumn(s, 0) && u[4..8] == InvMixedColumn(s, 4) && u[8..12] == InvMixedColumn(s, 8)
      && u[12..16] == InvMixedColumn(s, 12);
    MixedColumnInverse(s, t, 0);
    MixedColumnInverse(s, t, 4);
    MixedColumnInverse(s, t, 8);
    MixedColumnInverse(s, t, 12);
    InvMixedColumnInverse(s, u, 0);
    InvMixedColumnInverse(s, u, 4);
    InvMixedColumnInverse(s, u, 8);
    InvMixedColumnInverse(s, u, 12);
    assert s == s[0..4] + s[4..8] + s[8..12] + s[12..16];
  }

  lemma {:induction false} RoundsInverse(key: Block, s: Block, n: nat)
    requires n <= 9
    ensures InvRounds(key, Rounds(key, s, n), n) == s && Rounds(key, InvRounds(key, s, n), n) == s
    decreases n
  {
    hide MixColumns;
    hide InvMixColumns;
    hide ShiftRows;
    hide InvShiftRows;
    hide SubBytes;
    hide InvSubBytes;
    hide Xor;
    hide RoundKey;
    var k := RoundKey(key, n);
    XorTwice(s, k);
    if n > 0 {
      var t := Rounds(key, s, n - 1);
      XorTwice(MixColumns(ShiftRows(SubBytes(t))), k);
      MixColumnsInverse(ShiftRows(SubBytes(t)));
      ShiftRowsInverse(SubBytes(t));
      SubBytesInverse(t);
      RoundsInverse(key, s, n - 1);
      var u := Xor(s, k);
      MixColumnsInverse(u);
      ShiftRowsInverse(InvMixColumns(u));
      SubBytesInverse(InvShiftRows(InvMixColumns(u)));
      RoundsInverse(key, InvSubBytes(InvShiftRows(InvMixColumns(u))), n - 1);
    }
  }

  /** For every key the cipher permutes the blocks: the inverse cipher undoes it on both sides. */
  lemma CipherIsPermutation(key: Block, s: Block)
    ensures InvCipher(key, Cipher(key, s)) == s && Cipher(key, InvCipher(key, s)) == s
  {
    hide ShiftRows;
    hide InvShiftRows;
    hide SubBytes;
    hide InvSubBytes;
    hide Xor;
    hide Rounds;
    hide InvRounds;
    hide RoundKey;
    var k, t := RoundKey(key, 10), Rounds(key, s, 9);
    XorTwice(ShiftRows(SubBytes(t)), k);
    ShiftRowsInverse(SubBytes(t));
    SubBytesInverse(t);
    RoundsInverse(key, s, 9);
    var u := Xor(s, k);
    XorTwice(s, k);
    ShiftRowsInverse(u);
    SubBytesInverse(InvShiftRows(u));
    RoundsInverse(key, InvSubBytes(InvShiftRows(u)), 9);
  }

  /** The next word of the schedule, from the words before it. */
  lemma NextWordIs(key: Block, s: seq<bv8>, w: nat, t: seq<bv8>)
    requires 4 <= w < 44 && s == Schedule(key, w) && |t| == 4
    requires t == RotatedWord(s[4 * w - 4..4 * w], w)
    ensures s + AddWord(s[4 * w - 16..4 * w - 12], t) == Schedule(key, w + 1)
  {
    hide KeyWord, AddWord, RotatedWord;
    ScheduleWord(key, w, w - 1);
    ScheduleWord(key, w, w - 4);
    ScheduleStep(key, w);
    hide Schedule;
    KeyWordStep(key, w, t);
  }

  lemma ScheduleStep(key: Block, w: nat)
    requires w < 44
    ensures Schedule(key, w + 1) == Schedule(key, w) + KeyWord(key, w)
  {
    hide KeyWord;
  }

  // ---- The code: a key schedule expanded at construction, and in-place rounds ----

  class Aes128 {
    const rk: array<bv8>
    ghost const key: Block

    ghost predicate Valid() reads this, rk { rk.Length == 176 && rk[..] == Schedule(key, 44) }

    constructor (key: Block)
      ensures Valid() && this.key == key && fresh(rk)
    {
      this.key := key;
      rk := new bv8[176];
      new;
      CopyKey(rk, key);
      FirstWords(key);
      ExpandKey();
    }

    /** Extends the key copied to the front of the schedule, a word at a time. */
    method ExpandKey()
      requires rk.Length == 176 && rk[..16] == Schedule(key, 4)
      modifies rk
      ensures Valid()
    {
      hide Schedule;
      var i := 16;
      while i < 176
        invariant 16 <= i <= 176 && i % 4 == 0 && rk[..i] == Schedule(key, i / 4)
      {
        NextWord(i);
        i := i + 4;
      }
      assert rk[..176] == rk[..];
    }

    static method CopyKey(a: array<bv8>, key: Block)
      requires a.Length >= 16
      modifies a
      ensures a[..16] == key
    {
      forall j | 0 <= j < 16 { a[j] := key[j]; }
    }

    method NextWord(i: nat)
      requires rk.Length == 176 && 16 <= i < 176 && i % 4 == 0 && rk[..i] == Schedule(key, i / 4)
      modifies rk
      ensures rk[..i + 4] == Schedule(key, i / 4 + 1)
    {
      hide Schedule, KeyWord, SBox, Rcon, Add, AddWord;
      ghost var w, s := i / 4, rk[..i];
      assert i == 4 * w && (i % 16 == 0 <==> w % 4 == 0) && (w % 4 == 0 ==> i / 16 == w / 4);
      var t := rk[i - 4..i];
      assert t == s[4 * w - 4..4 * w];
      if i % 16 == 0 {
        t := [Add(SBox(t[1]), Rcon(i / 16)), SBox(t[2]), SBox(t[3]), SBox(t[0])];
      }
      NextWordIs(key, s, w, t);
      assert rk[i - 16..i - 12] == s[4 * w - 16..4 * w - 12];
      hide *;
      AddFourBack(rk, i, t);
      assert rk[..i + 4] == rk[..i] + rk[i..i + 4];
    }

    static method AddFourBack(a: array<bv8>, i: nat, t: seq<bv8>)
      requires 16 <= i && i + 4 <= a.Length && |t| == 4
      modifies a
      ensures a[i..i + 4] == AddWord(old(a[i - 16..i - 12]), t) && a[..i] == old(a[..i])
    {
      hide Add;
      a[i] := Add(a[i - 16], t[0]);
      a[i + 1] := Add(a[i - 15], t[1]);
      a[i + 2] := Add(a[i - 14], t[2]);
      a[i + 3] := Add(a[i - 13], t[3]);
    }

    method AddRoundKey(s: array<bv8>, round: nat)
      requires Valid() && s.Length == 16 && s != rk && round <= 10
      modifies s
      ensures s[..] == Xor(old(s[..]), RoundKey(key, round))
    {
      hide Add;
      assert rk[16 * round..16 * round + 16] == RoundKey(key, round);
      hide RoundKey;
      for i := 0 to 16
        invariant forall j :: 0 <= j < i ==> s[j] == Add(old(s[j]), rk[round * 16 + j])
        invariant forall j :: i <= j < 16 ==> s[j] == old(s[j])
      {
        s[i] := Add(s[i], rk[round * 16 + i]);
      }
    }

    static method Substitute(s: array<bv8>)
      requires s.Length == 16
      modifies s
      ensures s[..] == SubBytes(old(s[..]))
    {
      for i := 0 to 16
        invariant forall j :: 0 <= j < i ==> s[j] == SBox(old(s[j]))
        invariant forall j :: i <= j < 16 ==> s[j] == old(s[j])
      {
        s[i] := SBox(s[i]);
      }
    }

    static method RotateRows(s: array<bv8>)
      requires s.Length == 16
      modifies s
      ensures s[..] == ShiftRows(old(s[..]))
    {
      RotateRow1(s);
      SwapBytes(s, 2, 10);
      SwapBytes(s, 6, 14);
      RotateRow3(s);
    }

    static method RotateRow1(s: array<bv8>)
      requires s.Length == 16
      modifies s
      ensures var o := old(s[..]); s[..] == o[1 := o[5]][5 := o[9]][9 := o[13]][13 := o[1]]
    {
      var t := s[1];
      s[1] := s[5];
      s[5] := s[9];
      s[9] := s[13];
      s[13] := t;
    }

    static method SwapBytes(s: array<bv8>, i: nat, j: nat)
      requires i < s.Length && j < s.Length
      modifies s
      ensures var o := old(s[..]); s[..] == o[i := o[j]][j := o[i]]
    {
      var t := s[i];
      s[i] := s[j];
      s[j] := t;
    }

    static method RotateRow3(s: array<bv8>)
      requires s.Length == 16
      modifies s
      ensures var o := old(s[..]); s[..] == o[3 := o[15]][15 := o[11]][11 := o[7]][7 := o[3]]
    {
      var t := s[3];
      s[3] := s[15];
      s[15] := s[11];
      s[11] := s[7];
      s[7] := t;
    }

    static method Mix(s: array<bv8>)
      requires s.Length == 16
      modifies s
      ensures s[..] == MixColumns(old(s[..]))
    {
      hide MixedColumn;
      ghost var o := s[..];
      for c := 0 to 4
        invariant s[4 * c..] == o[4 * c..]
        invariant forall j :: 0 <= j < c ==> s[4 * j..4 * j + 4] == MixedColumn(o, 4 * j)
      {
        label before:
        assert s[4 * c..4 * c + 4] == o[4 * c..4 * c + 4] && s[4 * c + 4..] == o[4 * c + 4..];
        MixOne(s, 4 * c, o);
        forall j | 0 <= j < c ensures s[4 * j..4 * j + 4] == old@before(s[4 * j..4 * j + 4]) {
          assert s[4 * j..4 * j + 4] == s[..4 * c][4 * j..4 * j + 4];
          assert old@before(s[4 * j..4 * j + 4]) == old@before(s[..4 * c])[4 * j..4 * j + 4];
        }
      }
      ghost var t := s[..];
      forall j | 0 <= j < 4 ensures t[4 * j..4 * j + 4] == MixedColumn(o, 4 * j) {
        assert t[4 * j..4 * j + 4] == s[4 * j..4 * j + 4];
      }
      FromColumns(o, t);
    }

    /** One column, with the products of the matrix row factored through the column's sum. */
    static method MixOne(s: array<bv8>, c: nat, ghost o: Block)
      requires s.Length == 16 && c <= 12 && s[c..c + 4] == o[c..c + 4]
      modifies s
      ensures s[c..c + 4] == MixedColumn(o, c)
      ensures s[..c] == old(s[..c]) && s[c + 4..] == old(s[c + 4..])
    {
      hide Xtime, Add, Sum, MixColumn;
      ghost var oc := o[c..c + 4];
      var a0, a1, a2, a3 := s[c], s[c + 1], s[c + 2], s[c + 3];
      assert a0 == oc[0] && a1 == oc[1] && a2 == oc[2] && a3 == oc[3];
      var h := Sum(a0, a1, a2, a3);
      FactoredColumn(a0, a1, a2, a3);
      s[c] := Add(s[c], Add(h, Xtime(Add(a0, a1))));
      s[c + 1] := Add(s[c + 1], Add(h, Xtime(Add(a1, a2))));
      s[c + 2] := Add(s[c + 2], Add(h, Xtime(Add(a2, a3))));
      s[c + 3] := Add(s[c + 3], Add(h, Xtime(Add(a3, a0))));
    }

    /** Encrypts `in_` into `out`, which may be the same buffer. */
    method Encrypt(in_: array<bv8>, out: array<bv8>)
      requires Valid() && in_.Length == 16 && out.Length == 16 && out != rk
      modifies out
      ensures out[..] == Cipher(key, old(in_[..]))
    {
      hide Xor;
      hide RoundKey;
      hide SubBytes;
      hide ShiftRows;
      hide MixColumns;
      hide KeyWord;
      var s := new bv8[16];
      forall i | 0 <= i < 16 { s[i] := in_[i]; }
      ghost var b: Block := old(in_[..]);
      assert s[..] == b;
      AddRoundKey(s, 0);
      var round := 1;
      while round < 10
        invariant 1 <= round <= 10 && s[..] == Rounds(key, b, round - 1)
        invariant Valid()
      {
        Substitute(s);
        RotateRows(s);
        Mix(s);
        AddRoundKey(s, round);
        round := round + 1;
      }
      Substitute(s);
      RotateRows(s);
      AddRoundKey(s, 10);
      forall i | 0 <= i < 16 { out[i] := s[i]; }
      assert out[..] == s[..];
    }
  }
}
