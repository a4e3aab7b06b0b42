/** CCM authenticated decryption (RFC 3610) as in components/ble_device_base/ble_aes_ccm.cpp. */
module Ccm {
  import opened Basics
  import opened Gf256
  import opened Aes

  type Bytes = seq<bv8>
  type BlockFunction = Block -> Block

  // ---- RFC 3610 for an arbitrary block function `e` ----

  /** Octet `i` of `n`, least significant first: `n` shifted right by `8 i` bits, masked. */
  function Octet(n: nat, i: nat): bv8 { ((n / Pow256(i)) % 256) as bv8 }

  /** `n` as `l` octets, most significant first. */
  function BigEndian(n: nat, l: nat): (r: Bytes)
    ensures |r| == l
  {
    seq(l, j requires 0 <= j < l => Octet(n, l - 1 - j))
  }

  predicate NonceOk(nonce: Bytes) { 7 <= |nonce| <= 13 }

  /** A_i of section 2.3. */
  function CounterBlock(nonce: Bytes, i: nat): Block
    requires NonceOk(nonce)
  {
    var l := 15 - |nonce|;
    [(l - 1) as bv8] + nonce + BigEndian(i, l)
  }

  /** Octet `j` of the concatenation S_1 S_2 ... */
  function KeyStream(e: BlockFunction, nonce: Bytes, j: nat): bv8
    requires NonceOk(nonce)
  {
    e(CounterBlock(nonce, 1 + j / 16))[j % 16]
  }

  /** Encryption and decryption of the message octets: XOR with the key stream. */
  function Ctr(e: BlockFunction, nonce: Bytes, data: Bytes): (r: Bytes)
    requires NonceOk(nonce)
    ensures |r| == |data|
  {
    seq(|data|, j requires 0 <= j < |data| => Add(data[j], KeyStream(e, nonce, j)))
  }

  /** Sixteen octets of `data` from `off` on, zero-padded. */
  function PadBlock(data: Bytes, off: nat): Block {
    seq(16, j requires 0 <= j < 16 => if off + j < |data| then data[off + j] else 0)
  }

  function Blocks(data: Bytes): (r: seq<Block>)
    ensures |r| == (|data| + 15) / 16
  {
    seq((|data| + 15) / 16, k requires 0 <= k < (|data| + 15) / 16 => PadBlock(data, 16 * k))
  }

  /** B_0 of section 2.2. */
  function FirstBlock(nonce: Bytes, hasAad: bool, m: nat, msgLen: nat): Block
    requires NonceOk(nonce) && 4 <= m <= 16
  {
    var l := 15 - |nonce|;
    [((if hasAad then 64 else 0) + 8 * ((m - 2) / 2) + (l - 1)) as bv8] + nonce + BigEndian(msgLen, l)
  }

  /** The three length encodings of section 2.2. */
  function EncodeAad(aad: Bytes): Bytes {
    if |aad| == 0 then []
    else if |aad| < 0xFF00 then BigEndian(|aad|, 2) + aad
    else if |aad| < 0x1_0000_0000 then [0xFF, 0xFE] + BigEndian(|aad|, 4) + aad
    else [0xFF, 0xFF] + BigEndian(|aad|, 8) + aad
  }

  /** X_{n+1} from X_1 = `x` over B_1 ... B_n. */
  function CbcMac(e: BlockFunction, x: Block, blocks: seq<Block>): Block {
    if blocks == [] then x
    else
      var k := |blocks| - 1;
      e(Xor(CbcMac(e, x, blocks[..k]), blocks[k]))
  }

  /** T of section 2.2, given the encoded additional data. */
  function Mac(e: BlockFunction, nonce: Bytes, encodedAad: Bytes, msg: Bytes, m: nat): (t: Bytes)
    requires NonceOk(nonce) && 4 <= m <= 16
    ensures |t| == m
  {
    CbcMac(e, e(FirstBlock(nonce, encodedAad != [], m, |msg|)), Blocks(encodedAad) + Blocks(msg))[..m]
  }

  /** `a` XORed with as many octets of `k`. */
  function XorPrefix(a: Bytes, k: Bytes): (r: Bytes)
    requires |a| <= |k|
    ensures |r| == |a|
  {
    seq(|a|, i requires 0 <= i < |a| => Add(a[i], k[i]))
  }

  /** U of section 2.3: T masked by the first octets of S_0. */
  function MaskedTag(e: BlockFunction, nonce: Bytes, encodedAad: Bytes, msg: Bytes, m: nat): (u: Bytes)
    requires NonceOk(nonce) && 4 <= m <= 16
    ensures |u| == m
  {
    XorPrefix(Mac(e, nonce, encodedAad, msg, m), e(CounterBlock(nonce, 0)))
  }

  datatype Sealed = Sealed(ciphertext: Bytes, tag: Bytes)
  datatype Opened = Opened(ok: bool, plaintext: Bytes)

  /** Section 2.4. */
  function Encrypt(e: BlockFunction, nonce: Bytes, aad: Bytes, msg: Bytes, m: nat): Sealed
    requires NonceOk(nonce) && 4 <= m <= 16
  {
    Sealed(Ctr(e, nonce, msg), MaskedTag(e, nonce, EncodeAad(aad), msg, m))
  }

  /** Section 2.5. */
  function Decrypt(e: BlockFunction, nonce: Bytes, aad: Bytes, c: Sealed): Opened
    requires NonceOk(nonce) && 4 <= |c.tag| <= 16
  {
    var msg := Ctr(e, nonce, c.ciphertext);
    Opened(c.tag == MaskedTag(e, nonce, EncodeAad(aad), msg, |c.tag|), msg)
  }

  lemma AddTwice(a: bv8, b: bv8)
    ensures Add(Add(a, b), b) == a
  {
  }

  lemma CtrInvolution(e: BlockFunction, nonce: Bytes, data: Bytes)
    requires NonceOk(nonce)
    ensures Ctr(e, nonce, Ctr(e, nonce, data)) == data
  {
    hide Add;
    hide KeyStream;
    forall j | 0 <= j < |data| ensures Ctr(e, nonce, Ctr(e, nonce, data))[j] == data[j] {
      AddTwice(data[j], KeyStream(e, nonce, j));
    }
  }

  /** For every block function, decryption accepts exactly the encryptions, and returns what was encrypted. */
  lemma DecryptAcceptsExactlyEncryptions(e: BlockFunction, nonce: Bytes, aad: Bytes, c: Sealed, msg: Bytes)
    requires NonceOk(nonce) && 4 <= |c.tag| <= 16
    ensures Decrypt(e, nonce, aad, c) == Opened(true, msg) <==> c == Encrypt(e, nonce, aad, msg, |c.tag|)
  {
    hide Ctr;
    hide MaskedTag;
    CtrInvolution(e, nonce, c.ciphertext);
    CtrInvolution(e, nonce, msg);
  }

  // ---- The blocks, read back as sections 2.2 and 2.3 lay them out ----

  function Value(x: bv8): nat { x as nat }

  /** The number that octets stand for, the most significant first. */
  function Number(b: Bytes): nat {
    if b == [] then 0 else 256 * Number(b[..|b| - 1]) + Value(b[|b| - 1])
  }

  lemma ValueOf(x: nat)
    requires x < 256
    ensures Value(x as bv8) == x
  {
  }

  lemma Quotient(n: nat, d: nat, q: nat, r: nat)
    requires r < d && n == q * d + r
    ensures n / d == q && n % d == r
  {
    var p := n / d;
    assert n == p * d + n % d;
    Scaled(p + 1, q, d);
    Scaled(q + 1, p, d);
  }

  lemma Scaled(a: nat, b: nat, d: nat)
    ensures a <= b ==> a * d <= b * d
  {
  }

  lemma QuotientTwice(n: nat, d: nat)
    requires d > 0
    ensures n / (256 * d) == (n / 256) / d && n % (256 * d) == 256 * ((n / 256) % d) + n % 256
  {
    var m, s := n / 256, n % 256;
    var q, r := m / d, m % d;
    assert m == q * d + r && n == 256 * m + s;
    assert 256 * (q * d + r) + s == q * (256 * d) + (256 * r + s);
    Quotient(n, 256 * d, q, 256 * r + s);
  }

  lemma OctetShift(n: nat, k: nat)
    ensures Octet(n, k + 1) == Octet(n / 256, k) && Octet(n, 0) == (n % 256) as bv8
  {
    QuotientTwice(n, Pow256(k));
    assert Pow256(0) == 1;
  }

  lemma BigEndianStep(n: nat, l: nat)
    requires l > 0
    ensures BigEndian(n, l) == BigEndian(n / 256, l - 1) + [(n % 256) as bv8]
  {
    hide Octet;
    var b := BigEndian(n / 256, l - 1);
    OctetShift(n, 0);
    forall j: nat | j < l - 1 ensures BigEndian(n, l)[j] == b[j] { OctetShift(n, l - 2 - j); }
  }

  lemma NumberAppend(b: Bytes, x: bv8)
    ensures Number(b + [x]) == 256 * Number(b) + Value(x)
  {
    hide Value;
    assert (b + [x])[..|b|] == b;
  }

  lemma {:induction false} BigEndianReads(n: nat, l: nat)
    ensures Number(BigEndian(n, l)) == n % Pow256(l)
    decreases l
  {
    hide BigEndian, Octet, Value;
    if l > 0 {
      BigEndianReads(n / 256, l - 1);
      BigEndianStep(n, l);
      ValueOf(n % 256);
      NumberAppend(BigEndian(n / 256, l - 1), (n % 256) as bv8);
      QuotientTwice(n, Pow256(l - 1));
      hide Number;
    }
  }

  /** A_i: L - 1 in the low three bits of the flags and nothing above them, the nonce, and the counter. */
  lemma ReadCounterBlock(nonce: Bytes, i: nat)
    requires NonceOk(nonce)
    ensures var a, l := CounterBlock(nonce, i), 15 - |nonce|;
      && Value(a[0]) % 8 + 1 == l && Value(a[0]) / 8 == 0
      && a[1..16 - l] == nonce && Number(a[16 - l..]) == i % Pow256(l)
  {
    hide Number, BigEndian, Pow256, Value;
    var a, l := CounterBlock(nonce, i), 15 - |nonce|;
    BigEndianReads(i, l);
    assert a[16 - l..] == BigEndian(i, l) && a[1..16 - l] == nonce;
    ValueOf(l - 1);
  }

  /** No two counters, and no two nonces, share a block. */
  lemma CounterBlocksDiffer(nonce: Bytes, i: nat, other: Bytes, j: nat)
    requires NonceOk(nonce) && i < Pow256(15 - |nonce|) && NonceOk(other) && j < Pow256(15 - |other|)
    ensures CounterBlock(nonce, i) == CounterBlock(other, j) ==> nonce == other && i == j
  {
    hide CounterBlock, Number, Pow256, Value;
    ReadCounterBlock(nonce, i);
    ReadCounterBlock(other, j);
    SmallRemainder(i, Pow256(15 - |nonce|));
    SmallRemainder(j, Pow256(15 - |other|));
    var a, b := CounterBlock(nonce, i), CounterBlock(other, j);
    assert a[0] == b[0] ==> |nonce| == |other|;
  }

  lemma SmallRemainder(n: nat, d: nat)
    requires n < d
    ensures n % d == n
  {
  }

  /** B_0: from the top the reserved bit, Adata, M' and L' in the flags, the nonce, and the length of the message. */
  lemma ReadFirstBlock(nonce: Bytes, hasAad: bool, m: nat, msgLen: nat)
    requires NonceOk(nonce) && 4 <= m <= 16
    ensures var b, l := FirstBlock(nonce, hasAad, m, msgLen), 15 - |nonce|;
      && Value(b[0]) / 128 == 0 && Value(b[0]) / 64 % 2 == (if hasAad then 1 else 0)
      && Value(b[0]) / 8 % 8 == (m - 2) / 2 && Value(b[0]) % 8 + 1 == l
      && b[1..16 - l] == nonce && Number(b[16 - l..]) == msgLen % Pow256(l)
  {
    hide Number, BigEndian, Pow256, Value;
    var b, l := FirstBlock(nonce, hasAad, m, msgLen), 15 - |nonce|;
    BigEndianReads(msgLen, l);
    FlagFields(if hasAad then 1 else 0, (m - 2) / 2, l - 1);
    assert b[16 - l..] == BigEndian(msgLen, l) && b[1..16 - l] == nonce;
  }

  lemma FlagFields(a: nat, f: nat, b: nat)
    requires a < 2 && f < 8 && b < 8
    ensures var x := Value((64 * a + 8 * f + b) as bv8);
      x / 128 == 0 && x / 64 % 2 == a && x / 8 % 8 == f && x % 8 == b
  {
    hide Value;
    var x := 64 * a + 8 * f + b;
    ValueOf(x);
    DigitFields(a, f, b, x);
  }

  lemma DigitFields(a: nat, f: nat, b: nat, x: nat)
    requires a < 2 && f < 8 && b < 8 && x == 64 * a + 8 * f + b
    ensures x / 128 == 0 && x / 64 % 2 == a && x / 8 % 8 == f && x % 8 == b
  {
    assert x / 8 == 8 * a + f && x / 64 == a;
  }

  /** No key-stream block is ever the first block of a MAC. */
  lemma NeverFirstBlock(nonce: Bytes, i: nat, other: Bytes, hasAad: bool, m: nat, msgLen: nat)
    requires NonceOk(nonce) && NonceOk(other) && 4 <= m <= 16
    ensures CounterBlock(nonce, i) != FirstBlock(other, hasAad, m, msgLen)
  {
    hide CounterBlock, FirstBlock, Number, Value, Pow256;
    ReadCounterBlock(nonce, i);
    ReadFirstBlock(other, hasAad, m, msgLen);
  }

  // ---- The code ----

  /** AES-128 under a key, as a block function. */
  function Keyed(key: Block): BlockFunction { b => Cipher(key, b) }

  /** The only length encoding the code emits. */
  function ShortAad(aad: Bytes): Bytes {
    if aad == [] then [] else BigEndian(|aad|, 2) + aad
  }

  /** It is the standard's exactly for additional data below 0xFF00 octets. */
  lemma ShortAadIsStandard(aad: Bytes)
    ensures ShortAad(aad) == EncodeAad(aad) <==> |aad| < 0xFF00
  {
  }

  method BuildCtr(a: array<bv8>, nonce: Bytes, counter: nat)
    requires a.Length == 16 && 11 <= |nonce| <= 13
    modifies a
    ensures a[..] == CounterBlock(nonce, counter)
  {
    hide Octet;
    var l := 15 - |nonce|;
    a[0] := (l - 1) as bv8;
    for i := 0 to |nonce|
      invariant a[..1 + i] == [(l - 1) as bv8] + nonce[..i]
    {
      a[1 + i] := nonce[i];
    }
    WriteBigEndian(a, counter, l);
    assert a[..1 + |nonce|] == [(l - 1) as bv8] + nonce;
    assert a[..] == a[..1 + |nonce|] + a[1 + |nonce|..];
  }

  /** Clears the last `l` octets of `a`, then fills them from the right. */
  method WriteBigEndian(a: array<bv8>, n: nat, l: nat)
    requires a.Length == 16 && l <= 15
    modifies a
    ensures a[16 - l..] == BigEndian(n, l) && a[..16 - l] == old(a[..16 - l])
  {
    hide Octet;
    forall i | 0 <= i < l { a[16 - l + i] := 0; }
    for i := 0 to l
      invariant a[..16 - l] == old(a[..16 - l])
      invariant forall j :: 0 <= j < i ==> a[15 - j] == Octet(n, j)
    {
      a[15 - i] := Octet(n, i);
    }
    ghost var r := a[16 - l..];
    forall j | 0 <= j < l ensures r[j] == BigEndian(n, l)[j] {
      assert a[15 - (l - 1 - j)] == Octet(n, l - 1 - j);
    }
  }

  /** x := E(x XOR blk), in place. */
  method Absorb(aes: Aes128, x: array<bv8>, blk: array<bv8>)
    requires aes.Valid() && x.Length == 16 && blk.Length == 16 && x != blk && x != aes.rk
    modifies x
    ensures x[..] == Cipher(aes.key, Xor(old(x[..]), blk[..]))
  {
    hide Add;
    hide Cipher;
    for i := 0 to 16
      invariant forall j :: 0 <= j < i ==> x[j] == Add(old(x[j]), blk[j])
      invariant forall j :: i <= j < 16 ==> x[j] == old(x[j])
    {
      x[i] := Add(x[i], blk[i]);
    }
    assert x[..] == Xor(old(x[..]), blk[..]);
    aes.Encrypt(x, x);
  }

  lemma {:induction false} CbcMacAppend(e: BlockFunction, x: Block, bs: seq<Block>, b: Block)
    ensures CbcMac(e, x, bs + [b]) == e(Xor(CbcMac(e, x, bs), b))
  {
    assert (bs + [b])[..|bs|] == bs;
  }

  lemma {:induction false} CbcMacConcat(e: BlockFunction, x: Block, as_: seq<Block>, bs: seq<Block>)
    ensures CbcMac(e, x, as_ + bs) == CbcMac(e, CbcMac(e, x, as_), bs)
    decreases |bs|
  {
    if bs == [] {
      assert as_ + bs == as_;
    } else {
      var k := |bs| - 1;
      CbcMacConcat(e, x, as_, bs[..k]);
      assert (as_ + bs)[..|as_| + k] == as_ + bs[..k];
    }
  }

  /** Absorbs `data`, a zero-padded block at a time. */
  method AbsorbData(aes: Aes128, x: array<bv8>, data: Bytes)
    requires aes.Valid() && x.Length == 16 && x != aes.rk
    modifies x
    ensures x[..] == CbcMac(Keyed(aes.key), old(x[..]), Blocks(data))
  {
    hide CbcMac;
    hide Cipher;
    ghost var e, x0: Block := Keyed(aes.key), x[..];
    var blk := new bv8[16];
    var off := 0;
    CbcMacNone(e, x0);
    assert Blocks(data)[..0] == [];
    ghost var k := 0;
    while off < |data|
      invariant off == 16 * k && k <= |Blocks(data)| && x[..] == CbcMac(e, x0, Blocks(data)[..k])
      decreases |data| - off
    {
      FillBlock(blk, data, off);
      Absorb(aes, x, blk);
      CbcMacAppend(e, x0, Blocks(data)[..k], PadBlock(data, off));
      assert Blocks(data)[..k + 1] == Blocks(data)[..k] + [PadBlock(data, 16 * k)];
      off, k := off + 16, k + 1;
    }
    assert Blocks(data)[..k] == Blocks(data);
  }

  lemma CbcMacNone(e: BlockFunction, x: Block)
    ensures CbcMac(e, x, []) == x
  {
  }

  /** Absorbs the additional data behind its two length octets: fourteen octets first, then sixteen at a time. */
  method AbsorbAad(aes: Aes128, x: array<bv8>, aad: Bytes)
    requires aes.Valid() && x.Length == 16 && x != aes.rk && aad != []
    modifies x
    ensures x[..] == CbcMac(Keyed(aes.key), old(x[..]), Blocks(ShortAad(aad)))
  {
    hide CbcMac, Cipher, PadBlock, Blocks, Xor;
    ghost var e, x0: Block := Keyed(aes.key), x[..];
    ghost var enc := ShortAad(aad);
    var blk := new bv8[16];
    var ai := FillFirst(blk, aad);
    Absorb(aes, x, blk);
    AadFirst(e, x0, aad);
    ghost var k := 1;
    while ai < |aad|
      invariant 1 <= k <= |Blocks(enc)| && ai == (if 16 * k - 2 <= |aad| then 16 * k - 2 else |aad|)
      invariant x[..] == CbcMac(e, x0, Blocks(enc)[..k])
      decreases |aad| - ai
    {
      FillBlock(blk, aad, ai);
      AadNext(e, x0, aad, k);
      var n := if |aad| - ai < 16 then |aad| - ai else 16;
      ai := ai + n;
      Absorb(aes, x, blk);
      k := k + 1;
    }
    AadEnd(aad, k);
  }

  lemma AadFirst(e: BlockFunction, x0: Block, aad: Bytes)
    requires aad != []
    ensures |Blocks(ShortAad(aad))| >= 1
    ensures CbcMac(e, x0, Blocks(ShortAad(aad))[..1]) == e(Xor(x0, PadBlock(ShortAad(aad), 0)))
  {
    var enc := ShortAad(aad);
    CbcMacNone(e, x0);
    CbcMacAppend(e, x0, [], PadBlock(enc, 0));
    assert Blocks(enc)[..1] == [] + [PadBlock(enc, 0)];
  }

  lemma AadNext(e: BlockFunction, x0: Block, aad: Bytes, k: nat)
    requires 1 <= k && 16 * k - 2 < |aad|
    ensures var bs := Blocks(ShortAad(aad));
      k < |bs| && CbcMac(e, x0, bs[..k + 1]) == e(Xor(CbcMac(e, x0, bs[..k]), PadBlock(aad, 16 * k - 2)))
  {
    var enc := ShortAad(aad);
    AadBlock(aad, k);
    CbcMacAppend(e, x0, Blocks(enc)[..k], PadBlock(enc, 16 * k));
    assert Blocks(enc)[k] == PadBlock(enc, 16 * k);
    assert Blocks(enc)[..k + 1] == Blocks(enc)[..k] + [PadBlock(enc, 16 * k)];
  }

  lemma AadEnd(aad: Bytes, k: nat)
    requires k <= |Blocks(ShortAad(aad))| && |aad| <= 16 * k - 2
    ensures Blocks(ShortAad(aad))[..k] == Blocks(ShortAad(aad))
  {
    hide PadBlock;
  }

  lemma AadBlock(aad: Bytes, k: nat)
    requires 1 <= k && 16 * k - 2 < |aad|
    ensures PadBlock(ShortAad(aad), 16 * k) == PadBlock(aad, 16 * k - 2) && k < |Blocks(ShortAad(aad))|
  {
  }

  method FillFirst(blk: array<bv8>, aad: Bytes) returns (ai: nat)
    requires blk.Length == 16 && aad != []
    modifies blk
    ensures blk[..] == PadBlock(ShortAad(aad), 0) && ai == if 14 <= |aad| then 14 else |aad|
  {
    hide Octet;
    forall i | 0 <= i < 16 { blk[i] := 0; }
    blk[0] := Octet(|aad|, 1);
    blk[1] := Octet(|aad|, 0);
    ai := 0;
    var pos := 2;
    while pos < 16 && ai < |aad|
      invariant pos == ai + 2 && 2 <= pos <= 16 && ai <= |aad|
      invariant forall j :: 0 <= j < pos ==> blk[j] == ShortAad(aad)[j]
      invariant forall j :: pos <= j < 16 ==> blk[j] == 0
    {
      blk[pos] := aad[ai];
      pos, ai := pos + 1, ai + 1;
    }
  }

  /** Copies up to sixteen octets over a cleared block. */
  method FillBlock(blk: array<bv8>, data: Bytes, off: nat)
    requires blk.Length == 16 && off < |data|
    modifies blk
    ensures blk[..] == PadBlock(data, off)
  {
    forall i | 0 <= i < 16 { blk[i] := 0; }
    var n := if |data| - off < 16 then |data| - off else 16;
    forall i | 0 <= i < n { blk[i] := data[off + i]; }
  }

  /** XORs `n` octets from `off` on with the key-stream block `ks`. */
  method XorKeyStream(ciphertext: array<bv8>, plaintext: array<bv8>, off: nat, n: nat, ks: array<bv8>)
    requires off + n <= ciphertext.Length == plaintext.Length && n <= ks.Length && ks != plaintext
    modifies plaintext
    ensures plaintext[off..off + n] == XorPrefix(old(ciphertext[off..off + n]), ks[..])
    ensures plaintext[..off] == old(plaintext[..off]) && ciphertext[off + n..] == old(ciphertext[off + n..])
  {
    hide Add;
    for i := 0 to n
      invariant forall j :: off <= j < off + i ==> plaintext[j] == Add(old(ciphertext[j]), ks[j - off])
      invariant forall j :: off + i <= j < ciphertext.Length ==> ciphertext[j] == old(ciphertext[j])
      invariant plaintext[..off] == old(plaintext[..off])
    {
      plaintext[off + i] := Add(ciphertext[off + i], ks[i]);
    }
  }

  lemma CtrChunk(e: BlockFunction, nonce: Bytes, data: Bytes, off: nat, n: nat)
    requires NonceOk(nonce) && off % 16 == 0 && n <= 16 && off + n <= |data|
    ensures Ctr(e, nonce, data)[off..off + n] == XorPrefix(data[off..off + n], e(CounterBlock(nonce, off / 16 + 1)))
  {
    hide Add;
    var l, r := Ctr(e, nonce, data)[off..off + n], XorPrefix(data[off..off + n], e(CounterBlock(nonce, off / 16 + 1)));
    forall i | 0 <= i < n ensures l[i] == r[i] {
      assert (off + i) / 16 == off / 16 && (off + i) % 16 == i;
    }
  }

  /** Decrypts `ciphertext` into `plaintext` (possibly the same buffer), a key-stream block at a time. */
  method CtrDecrypt(aes: Aes128, nonce: Bytes, ciphertext: array<bv8>, plaintext: array<bv8>)
    requires aes.Valid() && 11 <= |nonce| <= 13
    requires plaintext.Length == ciphertext.Length && plaintext != aes.rk
    modifies plaintext
    ensures plaintext[..] == Ctr(Keyed(aes.key), nonce, old(ciphertext[..]))
  {
    hide Cipher, CounterBlock, Ctr, XorPrefix;
    ghost var c0 := ciphertext[..];
    var a, ks := new bv8[16], new bv8[16];
    var off := 0;
    while off < ciphertext.Length
      invariant off % 16 == 0 && aes.Valid() && Decrypting(Keyed(aes.key), nonce, c0, ciphertext, plaintext, off)
      decreases ciphertext.Length - off
    {
      DecryptChunk(aes, nonce, ciphertext, plaintext, off, a, ks, c0);
      off := off + 16;
    }
  }

  /** The first `off` octets are decrypted, the others still to come. */
  ghost predicate Decrypting(e: BlockFunction, nonce: Bytes, c0: Bytes, ciphertext: array<bv8>, plaintext: array<bv8>,
                             off: nat)
    requires NonceOk(nonce)
    reads ciphertext, plaintext
  {
    var p, len := Ctr(e, nonce, c0), |c0|;
    && ciphertext.Length == plaintext.Length == len == |p|
    && if off < len then plaintext[..off] == p[..off] && ciphertext[off..] == c0[off..] else plaintext[..] == p
  }

  method DecryptChunk(aes: Aes128, nonce: Bytes, ciphertext: array<bv8>, plaintext: array<bv8>, off: nat,
                      a: array<bv8>, ks: array<bv8>, ghost c0: Bytes)
    requires aes.Valid() && 11 <= |nonce| <= 13 && a.Length == ks.Length == 16 && off < ciphertext.Length
    requires off % 16 == 0
    requires plaintext != aes.rk && a != aes.rk && ks != aes.rk && a != ks
    requires a != plaintext && ks != plaintext && a != ciphertext && ks != ciphertext
    requires Decrypting(Keyed(aes.key), nonce, c0, ciphertext, plaintext, off)
    modifies plaintext, a, ks
    ensures Decrypting(Keyed(aes.key), nonce, c0, ciphertext, plaintext, off + 16)
  {
    hide Cipher, CounterBlock, Ctr, XorPrefix;
    ghost var e := Keyed(aes.key);
    BuildCtr(a, nonce, off / 16 + 1);
    aes.Encrypt(a, ks);
    var n := if ciphertext.Length - off < 16 then ciphertext.Length - off else 16;
    SameMiddle(ciphertext[..], c0, off, n);
    CtrChunk(e, nonce, c0, off, n);
    ghost var p := Ctr(e, nonce, c0);
    assert p[..off + n] == p[..off] + p[off..off + n];
    XorKeyStream(ciphertext, plaintext, off, n, ks);
    assert plaintext[..off + n] == plaintext[..off] + plaintext[off..off + n];
  }

  lemma SameMiddle(c: Bytes, c0: Bytes, off: nat, n: nat)
    requires |c| == |c0| && off + n <= |c| && c[off..] == c0[off..]
    ensures c[off..off + n] == c0[off..off + n] && c[off + n..] == c0[off + n..]
  {
    assert c[off..off + n] == c[off..][..n] && c[off + n..] == c[off..][n..];
  }

  lemma FieldBits(f: nat)
    requires 1 <= f <= 7
    ensures (f as bv8) << 3 == (8 * f) as bv8
  {
    assert f == 1 || f == 2 || f == 3 || f == 4 || f == 5 || f == 6 || f == 7;
  }

  lemma DisjointBits(a: nat, f: nat, b: nat)
    requires (a == 0 || a == 64) && 1 <= f <= 7 && 1 <= b <= 3
    ensures (a as bv8) | ((8 * f) as bv8) | (b as bv8) == (a + 8 * f + b) as bv8
  {
    assert b == 1 || b == 2 || b == 3;
    if f == 1 {} else if f == 2 {} else if f == 3 {} else if f == 4 {} else if f == 5 {} else if f == 6 {}
    else { assert f == 7; }
  }

  /** The flags octet is assembled from bit fields; the standard gives it as a sum. */
  lemma FlagsAreSum(hasAad: bool, m: nat, l: nat)
    requires 4 <= m <= 16 && 2 <= l <= 4
    ensures (if hasAad then 0x40 else 0x00) | ((((m - 2) / 2) as bv8) << 3) | ((l - 1) as bv8) ==
            ((if hasAad then 64 else 0) + 8 * ((m - 2) / 2) + (l - 1)) as bv8
  {
    FieldBits((m - 2) / 2);
    DisjointBits(if hasAad then 64 else 0, (m - 2) / 2, l - 1);
  }

  method BuildFirst(b0: array<bv8>, nonce: Bytes, hasAad: bool, m: nat, msgLen: nat)
    requires b0.Length == 16 && 11 <= |nonce| <= 13 && 4 <= m <= 16
    modifies b0
    ensures b0[..] == FirstBlock(nonce, hasAad, m, msgLen)
  {
    var l := 15 - |nonce|;
    var flags := (if hasAad then 0x40 else 0x00) | ((((m - 2) / 2) as bv8) << 3) | ((l - 1) as bv8);
    FlagsAreSum(hasAad, m, l);
    BuildCtr(b0, nonce, msgLen);
    b0[0] := flags;
  }

  lemma OrXorZero(d: bv8, a: bv8, b: bv8)
    ensures d | Add(a, b) == 0 <==> d == 0 && a == b
  {
  }

  /** Compares `x XOR s0` with the received tag without an early exit. */
  method TagMatches(x: Block, s0: Block, tag: Bytes) returns (r: bool)
    requires |tag| <= 16
    ensures r <==> tag == XorPrefix(x[..|tag|], s0)
  {
    var diff: bv8 := 0;
    hide Add;
    for i := 0 to |tag|
      invariant diff == 0 <==> forall j :: 0 <= j < i ==> Add(x[j], s0[j]) == tag[j]
    {
      OrXorZero(diff, Add(x[i], s0[i]), tag[i]);
      diff := diff | Add(Add(x[i], s0[i]), tag[i]);
    }
    r := diff == 0;
    assert forall j :: 0 <= j < |tag| ==> XorPrefix(x[..|tag|], s0)[j] == Add(x[j], s0[j]);
  }

  lemma NoBlocks()
    ensures Blocks([]) == []
  {
  }

  /** X_{n+1} of section 2.2 over the additional data and the message. */
  method ComputeMac(aes: Aes128, nonce: Bytes, aad: Bytes, msg: array<bv8>, m: nat) returns (x: array<bv8>)
    requires aes.Valid() && 11 <= |nonce| <= 13 && 4 <= m <= 16
    ensures fresh(x) && x.Length == 16 && x[..m] == Mac(Keyed(aes.key), nonce, ShortAad(aad), msg[..], m)
  {
    hide Cipher;
    hide FirstBlock;
    hide CbcMac;
    hide Blocks;
    x := new bv8[16];
    var b0 := new bv8[16];
    BuildFirst(b0, nonce, |aad| > 0, m, msg.Length);
    aes.Encrypt(b0, x);
    ghost var e, x1: Block := Keyed(aes.key), x[..];
    CbcMacNone(e, x1);
    NoBlocks();
    if |aad| > 0 { AbsorbAad(aes, x, aad); }
    AbsorbData(aes, x, msg[..]);
    CbcMacConcat(e, x1, Blocks(ShortAad(aad)), Blocks(msg[..]));
  }

  /** The decryptor past its guard. */
  method DecryptAndCheck(key: Block, nonce: Bytes, aad: Bytes, ciphertext: array<bv8>, plaintext: array<bv8>,
                         tag: Bytes)
    returns (ok: bool)
    requires plaintext.Length == ciphertext.Length && 11 <= |nonce| <= 13 && 4 <= |tag| <= 16
    modifies plaintext
    ensures plaintext[..] == Ctr(Keyed(key), nonce, old(ciphertext[..]))
    ensures ok <==> tag == MaskedTag(Keyed(key), nonce, ShortAad(aad), plaintext[..], |tag|)
  {
    hide Cipher;
    hide Ctr;
    hide CounterBlock;
    hide Mac;
    hide XorPrefix;
    hide ShortAad;
    var aes := new Aes128(key);
    var a, s0 := new bv8[16], new bv8[16];
    BuildCtr(a, nonce, 0);
    aes.Encrypt(a, s0);
    CtrDecrypt(aes, nonce, ciphertext, plaintext);
    var x := ComputeMac(aes, nonce, aad, plaintext, |tag|);
    ok := TagMatches(x[..], s0[..], tag);
  }

  /**
   * The decryptor. Lengths and counters are 32-bit, so a nonce that passes the guard must leave a length field of
   * at most four octets.
   */
  method AesCcmAuthDecrypt(key: Block, nonce: Bytes, aad: Bytes, ciphertext: array<bv8>, plaintext: array<bv8>,
                           tag: Bytes)
    returns (ok: bool)
    requires plaintext.Length == ciphertext.Length
    requires !(7 <= |nonce| <= 10) && ciphertext.Length < 0x1_0000_0000
    modifies plaintext
    ensures !NonceOk(nonce) || !(4 <= |tag| <= 16) ==> !ok && plaintext[..] == old(plaintext[..])
    ensures NonceOk(nonce) && 4 <= |tag| <= 16 ==>
      && plaintext[..] == Ctr(Keyed(key), nonce, old(ciphertext[..]))
      && (ok <==> tag == MaskedTag(Keyed(key), nonce, ShortAad(aad), plaintext[..], |tag|))
  {
    if |nonce| < 7 || |nonce| > 13 || |tag| < 4 || |tag| > 16 { return false; }
    ok := DecryptAndCheck(key, nonce, aad, ciphertext, plaintext, tag);
  }

  /** Under AES, the decryptor's verdict and output are those of RFC 3610 (additional data below 0xFF00 octets). */
  method OpenSealed(key: Block, nonce: Bytes, aad: Bytes, ciphertext: array<bv8>, plaintext: array<bv8>, tag: Bytes)
    returns (ok: bool)
    requires plaintext.Length == ciphertext.Length
    requires 11 <= |nonce| <= 13 && 4 <= |tag| <= 16 && |aad| < 0xFF00
    requires ciphertext.Length < Pow256(15 - |nonce|) && ciphertext.Length < 0x1_0000_0000
    modifies plaintext
    ensures Opened(ok, plaintext[..]) == Decrypt(Keyed(key), nonce, aad, Sealed(old(ciphertext[..]), tag))
  {
    ShortAadIsStandard(aad);
    ok := AesCcmAuthDecrypt(key, nonce, aad, ciphertext, plaintext, tag);
  }
}
