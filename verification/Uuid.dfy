/** 16/32/128-bit Bluetooth UUIDs (components/ble_device_base/ble_device.cpp) and their two wire forms. */
module Uuid {
  import opened Basics

  type Byte = b: int | 0 <= b < 256
  type Bytes16 = s: seq<Byte> | |s| == 16 witness seq(16, _ => 0)
  type Word16 = v: int | 0 <= v < 0x1_0000
  type Word32 = v: int | 0 <= v < 0x1_0000_0000

  datatype ESPBTUUID = Unset | Uuid16(v16: Word16) | Uuid32(v32: Word32) | Uuid128(bytes: Bytes16)

  /** The Bluetooth base UUID 00000000-0000-1000-8000-00805F9B34FB, least significant byte first. */
  const BASE: Bytes16 :=
    [0xFB, 0x34, 0x9B, 0x5F, 0x80, 0x00, 0x00, 0x80, 0x00, 0x10, 0x00, 0x00, 0x00, 0x00, 0x00, 0x00]

  /** The low `n` octets of `v`, least significant first. */
  function LowOctets(v: nat, n: nat): (r: seq<Byte>)
    ensures |r| == n
  {
    if n == 0 then [] else [(v % 256) as Byte] + LowOctets(v / 256, n - 1)
  }

  /** The number with these octets. */
  function Pack(b: seq<Byte>): nat {
    if b == [] then 0 else b[0] as int + 256 * Pack(b[1..])
  }

  lemma {:induction false} PackBound(b: seq<Byte>)
    ensures Pack(b) < Pow256(|b|)
  {
    if b != [] { PackBound(b[1..]); }
  }

  /** Splitting a packed number gives its octets back. */
  lemma {:induction false} OctetsOfPack(b: seq<Byte>)
    ensures LowOctets(Pack(b), |b|) == b
  {
    if b != [] {
      OctetsOfPack(b[1..]);
      assert Pack(b) % 256 == b[0] as int && Pack(b) / 256 == Pack(b[1..]);
    }
  }

  lemma {:induction false} PackLowOctets(v: nat, n: nat)
    requires v < Pow256(n)
    ensures Pack(LowOctets(v, n)) == v
  {
    if n > 0 {
      PackLowOctets(v / 256, n - 1);
      assert LowOctets(v, n)[1..] == LowOctets(v / 256, n - 1);
    }
  }

  lemma {:induction false} PackInjective(a: seq<Byte>, b: seq<Byte>)
    requires |a| == |b| && Pack(a) == Pack(b)
    ensures a == b
    decreases |a|
  {
    if a != [] {
      assert Pack(a) % 256 == a[0] as int && Pack(b) % 256 == b[0] as int;
      PackInjective(a[1..], b[1..]);
      assert a == [a[0]] + a[1..] && b == [b[0]] + b[1..];
    }
  }

  /** Expansion of a set UUID: the short value goes to bytes 12 and up of the base. */
  function Expand(u: ESPBTUUID): Bytes16 {
    match u
    case Unset => BASE
    case Uuid16(v) => BASE[..12] + LowOctets(v, 2) + BASE[14..]
    case Uuid32(v) => BASE[..12] + LowOctets(v, 4)
    case Uuid128(b) => b
  }

  /** The comparison operator, case by case as in the code. */
  predicate Equal(a: ESPBTUUID, b: ESPBTUUID) {
    match (a, b)
    case (Unset, Unset) => true
    case (Uuid16(v), Uuid16(w)) => v == w
    case (Uuid32(v), Uuid32(w)) => v == w
    case (Uuid128(v), Uuid128(w)) => v == w
    case (Unset, _) => false
    case (_, Unset) => false
    case (_, _) => Expand(a) == Expand(b)
  }

  lemma OctetsDetermine(v: nat, w: nat, n: nat)
    requires v < Pow256(n) && w < Pow256(n)
    ensures LowOctets(v, n) == LowOctets(w, n) <==> v == w
  {
    PackLowOctets(v, n);
    PackLowOctets(w, n);
  }

  lemma Powers()
    ensures Pow256(2) == 0x1_0000 && Pow256(4) == 0x1_0000_0000
  {
  }

  /** On set UUIDs of whatever widths, comparison is equality of the 128-bit expansions; unset equals only unset. */
  lemma EqualIsExpansionEquality(a: ESPBTUUID, b: ESPBTUUID)
    ensures Equal(a, b) <==> (a.Unset? <==> b.Unset?) && Expand(a) == Expand(b)
  {
    var x, y := Expand(a), Expand(b);
    Powers();
    hide LowOctets;
    if a.Uuid16? && b.Uuid16? {
      OctetsDetermine(a.v16, b.v16, 2);
      assert x[12..14] == LowOctets(a.v16, 2) && y[12..14] == LowOctets(b.v16, 2);
    } else if a.Uuid32? && b.Uuid32? {
      OctetsDetermine(a.v32, b.v32, 4);
      assert x[12..] == LowOctets(a.v32, 4) && y[12..] == LowOctets(b.v32, 4);
    }
  }

  /** Hence it is an equivalence relation, across widths. */
  lemma EqualIsEquivalence(a: ESPBTUUID, b: ESPBTUUID, c: ESPBTUUID)
    ensures Equal(a, a)
    ensures Equal(a, b) ==> Equal(b, a)
    ensures Equal(a, b) && Equal(b, c) ==> Equal(a, c)
  {
    hide Equal;
    hide Expand;
    EqualIsExpansionEquality(a, a);
    EqualIsExpansionEquality(a, b);
    EqualIsExpansionEquality(b, a);
    EqualIsExpansionEquality(b, c);
    EqualIsExpansionEquality(a, c);
  }

  /** Widening does not change what a UUID equals. */
  function As128Bit(u: ESPBTUUID): (r: ESPBTUUID)
    ensures Equal(u, r) && (u.Unset? || r.Uuid128?)
  {
    if u.Unset? || u.Uuid128? then u else Uuid128(Expand(u))
  }

  // ---- Wire packing: two 64-bit words, most significant first ----

  /** As computed: bytes for a 128-bit UUID, two constants around the value for a short one. */
  function WirePacked(u: ESPBTUUID): (nat, nat)
    requires !u.Unset?
  {
    match u
    case Uuid128(b) => (Pack(b[8..]), Pack(b[..8]))
    case Uuid16(v) => (v * 0x1_0000_0000 + 0x1000, 0x8000_0080_5F9B_34FB)
    case Uuid32(v) => (v * 0x1_0000_0000 + 0x1000, 0x8000_0080_5F9B_34FB)
  }

  lemma PackStep(x: Byte, b: seq<Byte>)
    ensures Pack([x] + b) == x as int + 256 * Pack(b)
  {
    assert ([x] + b)[1..] == b;
  }

  lemma PackShort(b: seq<Byte>)
    requires |b| == 4
    ensures Pack([0x00, 0x10, 0x00, 0x00] + b) == 0x1000 + 0x1_0000_0000 * Pack(b)
  {
    hide Pack;
    PackStep(0, b);
    PackStep(0, [0] + b);
    PackStep(0x10, [0, 0] + b);
    PackStep(0, [0x10, 0, 0] + b);
    assert [0] + ([0] + b) == [0, 0] + b && [0x10] + ([0, 0] + b) == [0x10, 0, 0] + b;
    assert [0] + ([0x10, 0, 0] + b) == [0x00, 0x10, 0x00, 0x00] + b;
  }

  lemma PackBase()
    ensures Pack(BASE[..8]) == 0x8000_0080_5F9B_34FB
  {
    assert BASE[..8] == [0xFB] + ([0x34] + ([0x9B] + ([0x5F] + ([0x80] + ([0x00] + ([0x00] + ([0x80] + [])))))));
    PackStep(0x80, []);
    PackStep(0x00, [0x80] + []);
    PackStep(0x00, [0x00] + ([0x80] + []));
    PackStep(0x80, [0x00] + ([0x00] + ([0x80] + [])));
    PackStep(0x5F, [0x80] + ([0x00] + ([0x00] + ([0x80] + []))));
    PackStep(0x9B, [0x5F] + ([0x80] + ([0x00] + ([0x00] + ([0x80] + [])))));
    PackStep(0x34, [0x9B] + ([0x5F] + ([0x80] + ([0x00] + ([0x00] + ([0x80] + []))))));
    PackStep(0xFB, [0x34] + ([0x9B] + ([0x5F] + ([0x80] + ([0x00] + ([0x00] + ([0x80] + [])))))));
  }

  /** Both short forms widen to the same four octets. */
  lemma {:induction false} ShortOctets(v: Word16)
    ensures LowOctets(v, 2) + [0, 0] == LowOctets(v, 4)
  {
    assert LowOctets(v, 4) == [(v % 256) as Byte] + ([(v / 256 % 256) as Byte] + LowOctets(v / 256 / 256, 2));
    assert v / 256 / 256 == 0;
  }

  /** The halves of a short form's expansion: the low half of the base, and the value above the rest of it. */
  lemma ShortExpansion(u: ESPBTUUID)
    requires u.Uuid16? || u.Uuid32?
    ensures Expand(u)[..8] == BASE[..8]
    ensures Expand(u)[8..] == [0x00, 0x10, 0x00, 0x00] + LowOctets(if u.Uuid16? then u.v16 else u.v32, 4)
  {
    if u.Uuid16? { ShortOctets(u.v16); }
    hide LowOctets;
    assert BASE[14..] == [0, 0];
  }

  lemma WirePackedIsExpansion(u: ESPBTUUID)
    requires !u.Unset?
    ensures WirePacked(u) == (Pack(Expand(u)[8..]), Pack(Expand(u)[..8]))
  {
    if !u.Uuid128? {
      var v: nat := if u.Uuid16? then u.v16 else u.v32;
      Powers();
      PackLowOctets(v, 4);
      PackShort(LowOctets(v, 4));
      PackBase();
      ShortExpansion(u);
      hide Pack, LowOctets, Expand;
      assert WirePacked(u).0 == Pack(Expand(u)[8..]);
    }
  }

  /** Two set UUIDs look the same on the wire exactly when they compare equal. */
  lemma WireAgreesWithEqual(a: ESPBTUUID, b: ESPBTUUID)
    requires !a.Unset? && !b.Unset?
    ensures WirePacked(a) == WirePacked(b) <==> Equal(a, b)
  {
    hide Pack;
    hide Expand;
    hide WirePacked;
    var x, y := Expand(a), Expand(b);
    WirePackedIsExpansion(a);
    WirePackedIsExpansion(b);
    EqualIsExpansionEquality(a, b);
    if WirePacked(a) == WirePacked(b) {
      PackInjective(x[8..], y[8..]);
      PackInjective(x[..8], y[..8]);
      assert x == x[..8] + x[8..] && y == y[..8] + y[8..];
    }
  }

  /** The field a UUID goes into: the two words, or a number for clients that understand short forms. */
  datatype WireUuid = Long(high: nat, low: nat) | Short(value: Word32)

  function FillGattUuid(u: ESPBTUUID, efficient: bool): WireUuid
    requires !u.Unset?
  {
    if !efficient || u.Uuid128? then Long(WirePacked(u).0, WirePacked(u).1)
    else Short(if u.Uuid16? then u.v16 else u.v32)
  }

  /** What a client reads: a short form is a value on the base UUID. */
  function ReadGattUuid(w: WireUuid): ESPBTUUID {
    match w
    case Long(high, low) => Uuid128(LowOctets(low, 8) + LowOctets(high, 8))
    case Short(v) => Uuid32(v)
  }

  /** Whichever form is chosen, the client reads a UUID that compares equal to the one sent. */
  lemma WireRoundTrip(u: ESPBTUUID, efficient: bool)
    requires !u.Unset?
    ensures Equal(ReadGattUuid(FillGattUuid(u, efficient)), u)
  {
    var x, r := Expand(u), ReadGattUuid(FillGattUuid(u, efficient));
    EqualIsExpansionEquality(r, u);
    if !efficient || u.Uuid128? {
      WirePackedIsExpansion(u);
      OctetsOfPack(x[..8]);
      OctetsOfPack(x[8..]);
      hide LowOctets, Pack, Equal;
      assert x == x[..8] + x[8..];
    } else if u.Uuid16? {
      ShortOctets(u.v16);
      hide LowOctets, Equal;
      assert BASE[14..] == [0, 0];
      assert BASE[..12] + (LowOctets(u.v16, 2) + [0, 0]) == BASE[..12] + LowOctets(u.v16, 2) + BASE[14..];
    }
  }

  // ---- The dashed text form XXXXXXXX-XXXX-XXXX-XXXX-XXXXXXXXXXXX ----

  function HexChar(n: nat): char
    requires n < 16
  {
    if n < 10 then (n as char) + '0' else (n - 10) as char + 'A'
  }

  /** The parser's digit value: letters shift down by seven, then the low four bits count. */
  function Digit(c: char): nat { (if c > '9' then c as int - 7 else c as int) % 16 }

  lemma DigitOfHexChar(n: nat)
    requires n < 16
    ensures Digit(HexChar(n)) == n && HexChar(n) != '-'
  {
  }

  /** The digits of hexadecimal text, either case of a letter the same. */
  lemma DigitReads(c: char)
    ensures '0' <= c <= '9' ==> Digit(c) == c as int - '0' as int
    ensures 'A' <= c <= 'F' ==> Digit(c) == 10 + (c as int - 'A' as int)
    ensures 'a' <= c <= 'f' ==> Digit(c) == 10 + (c as int - 'a' as int)
  {
  }

  /** Where the two digits of octet `k` (counted from the most significant) stand. */
  function Position(k: nat): nat {
    2 * k + (if k < 4 then 0 else if k < 6 then 1 else if k < 8 then 2 else if k < 10 then 3 else 4)
  }

  predicate DashAt(p: nat) { p == 8 || p == 13 || p == 18 || p == 23 }

  /** Dashes where the form has them and nowhere else. */
  predicate Dashed(s: string) {
    |s| == 36 && forall p :: 0 <= p < 36 ==> (s[p] == '-' <==> DashAt(p))
  }

  function OctetText(s: string, k: nat): nat
    requires |s| == 36 && k < 16
  {
    16 * Digit(s[Position(k)]) + Digit(s[Position(k) + 1])
  }

  method ToDashed(b: Bytes16) returns (s: string)
    ensures Dashed(s) && forall k :: 0 <= k < 16 ==> OctetText(s, k) == b[15 - k]
  {
    s := "";
    var i := 15;
    while i >= 0
      invariant -1 <= i <= 15 && |s| == (if i == -1 then 36 else Position(15 - i))
      invariant forall p :: 0 <= p < |s| ==> (s[p] == '-' <==> DashAt(p))
      invariant forall k :: 0 <= k < 15 - i ==>
        s[Position(k)] == HexChar(b[15 - k] / 16) && s[Position(k) + 1] == HexChar(b[15 - k] % 16)
    {
      var octet := b[i];
      DigitOfHexChar(octet / 16);
      DigitOfHexChar(octet % 16);
      s := s + [HexChar(octet / 16), HexChar(octet % 16)];
      if i == 12 || i == 10 || i == 8 || i == 6 { s := s + "-"; }
      i := i - 1;
    }
    forall k | 0 <= k < 16 ensures OctetText(s, k) == b[15 - k] {
      DigitOfHexChar(b[15 - k] / 16);
      DigitOfHexChar(b[15 - k] % 16);
    }
  }

  // ---- Parsing 36 characters: an octet starts at the next character, or behind it if that is a dash ----

  function OctetStart(s: string, i: nat): nat
    requires i < |s|
  {
    if s[i] == '-' then i + 1 else i
  }

  /** Where the octets stand that are read from character `i` on. */
  function Starts(s: string, i: nat): seq<nat>
    decreases |s| - i
  {
    if i >= |s| then [] else [OctetStart(s, i)] + Starts(s, OctetStart(s, i) + 2)
  }

  /** Where the reading ends, and how many dashes were stepped over. */
  function End(s: string, i: nat): nat
    decreases |s| - i
  {
    if i >= |s| then i else End(s, OctetStart(s, i) + 2)
  }

  function Skipped(s: string, i: nat): nat
    decreases |s| - i
  {
    if i >= |s| then 0 else OctetStart(s, i) - i + Skipped(s, OctetStart(s, i) + 2)
  }

  lemma ReadingStep(s: string, i: nat)
    ensures i >= |s| ==> Starts(s, i) == [] && End(s, i) == i && Skipped(s, i) == 0
    ensures i < |s| ==>
      var p := OctetStart(s, i);
      && Starts(s, i) == [p] + Starts(s, p + 2) && End(s, i) == End(s, p + 2)
      && Skipped(s, i) == p - i + Skipped(s, p + 2)
  {
  }

  /** What is read is octets and dashes, and only the last octet can reach past the text. */
  lemma {:induction false} ReadingLength(s: string, i: nat)
    requires i <= |s| + 2
    ensures End(s, i) == i + 2 * |Starts(s, i)| + Skipped(s, i) && |s| <= End(s, i) <= |s| + 2
    ensures i <= |s| ==> (End(s, i) == |s| <==> forall k :: 0 <= k < |Starts(s, i)| ==> Starts(s, i)[k] + 2 <= |s|)
    decreases |s| + 2 - i
  {
    hide Starts, End, Skipped;
    ReadingStep(s, i);
    if i < |s| {
      var p := OctetStart(s, i);
      ReadingLength(s, p + 2);
      if p + 2 > |s| { ReadingStep(s, p + 2); }
      var all, rest := Starts(s, i), Starts(s, p + 2);
      assert all[0] == p && all[1..] == rest;
      if p + 2 <= |s| && End(s, i) != |s| {
        var k :| 0 <= k < |rest| && rest[k] + 2 > |s|;
        assert all[k + 1] == rest[k];
      }
    }
  }

  /** Reading stays inside the text, and writing inside the sixteen octets. */
  predicate Inside(s: string) {
    |Starts(s, 0)| <= 16 && forall k :: 0 <= k < |Starts(s, 0)| ==> Starts(s, 0)[k] + 2 <= |s|
  }

  /**
   * Of 36 characters, exactly those are parsed inside the buffers that have a dash in front of at least four octets and
   * end with an octet.
   */
  lemma InsideExact(s: string)
    requires |s| == 36
    ensures Inside(s) <==> Skipped(s, 0) >= 4 && End(s, 0) == 36
  {
    ReadingLength(s, 0);
    hide Starts, End, Skipped;
  }

  /** Text with its dashes where the form has them is. */
  lemma DashedIsInside(s: string)
    requires Dashed(s)
    ensures Inside(s) && |Starts(s, 0)| == 16 && forall k :: 0 <= k < 16 ==> Starts(s, 0)[k] == Position(k)
  {
    hide Starts;
    StartsFrom(s, 16);
  }

  /** Where the last `n` octets of the dashed form are read from. */
  function Before(n: nat): nat
    requires n <= 16
  {
    if n == 16 then 0 else Position(15 - n) + 2
  }

  lemma {:induction false} StartsFrom(s: string, n: nat)
    requires Dashed(s) && n <= 16
    ensures |Starts(s, Before(n))| == n
    ensures forall k :: 0 <= k < n ==> Starts(s, Before(n))[k] == Position(16 - n + k)
  {
    hide Starts, End, Skipped;
    ReadingStep(s, Before(n));
    if n > 0 {
      StartsFrom(s, n - 1);
      assert OctetStart(s, Before(n)) == Position(16 - n) && Before(n - 1) == Position(16 - n) + 2;
    }
  }

  /** Octet `k` of what is read from the start. */
  function ReadOctet(s: string, k: nat): nat
    requires Inside(s) && k < |Starts(s, 0)|
  {
    16 * Digit(s[Starts(s, 0)[k]]) + Digit(s[Starts(s, 0)[k] + 1])
  }

  /** The octets of 36 characters, the first one last, or nothing when parsing them would leave the buffers. */
  method FromDashed(s: string) returns (r: Option<seq<Byte>>)
    requires |s| == 36
    ensures r.Some? <==> Inside(s)
    ensures r.Some? ==> |r.value| == 16
    ensures r.Some? ==> forall k :: 0 <= k < |Starts(s, 0)| ==> r.value[15 - k] as int == ReadOctet(s, k)
    ensures Dashed(s) ==> r.Some? && forall k :: 0 <= k < 16 ==> r.value[15 - k] as int == OctetText(s, k)
  {
    hide Starts, End, Skipped, Digit, Position;
    if Dashed(s) { DashedIsInside(s); }
    ghost var all := Starts(s, 0);
    var b: seq<Byte> := seq(16, _ => 0);
    var i, n := 0, 0;
    while i < |s|
      invariant |b| == 16 && 0 <= n <= 16 && n <= |all| && all[n..] == Starts(s, i)
      invariant forall k :: 0 <= k < n ==> all[k] + 2 <= |s|
      invariant forall k :: 0 <= k < n ==> b[15 - k] as int == 16 * Digit(s[all[k]]) + Digit(s[all[k] + 1])
      decreases |s| - i
    {
      ReadingStep(s, i);
      assert all[n] == all[n..][0] && all[n + 1..] == all[n..][1..];
      if s[i] == '-' { i := i + 1; }
      if n == 16 || i + 1 >= |s| { return None; }
      b := b[15 - n := OctetOf(s[i], s[i + 1])];
      n := n + 1;
      i := i + 2;
    }
    ReadingStep(s, i);
    r := Some(b);
  }

  function OctetOf(msb: char, lsb: char): (r: Byte)
    ensures r as int == 16 * Digit(msb) + Digit(lsb)
  {
    (16 * Digit(msb) + Digit(lsb)) as Byte
  }

  /** Printing a 128-bit UUID and parsing it back gives the same UUID. */
  method PrintThenParse(b: Bytes16) returns (r: seq<Byte>)
    ensures r == b
  {
    var s := ToDashed(b);
    var parsed := FromDashed(s);
    r := parsed.value;
    forall j | 0 <= j < 16 ensures r[j] == b[j] {
      assert r[15 - (15 - j)] as int == OctetText(s, 15 - j);
    }
  }
}
