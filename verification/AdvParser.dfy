/** The advertisement payload parser of components/ble_device_base/ble_device.cpp. */
module AdvParser {
  import opened Basics
  import opened Uuid
  import Address
  import Merger

  /** One AD structure (Bluetooth Core, Vol 3, Part C, section 11): a type and up to 254 octets. */
  datatype Ad = Ad(kind: Byte, data: seq<Byte>)

  const MAX_NAME := 29

  datatype ServiceData = ServiceData(uuid: ESPBTUUID, data: seq<Byte>)

  datatype Fields = Fields(
    flags: Option<Byte>, name: seq<Byte>, txPowers: seq<int>, appearance: Option<nat>,
    serviceUuids: seq<ESPBTUUID>, manufacturerDatas: seq<ServiceData>, serviceDatas: seq<ServiceData>)

  const NO_FIELDS := Fields(None, [], [], None, [], [], [])

  // ---- From octets to AD structures ----

  /**
   * The structures a payload is split into: zero lengths are skipped, a structure running past the end stops the
   * split.
   */
  function Split(p: seq<Byte>): seq<Ad> {
    if p == [] then []
    else if p[0] == 0 then Split(p[1..])
    else if 1 + p[0] as int > |p| then []
    else [Ad(p[1], p[2..1 + p[0]])] + Split(p[1 + p[0]..])
  }

  /** The payload ends where a structure or padding ends. */
  predicate WellFormed(p: seq<Byte>) {
    if p == [] then true
    else if p[0] == 0 then WellFormed(p[1..])
    else 1 + p[0] as int <= |p| && WellFormed(p[1 + p[0]..])
  }

  /** A payload as the standard writes it: structures, with zero octets anywhere between them. */
  datatype Piece = Structure(ad: Ad) | Pad

  function EncodeAd(a: Ad): seq<Byte>
    requires |a.data| <= 254
  {
    [1 + |a.data|, a.kind] + a.data
  }

  function EncodePiece(p: Piece): seq<Byte>
    requires p.Structure? ==> |p.ad.data| <= 254
  {
    match p case Pad => [0] case Structure(a) => EncodeAd(a)
  }

  function Encode(ps: seq<Piece>): seq<Byte>
    requires forall p <- ps :: p.Structure? ==> |p.ad.data| <= 254
  {
    if ps == [] then [] else EncodePiece(ps[0]) + Encode(ps[1..])
  }

  function Carried(p: Piece): seq<Ad> { match p case Pad => [] case Structure(a) => [a] }

  function Structures(ps: seq<Piece>): seq<Ad> {
    if ps == [] then [] else Carried(ps[0]) + Structures(ps[1..])
  }

  /** Splitting an encoding recovers exactly its structures, in order. */
  lemma {:induction false} SplitEncode(ps: seq<Piece>)
    requires forall p <- ps :: p.Structure? ==> |p.ad.data| <= 254
    ensures Split(Encode(ps)) == Structures(ps) && WellFormed(Encode(ps))
  {
    if ps != [] {
      SplitEncode(ps[1..]);
      PieceSplits(ps[0], Encode(ps[1..]));
      hide Split, WellFormed, EncodePiece, Carried;
    }
  }

  lemma PieceSplits(p: Piece, rest: seq<Byte>)
    requires p.Structure? ==> |p.ad.data| <= 254
    ensures Split(EncodePiece(p) + rest) == Carried(p) + Split(rest)
    ensures WellFormed(EncodePiece(p) + rest) == WellFormed(rest)
  {
    var e := EncodePiece(p) + rest;
    SplitStep(e);
    match p
    case Pad => assert e[1..] == rest;
    case Structure(a) =>
      var n := 1 + e[0] as int;
      assert e[1] == a.kind && e[2..n] == a.data && e[n..] == rest;
  }

  /** One step of the split. */
  lemma SplitStep(p: seq<Byte>)
    ensures p == [] ==> Split(p) == []
    ensures p != [] && p[0] == 0 ==> Split(p) == Split(p[1..])
    ensures p != [] && p[0] != 0 && 1 + p[0] as int > |p| ==> Split(p) == []
    ensures p != [] && p[0] != 0 && 1 + p[0] as int <= |p| ==>
      Split(p) == [Ad(p[1], p[2..1 + p[0]])] + Split(p[1 + p[0] as int..])
  {
  }

  /** What a payload leaves over after its last whole structure: a length octet, and fewer octets than it asks for. */
  function Tail(p: seq<Byte>): (t: seq<Byte>)
    ensures t == [] <==> WellFormed(p)
    ensures t != [] ==> t[0] != 0 && |t| < 1 + t[0] as int
  {
    if p == [] then []
    else if p[0] == 0 then Tail(p[1..])
    else if 1 + p[0] as int > |p| then p
    else Tail(p[1 + p[0]..])
  }

  /**
   * Every payload is structures and padding followed by nothing, or by a structure that runs past the end, and what it
   * is split into are those structures alone.
   */
  lemma {:induction false} EveryPayload(p: seq<Byte>) returns (ps: seq<Piece>, t: seq<Byte>)
    ensures forall x <- ps :: x.Structure? ==> |x.ad.data| <= 254
    ensures p == Encode(ps) + t && (t != [] ==> t[0] != 0 && |t| < 1 + t[0] as int)
    ensures Split(p) == Structures(ps)
    decreases |p|
  {
    SplitStep(p);
    hide Split, Encode, Structures;
    if p == [] || (p[0] != 0 && 1 + p[0] as int > |p|) {
      ps, t := [], p;
      NoPieces();
    } else {
      var n: nat := 1 + p[0] as int;
      var piece := if p[0] == 0 then Pad else Structure(Ad(p[1], p[2..n]));
      assert EncodePiece(piece) == p[..n] && p == p[..n] + p[n..];
      PieceSplits(piece, p[n..]);
      hide EncodePiece, Carried;
      var rest;
      rest, t := EveryPayload(p[n..]);
      FirstPiece(piece, rest, t);
      ps := [piece] + rest;
    }
  }

  lemma NoPieces()
    ensures Encode([]) == [] && Structures([]) == []
  {
  }

  lemma FirstPiece(x: Piece, rest: seq<Piece>, t: seq<Byte>)
    requires forall p <- [x] + rest :: p.Structure? ==> |p.ad.data| <= 254
    ensures forall p <- rest :: p in [x] + rest
    ensures Encode([x] + rest) + t == EncodePiece(x) + (Encode(rest) + t)
    ensures Structures([x] + rest) == Carried(x) + Structures(rest)
  {
    hide EncodePiece, Carried;
    assert ([x] + rest)[1..] == rest;
  }

  /** What follows a payload is split together with what the payload left over. */
  lemma {:induction false} SplitTail(p: seq<Byte>, q: seq<Byte>)
    ensures Split(p + q) == Split(p) + Split(Tail(p) + q)
    decreases |p|
  {
    hide Split, WellFormed;
    SplitStep(p);
    SplitStep(p + q);
    if p == [] {
      assert p + q == q;
    } else if p[0] == 0 {
      SplitTail(p[1..], q);
      Behind(p, q, 1);
    } else if 1 + p[0] as int <= |p| {
      var n: nat := 1 + p[0] as int;
      SplitTail(p[n..], q);
      Behind(p, q, n);
      hide Tail;
      var first := [Ad(p[1], p[2..n])];
      assert Split(p + q) == first + Split(p[n..] + q) && Split(p) == first + Split(p[n..]);
    }
  }

  lemma Behind(p: seq<Byte>, q: seq<Byte>, n: nat)
    requires 1 <= n <= |p|
    ensures (p + q)[0] == p[0] && (p + q)[n..] == p[n..] + q
    ensures n >= 2 ==> (p + q)[1] == p[1] && (p + q)[2..n] == p[2..n]
  {
  }

  /** A well-formed payload can be followed by anything: the two are split independently. */
  lemma SplitConcat(p: seq<Byte>, q: seq<Byte>)
    requires WellFormed(p)
    ensures Split(p + q) == Split(p) + Split(q)
  {
    SplitTail(p, q);
    assert [] + q == q;
  }

  // ---- From AD structures to fields ----

  function Signed(b: Byte): int { if b < 128 then b else b - 256 }

  /** A UUID of `width` octets, least significant first. */
  function UuidFrom(b: seq<Byte>): ESPBTUUID
    requires |b| == 2 || |b| == 4 || |b| == 16
  {
    PackBound(b);
    Powers();
    if |b| == 2 then Uuid16(Pack(b)) else if |b| == 4 then Uuid32(Pack(b)) else Uuid128(b)
  }

  /** A list of UUIDs of `width` octets each; a short tail is ignored. */
  function UuidList(b: seq<Byte>, width: nat): seq<ESPBTUUID>
    requires width == 2 || width == 4 || width == 16
  {
    if |b| < width then [] else [UuidFrom(b[..width])] + UuidList(b[width..], width)
  }

  /** Data tagged with a UUID of `width` octets. */
  function Tagged(b: seq<Byte>, width: nat): seq<ServiceData>
    requires width == 2 || width == 4 || width == 16
  {
    if |b| < width then [] else [ServiceData(UuidFrom(b[..width]), b[width..])]
  }

  function Apply(f: Fields, a: Ad): Fields {
    var n := |a.data|;
    if a.kind == 0x01 then if n >= 1 then f.(flags := Some(a.data[0])) else f
    else if a.kind == 0x08 || a.kind == 0x09 then if n > |f.name| then f.(name := Clip(a.data, MAX_NAME)) else f
    else if a.kind == 0x0A then if n >= 1 then f.(txPowers := f.txPowers + [Signed(a.data[0])]) else f
    else if a.kind == 0x19 then if n >= 2 then f.(appearance := Some(Pack(a.data[..2]))) else f
    else if a.kind == 0x02 || a.kind == 0x03 then f.(serviceUuids := f.serviceUuids + UuidList(a.data, 2))
    else if a.kind == 0x04 || a.kind == 0x05 then f.(serviceUuids := f.serviceUuids + UuidList(a.data, 4))
    else if a.kind == 0x06 || a.kind == 0x07 then f.(serviceUuids := f.serviceUuids + UuidList(a.data, 16))
    else if a.kind == 0xFF then f.(manufacturerDatas := f.manufacturerDatas + Tagged(a.data, 2))
    else if a.kind == 0x16 then f.(serviceDatas := f.serviceDatas + Tagged(a.data, 2))
    else if a.kind == 0x20 then f.(serviceDatas := f.serviceDatas + Tagged(a.data, 4))
    else if a.kind == 0x21 then f.(serviceDatas := f.serviceDatas + Tagged(a.data, 16))
    else f
  }

  function ApplyAll(f: Fields, ads: seq<Ad>): Fields
    decreases |ads|
  {
    if ads == [] then f else Apply(ApplyAll(f, ads[..|ads| - 1]), ads[|ads| - 1])
  }

  lemma {:induction false} ApplyAllConcat(f: Fields, a: seq<Ad>, b: seq<Ad>)
    ensures ApplyAll(f, a + b) == ApplyAll(ApplyAll(f, a), b)
    decreases |b|
  {
    hide Apply;
    if b == [] {
      assert a + b == a;
    } else {
      ApplyAllConcat(f, a, b[..|b| - 1]);
      assert (a + b)[..|a + b| - 1] == a + b[..|b| - 1];
    }
  }

  function Parse(f: Fields, payload: seq<Byte>): Fields { ApplyAll(f, Split(payload)) }

  /** Parsing a merged legacy frame is parsing the advertisement and then its scan response into the same device. */
  lemma MergedFrameParsesAsBoth(f: Fields, adv: Merger.Report, rsp: Merger.Report)
    requires |adv.data| <= 31 && |rsp.data| <= 31 && WellFormed(adv.data)
    ensures Parse(f, Merger.Render(Merger.Merged(adv, rsp)).data) == Parse(Parse(f, adv.data), rsp.data)
  {
    Merger.MergeIsLossless(adv, rsp);
    SplitConcat(adv.data, rsp.data);
    ApplyAllConcat(f, Split(adv.data), Split(rsp.data));
  }

  // ---- ... and only then ----

  ghost predicate ParsesAsBoth(f: Fields, adv: Merger.Report, rsp: Merger.Report) {
    Parse(f, Merger.Render(Merger.Merged(adv, rsp)).data) == Parse(Parse(f, adv.data), rsp.data)
  }

  lemma FlagsAfter(f: Fields, a: Ad)
    ensures Apply(f, a).flags == if a.kind == 0x01 && |a.data| >= 1 then Some(a.data[0]) else f.flags
  {
  }

  /** A flags value that neither the device nor the cut-off structure has. */
  function SpareFlags(f: Fields, t: seq<Byte>): (x: Byte)
    ensures 3 <= x <= 6 && f.flags != Some(x) && (|t| > 2 ==> t[2] != x)
  {
    var free := (x: Byte) => f.flags != Some(x) && (|t| > 2 ==> t[2] != x);
    if free(3) then 3 else if free(4) then 4 else 5
  }

  /** A response that sets the flags to `x`. */
  function FlagsOnly(x: Byte): seq<Byte> { [2, 1, x] }

  lemma FlagsOnlySplits(x: Byte)
    ensures Split(FlagsOnly(x)) == [Ad(1, [x])]
  {
    SplitStep(FlagsOnly(x));
    assert FlagsOnly(x)[2..3] == [x] && FlagsOnly(x)[3..] == [];
  }

  lemma SetFlags(f: Fields, x: Byte)
    ensures Parse(f, FlagsOnly(x)).flags == Some(x)
  {
    FlagsOnlySplits(x);
    FlagsAfter(f, Ad(1, [x]));
    assert [Ad(1, [x])][..0] == [];
  }

  /** What can be left of that response behind a structure it completes: nothing that sets flags. */
  lemma SplitRests(x: Byte)
    requires 3 <= x <= 6
    ensures Split([]) == [] && Split([x]) == [] && Split([1, x]) == [Ad(x, [])]
  {
    SplitStep([x]);
    SplitStep([1, x]);
    assert [1, x][2..2] == [] && [1, x][2..] == [];
  }

  /** The structure a cut-off one makes of the head of the response sets no flags to `x`. */
  lemma SwallowedFlags(f: Fields, t: seq<Byte>, x: Byte)
    requires t != [] && t[0] != 0 && |t| < 1 + t[0] as int
    requires 3 <= x <= 6 && f.flags != Some(x) && (|t| > 2 ==> t[2] != x)
    ensures ApplyAll(f, Split(t + FlagsOnly(x))).flags != Some(x)
  {
    var r, n := t + FlagsOnly(x), 1 + t[0] as int;
    SplitStep(r);
    hide Split, ApplyAll, Apply;
    if n <= |r| {
      var first := Ad(r[1], r[2..n]);
      RestOfResponse(t, x, n);
      assert r[n..] == [1, x] || r[n..] == [x] || r[n..] == [];
      SplitRests(x);
      assert first.kind == 1 && n > 2 ==> r[2] != x;
      assert first.data != [] ==> first.data[0] == r[2];
      FirstSetsNothing(f, first, Split(r[n..]), x);
    } else {
      NothingApplied(f);
    }
  }

  lemma NothingApplied(f: Fields)
    ensures ApplyAll(f, []) == f
  {
  }

  lemma RestOfResponse(t: seq<Byte>, x: Byte, n: nat)
    requires |t| < n <= |t| + 3
    ensures (t + FlagsOnly(x))[n..] == FlagsOnly(x)[n - |t|..]
    ensures FlagsOnly(x)[n - |t|..] == if n - |t| == 1 then [1, x] else if n - |t| == 2 then [x] else []
  {
  }

  lemma FirstSetsNothing(f: Fields, first: Ad, rest: seq<Ad>, x: Byte)
    requires rest == [] || rest == [Ad(x, [])]
    requires f.flags != Some(x) && (first.kind == 1 && first.data != [] ==> first.data[0] != x)
    ensures ApplyAll(f, [first] + rest).flags != Some(x)
  {
    FlagsAfter(f, first);
    FlagsAfter(Apply(f, first), Ad(x, []));
    hide Apply;
    assert [first][..0] == [] && [first] + [] == [first];
    assert ApplyAll(f, [first]) == Apply(f, first);
    if rest != [] {
      assert ([first] + rest)[..1] == [first];
      assert ApplyAll(f, [first] + rest) == Apply(Apply(f, first), Ad(x, []));
    }
  }

  /**
   * Within the sizes of legacy advertising, an advertisement's merged frames parse as the advertisement and then the
   * response, for every response and every device, exactly when the advertisement is well-formed.
   */
  lemma MergedFrameExact(adv: Merger.Report)
    requires |adv.data| <= 31
    ensures WellFormed(adv.data) <==>
      forall f, rsp: Merger.Report {:trigger ParsesAsBoth(f, adv, rsp)} :: |rsp.data| <= 31 ==>
        ParsesAsBoth(f, adv, rsp)
  {
    if WellFormed(adv.data) {
      forall f, rsp: Merger.Report | |rsp.data| <= 31 ensures ParsesAsBoth(f, adv, rsp) {
        MergedFrameParsesAsBoth(f, adv, rsp);
      }
    } else {
      CutOffFrameLosesFlags(adv);
    }
  }

  /** The failing half: a response that only sets the flags, to a value nothing before it has set. */
  lemma CutOffFrameLosesFlags(adv: Merger.Report)
    requires |adv.data| <= 31 && !WellFormed(adv.data)
    ensures exists f, rsp: Merger.Report :: |rsp.data| <= 31 && !ParsesAsBoth(f, adv, rsp)
  {
    var f, t := Parse(NO_FIELDS, adv.data), Tail(adv.data);
    var x := SpareFlags(f, t);
    var rsp := Merger.Report(adv.mac, adv.addrType, adv.rssi, FlagsOnly(x));
    Merger.MergeIsLossless(adv, rsp);
    SplitTail(adv.data, rsp.data);
    ApplyAllConcat(NO_FIELDS, Split(adv.data), Split(t + rsp.data));
    SwallowedFlags(f, t, x);
    SetFlags(f, x);
    assert !ParsesAsBoth(NO_FIELDS, adv, rsp);
  }

  predicate IsName(a: Ad) { a.kind == 0x08 || a.kind == 0x09 }

  lemma LongerNameKept(f: Fields, a: Ad)
    requires |f.name| <= MAX_NAME
    ensures var r := Apply(f, a);
      && |f.name| <= |r.name| <= MAX_NAME
      && (IsName(a) ==> |Clip(a.data, MAX_NAME)| <= |r.name|)
      && (r.name == f.name || (IsName(a) && r.name == Clip(a.data, MAX_NAME)))
  {
  }

  /** The name kept is the longest seen: never shorter than before, nor than any name structure (up to the buffer). */
  lemma {:induction false} LongestNameWins(f: Fields, ads: seq<Ad>)
    requires |f.name| <= MAX_NAME
    ensures var r := ApplyAll(f, ads);
      && |f.name| <= |r.name| <= MAX_NAME
      && (forall a <- ads :: IsName(a) ==> |Clip(a.data, MAX_NAME)| <= |r.name|)
      && (r.name == f.name || exists a <- ads :: IsName(a) && r.name == Clip(a.data, MAX_NAME))
    decreases |ads|
  {
    if ads != [] {
      var n := |ads| - 1;
      LongestNameWins(f, ads[..n]);
      LongerNameKept(ApplyAll(f, ads[..n]), ads[n]);
      hide Apply, Clip, IsName;
      assert ads == ads[..n] + [ads[n]];
      assert ads[n] in ads;
    }
  }

  // ---- Lists of UUIDs survive encoding ----

  function UuidOctets(u: ESPBTUUID): seq<Byte>
    requires !u.Unset?
  {
    match u
    case Uuid16(v) => LowOctets(v, 2)
    case Uuid32(v) => LowOctets(v, 4)
    case Uuid128(b) => b
  }

  function EncodeUuids(us: seq<ESPBTUUID>): seq<Byte>
    requires forall u <- us :: !u.Unset?
  {
    if us == [] then [] else UuidOctets(us[0]) + EncodeUuids(us[1..])
  }

  lemma UuidListEncode(us: seq<ESPBTUUID>, width: nat)
    requires width == 2 || width == 4 || width == 16
    requires forall u <- us :: !u.Unset? && |UuidOctets(u)| == width
    ensures UuidList(EncodeUuids(us), width) == us
  {
    UuidListTail(us, width, []);
    assert EncodeUuids(us) + [] == EncodeUuids(us);
  }

  /** ... and what follows the last whole UUID is ignored. */
  lemma {:induction false} UuidListTail(us: seq<ESPBTUUID>, width: nat, tail: seq<Byte>)
    requires (width == 2 || width == 4 || width == 16) && |tail| < width
    requires forall u <- us :: !u.Unset? && |UuidOctets(u)| == width
    ensures UuidList(EncodeUuids(us) + tail, width) == us
  {
    if us == [] {
      assert [] + tail == tail;
    } else {
      UuidListTail(us[1..], width, tail);
      var o, rest := UuidOctets(us[0]), EncodeUuids(us[1..]) + tail;
      assert EncodeUuids(us) + tail == o + rest;
      assert (o + rest)[..width] == o && (o + rest)[width..] == rest;
      Powers();
      match us[0]
      case Uuid16(v) => PackLowOctets(v, 2);
      case Uuid32(v) => PackLowOctets(v, 4);
      case _ =>
    }
  }

  /** A structure too short for its format changes nothing; one of a fixed format is read from its first octets. */
  lemma WrongLengths(f: Fields, a: Ad)
    ensures a.data == [] && (a.kind == 0x01 || a.kind == 0x0A) ==> Apply(f, a) == f
    ensures |a.data| < 2 && (a.kind == 0x19 || a.kind == 0xFF || a.kind == 0x16) ==> Apply(f, a) == f
    ensures (|a.data| < 4 && a.kind == 0x20) || (|a.data| < 16 && a.kind == 0x21) ==> Apply(f, a) == f
    ensures a.data != [] && (a.kind == 0x01 || a.kind == 0x0A) ==> Apply(f, a) == Apply(f, Ad(a.kind, a.data[..1]))
    ensures |a.data| >= 2 && a.kind == 0x19 ==> Apply(f, a) == Apply(f, Ad(a.kind, a.data[..2]))
  {
    hide UuidList, Pack;
    if |a.data| >= 2 { assert a.data[..2][..2] == a.data[..2]; }
  }

  // ---- Payloads written by the assigned numbers ----

  /** What an advertiser may want to say; a list of UUIDs or a name is complete or not. */
  datatype Item =
    | FlagsItem(flags: Byte)
    | NameItem(complete: bool, text: seq<Byte>)
    | PowerItem(dbm: int)
    | AppearanceItem(category: Word16)
    | UuidsItem(complete: bool, width: nat, uuids: seq<ESPBTUUID>)
    | ManufacturerItem(company: Word16, data: seq<Byte>)
    | ServiceItem(uuid: ESPBTUUID, data: seq<Byte>)
    | OtherItem(kind: Byte, data: seq<Byte>)

  const ASSIGNED: set<Byte> :=
    {0x01, 0x02, 0x03, 0x04, 0x05, 0x06, 0x07, 0x08, 0x09, 0x0A, 0x16, 0x19, 0x20, 0x21, 0xFF}

  predicate Sayable(i: Item) {
    match i
    case FlagsItem(_) => true
    case NameItem(_, text) => |text| <= 254
    case PowerItem(dbm) => -128 <= dbm < 128
    case AppearanceItem(_) => true
    case UuidsItem(_, width, us) =>
      && (width == 2 || width == 4 || width == 16)
      && (forall u <- us :: !u.Unset? && |UuidOctets(u)| == width) && |EncodeUuids(us)| <= 254
    case ManufacturerItem(_, data) => |data| <= 252
    case ServiceItem(u, data) => !u.Unset? && |UuidOctets(u)| + |data| <= 254
    case OtherItem(kind, data) => kind !in ASSIGNED && |data| <= 254
  }

  /** Bluetooth Assigned Numbers, section 2.3, and the formats of Part A of the supplement to the core specification. */
  function Written(i: Item): (a: Ad)
    requires Sayable(i)
    ensures |a.data| <= 254
  {
    match i
    case FlagsItem(x) => Ad(0x01, [x])
    case NameItem(complete, text) => Ad(if complete then 0x09 else 0x08, text)
    case PowerItem(dbm) => Ad(0x0A, [if dbm < 0 then (256 + dbm) as Byte else dbm as Byte])
    case AppearanceItem(n) => Ad(0x19, LowOctets(n, 2))
    case UuidsItem(complete, width, us) =>
      Ad(if width == 2 then (if complete then 0x03 else 0x02)
         else if width == 4 then (if complete then 0x05 else 0x04)
         else if complete then 0x07 else 0x06, EncodeUuids(us))
    case ManufacturerItem(company, data) => Ad(0xFF, LowOctets(company, 2) + data)
    case ServiceItem(u, data) =>
      Ad(if u.Uuid16? then 0x16 else if u.Uuid32? then 0x20 else 0x21, UuidOctets(u) + data)
    case OtherItem(kind, data) => Ad(kind, data)
  }

  /** What the device shows after it has been told. */
  function Shown(f: Fields, i: Item): Fields {
    match i
    case FlagsItem(x) => f.(flags := Some(x))
    case NameItem(_, text) => if |text| > |f.name| then f.(name := Clip(text, MAX_NAME)) else f
    case PowerItem(dbm) => f.(txPowers := f.txPowers + [dbm])
    case AppearanceItem(n) => f.(appearance := Some(n))
    case UuidsItem(_, _, us) => f.(serviceUuids := f.serviceUuids + us)
    case ManufacturerItem(company, data) =>
      f.(manufacturerDatas := f.manufacturerDatas + [ServiceData(Uuid16(company), data)])
    case ServiceItem(u, data) => f.(serviceDatas := f.serviceDatas + [ServiceData(u, data)])
    case OtherItem(_, _) => f
  }

  function ShownAll(f: Fields, items: seq<Item>): Fields
    decreases |items|
  {
    if items == [] then f else Shown(ShownAll(f, items[..|items| - 1]), items[|items| - 1])
  }

  function WrittenAll(items: seq<Item>): (ads: seq<Ad>)
    requires forall i <- items :: Sayable(i)
    ensures |ads| == |items| && forall a <- ads :: |a.data| <= 254
  {
    seq(|items|, k requires 0 <= k < |items| => Written(items[k]))
  }

  lemma FirstOctets(a: seq<Byte>, b: seq<Byte>)
    ensures (a + b)[..|a|] == a && (a + b)[|a|..] == b
  {
  }

  lemma OctetsRead(u: ESPBTUUID)
    requires !u.Unset?
    ensures |UuidOctets(u)| == 2 || |UuidOctets(u)| == 4 || |UuidOctets(u)| == 16
    ensures UuidFrom(UuidOctets(u)) == u
  {
    Powers();
    match u
    case Uuid16(v) => PackLowOctets(v, 2);
    case Uuid32(v) => PackLowOctets(v, 4);
    case _ =>
  }

  /** One structure shows what was written. */
  lemma ApplyWritten(f: Fields, i: Item)
    requires Sayable(i)
    ensures Apply(f, Written(i)) == Shown(f, i)
  {
    match i
    case UuidsItem(complete, width, us) => UuidsWritten(f, complete, width, us);
    case AppearanceItem(n) => AppearanceRead(n);
    case ManufacturerItem(company, data) => ManufacturerWritten(f, company, data);
    case ServiceItem(u, data) => ServiceWritten(f, u, data);
    case _ =>
  }

  lemma UuidsWritten(f: Fields, complete: bool, width: nat, us: seq<ESPBTUUID>)
    requires Sayable(UuidsItem(complete, width, us))
    ensures Apply(f, Written(UuidsItem(complete, width, us))) == Shown(f, UuidsItem(complete, width, us))
  {
    UuidListEncode(us, width);
    hide UuidList, EncodeUuids, UuidOctets, Tagged;
  }

  /** A tag of two, four or sixteen octets, and what follows it. */
  lemma TaggedRead(u: ESPBTUUID, data: seq<Byte>)
    requires !u.Unset?
    ensures var o := UuidOctets(u);
      && (|o| == 2 || |o| == 4 || |o| == 16) && (u.Uuid16? <==> |o| == 2) && (u.Uuid32? <==> |o| == 4)
      && Tagged(o + data, |o|) == [ServiceData(u, data)]
  {
    OctetsRead(u);
    FirstOctets(UuidOctets(u), data);
    hide UuidFrom;
  }

  lemma ManufacturerWritten(f: Fields, company: Word16, data: seq<Byte>)
    requires |data| <= 252
    ensures Apply(f, Written(ManufacturerItem(company, data))) == Shown(f, ManufacturerItem(company, data))
  {
    TaggedRead(Uuid16(company), data);
    assert UuidOctets(Uuid16(company)) == LowOctets(company, 2);
    hide Tagged, UuidOctets, UuidList, LowOctets;
  }

  lemma ServiceWritten(f: Fields, u: ESPBTUUID, data: seq<Byte>)
    requires !u.Unset? && |UuidOctets(u)| + |data| <= 254
    ensures Apply(f, Written(ServiceItem(u, data))) == Shown(f, ServiceItem(u, data))
  {
    TaggedRead(u, data);
    hide Tagged, UuidOctets, UuidList;
  }

  lemma AppearanceRead(n: Word16)
    ensures |LowOctets(n, 2)| == 2 && Pack(LowOctets(n, 2)[..2]) == n
  {
    Powers();
    PackLowOctets(n, 2);
    assert LowOctets(n, 2)[..2] == LowOctets(n, 2);
  }

  lemma {:induction false} ApplyAllWritten(f: Fields, items: seq<Item>)
    requires forall i <- items :: Sayable(i)
    ensures ApplyAll(f, WrittenAll(items)) == ShownAll(f, items)
    decreases |items|
  {
    hide Apply, Written, Shown, Sayable;
    if items != [] {
      var n := |items| - 1;
      ApplyAllWritten(f, items[..n]);
      ApplyWritten(ShownAll(f, items[..n]), items[n]);
      assert WrittenAll(items)[..n] == WrittenAll(items[..n]);
    }
  }

  /** Zero octets behind each structure. */
  function Pieces(ads: seq<Ad>, pads: seq<nat>): (ps: seq<Piece>)
    requires |pads| == |ads| && forall a <- ads :: |a.data| <= 254
    ensures forall p <- ps :: p.Structure? ==> |p.ad.data| <= 254
    ensures Structures(ps) == ads
    decreases |ads|
  {
    if ads == [] then []
    else
      var rest := Pieces(ads[1..], pads[1..]);
      var zeros := seq(pads[0], _ => Pad);
      PadsCarryNothing(zeros, rest);
      assert ([Structure(ads[0])] + (zeros + rest))[1..] == zeros + rest;
      [Structure(ads[0])] + (zeros + rest)
  }

  lemma {:induction false} PadsCarryNothing(zeros: seq<Piece>, rest: seq<Piece>)
    requires forall z <- zeros :: z.Pad?
    ensures Structures(zeros + rest) == Structures(rest)
  {
    if zeros == [] {
      assert zeros + rest == rest;
    } else {
      assert zeros[0] in zeros;
      PadsCarryNothing(zeros[1..], rest);
      var all := zeros + rest;
      assert all[0] == zeros[0] && all[1..] == zeros[1..] + rest;
      assert [] + Structures(all[1..]) == Structures(all[1..]);
    }
  }

  /**
   * Any payload written by the assigned numbers, with zero octets between its structures, shows on the device what was
   * said, and what has no assigned number shows nothing.
   */
  lemma ParseWritten(f: Fields, items: seq<Item>, pads: seq<nat>)
    requires (forall i <- items :: Sayable(i)) && |pads| == |items|
    ensures Parse(f, Encode(Pieces(WrittenAll(items), pads))) == ShownAll(f, items)
  {
    SplitEncode(Pieces(WrittenAll(items), pads));
    ApplyAllWritten(f, items);
  }

  // ---- Every set of fields can be said, and is read back ----

  ghost predicate Writable(f: Fields) {
    && |f.name| <= MAX_NAME
    && (forall p <- f.txPowers :: -128 <= p < 128)
    && (f.appearance.Some? ==> f.appearance.value < 0x1_0000)
    && (forall u <- f.serviceUuids :: !u.Unset?)
    && (forall d <- f.manufacturerDatas :: d.uuid.Uuid16? && |d.data| <= 252)
    && (forall d <- f.serviceDatas :: !d.uuid.Unset? && |UuidOctets(d.uuid)| + |d.data| <= 254)
  }

  function PowersSaid(xs: seq<int>): seq<Item> {
    seq(|xs|, k requires 0 <= k < |xs| => PowerItem(xs[k]))
  }

  lemma {:induction false} PowersSaidShown(f: Fields, xs: seq<int>)
    ensures ShownAll(f, PowersSaid(xs)) == f.(txPowers := f.txPowers + xs)
    decreases |xs|
  {
    if xs == [] {
      assert f.txPowers + xs == f.txPowers;
    } else {
      var n := |xs| - 1;
      PowersSaidShown(f, xs[..n]);
      assert PowersSaid(xs)[..n] == PowersSaid(xs[..n]) && (f.txPowers + xs[..n]) + [xs[n]] == f.txPowers + xs;
    }
  }

  function UuidsSaid(xs: seq<ESPBTUUID>): seq<Item> {
    seq(|xs|, k requires 0 <= k < |xs| => UuidsItem(true, Width(xs[k]), [xs[k]]))
  }

  lemma {:induction false} UuidsSaidShown(f: Fields, xs: seq<ESPBTUUID>)
    ensures ShownAll(f, UuidsSaid(xs)) == f.(serviceUuids := f.serviceUuids + xs)
    decreases |xs|
  {
    if xs == [] {
      assert f.serviceUuids + xs == f.serviceUuids;
    } else {
      var n := |xs| - 1;
      UuidsSaidShown(f, xs[..n]);
      assert UuidsSaid(xs)[..n] == UuidsSaid(xs[..n]) && (f.serviceUuids + xs[..n]) + [xs[n]] == f.serviceUuids + xs;
    }
  }

  function ManufacturersSaid(xs: seq<ServiceData>): seq<Item>
    requires forall d <- xs :: d.uuid.Uuid16?
  {
    seq(|xs|, k requires 0 <= k < |xs| => ManufacturerItem(xs[k].uuid.v16, xs[k].data))
  }

  lemma {:induction false} ManufacturersSaidShown(f: Fields, xs: seq<ServiceData>)
    requires forall d <- xs :: d.uuid.Uuid16?
    ensures ShownAll(f, ManufacturersSaid(xs)) == f.(manufacturerDatas := f.manufacturerDatas + xs)
    decreases |xs|
  {
    if xs == [] {
      assert f.manufacturerDatas + xs == f.manufacturerDatas;
    } else {
      var n := |xs| - 1;
      ManufacturersSaidShown(f, xs[..n]);
      assert ManufacturersSaid(xs)[..n] == ManufacturersSaid(xs[..n]);
      assert (f.manufacturerDatas + xs[..n]) + [xs[n]] == f.manufacturerDatas + xs;
    }
  }

  function ServicesSaid(xs: seq<ServiceData>): seq<Item> {
    seq(|xs|, k requires 0 <= k < |xs| => ServiceItem(xs[k].uuid, xs[k].data))
  }

  lemma {:induction false} ServicesSaidShown(f: Fields, xs: seq<ServiceData>)
    ensures ShownAll(f, ServicesSaid(xs)) == f.(serviceDatas := f.serviceDatas + xs)
    decreases |xs|
  {
    if xs == [] {
      assert f.serviceDatas + xs == f.serviceDatas;
    } else {
      var n := |xs| - 1;
      ServicesSaidShown(f, xs[..n]);
      assert ServicesSaid(xs)[..n] == ServicesSaid(xs[..n]);
      assert (f.serviceDatas + xs[..n]) + [xs[n]] == f.serviceDatas + xs;
    }
  }

  function Width(u: ESPBTUUID): nat { if u.Uuid16? then 2 else if u.Uuid32? then 4 else 16 }

  /** The fields that hold one value. */
  function SingleSaid(f: Fields): seq<Item>
    requires Writable(f)
  {
    (if f.flags.Some? then [FlagsItem(f.flags.value)] else [])
    + (if f.name != [] then [NameItem(true, f.name)] else [])
    + (if f.appearance.Some? then [AppearanceItem(f.appearance.value)] else [])
  }

  function Said(f: Fields): seq<Item>
    requires Writable(f)
  {
    SingleSaid(f) + (PowersSaid(f.txPowers) + (UuidsSaid(f.serviceUuids)
      + (ManufacturersSaid(f.manufacturerDatas) + ServicesSaid(f.serviceDatas))))
  }

  lemma {:induction false} ShownAllConcat(f: Fields, a: seq<Item>, b: seq<Item>)
    ensures ShownAll(f, a + b) == ShownAll(ShownAll(f, a), b)
    decreases |b|
  {
    hide Shown;
    if b == [] {
      assert a + b == a;
    } else {
      ShownAllConcat(f, a, b[..|b| - 1]);
      assert (a + b)[..|a + b| - 1] == a + b[..|b| - 1];
    }
  }

  predicate AllSayable(items: seq<Item>) { forall i <- items :: Sayable(i) }

  lemma SayableConcat(a: seq<Item>, b: seq<Item>)
    requires AllSayable(a) && AllSayable(b)
    ensures AllSayable(a + b)
  {
    hide Sayable;
  }

  lemma SaidIsSayable(f: Fields)
    requires Writable(f)
    ensures AllSayable(Said(f))
  {
    forall u <- f.serviceUuids ensures Sayable(UuidsItem(true, Width(u), [u])) {
      OctetsRead(u);
      assert EncodeUuids([u]) == UuidOctets(u) + EncodeUuids([]);
    }
    var powers, uuids := PowersSaid(f.txPowers), UuidsSaid(f.serviceUuids);
    var makers, services := ManufacturersSaid(f.manufacturerDatas), ServicesSaid(f.serviceDatas);
    forall k | 0 <= k < |powers| ensures Sayable(powers[k]) { assert f.txPowers[k] in f.txPowers; }
    forall k | 0 <= k < |uuids| ensures Sayable(uuids[k]) { assert f.serviceUuids[k] in f.serviceUuids; }
    forall k | 0 <= k < |makers| ensures Sayable(makers[k]) { assert f.manufacturerDatas[k] in f.manufacturerDatas; }
    forall k | 0 <= k < |services| ensures Sayable(services[k]) { assert f.serviceDatas[k] in f.serviceDatas; }
    assert AllSayable(SingleSaid(f));
    hide AllSayable, PowersSaid, UuidsSaid, ManufacturersSaid, ServicesSaid, SingleSaid;
    SayableConcat(makers, services);
    SayableConcat(uuids, makers + services);
    SayableConcat(powers, uuids + (makers + services));
    SayableConcat(SingleSaid(f), powers + (uuids + (makers + services)));
  }

  lemma SingleShown(f: Fields)
    requires Writable(f)
    ensures ShownAll(NO_FIELDS, SingleSaid(f))
         == NO_FIELDS.(flags := f.flags, name := f.name, appearance := f.appearance)
  {
    hide ShownAll;
    var flags := if f.flags.Some? then [FlagsItem(f.flags.value)] else [];
    var name := if f.name != [] then [NameItem(true, f.name)] else [];
    var appearance := if f.appearance.Some? then [AppearanceItem(f.appearance.value)] else [];
    ShownAllConcat(NO_FIELDS, flags + name, appearance);
    ShownAllConcat(NO_FIELDS, flags, name);
    var f1 := NO_FIELDS.(flags := f.flags);
    ShownAtMostOne(NO_FIELDS, flags);
    ShownAtMostOne(f1, name);
    ShownAtMostOne(f1.(name := f.name), appearance);
  }

  lemma ShownAtMostOne(f: Fields, items: seq<Item>)
    requires |items| <= 1
    ensures ShownAll(f, items) == if items == [] then f else Shown(f, items[0])
  {
    hide Shown;
    if items != [] { assert items[..0] == []; }
  }

  lemma SaidIsShown(f: Fields)
    requires Writable(f)
    ensures ShownAll(NO_FIELDS, Said(f)) == f
  {
    hide PowersSaid, UuidsSaid, ManufacturersSaid, ServicesSaid, SingleSaid, ShownAll, Shown;
    var powers, uuids := PowersSaid(f.txPowers), UuidsSaid(f.serviceUuids);
    var makers, services := ManufacturersSaid(f.manufacturerDatas), ServicesSaid(f.serviceDatas);
    SingleShown(f);
    var f1 := NO_FIELDS.(flags := f.flags, name := f.name, appearance := f.appearance);
    ShownAllConcat(NO_FIELDS, SingleSaid(f), powers + (uuids + (makers + services)));
    var f2 := f1.(txPowers := [] + f.txPowers);
    PowersSaidShown(f1, f.txPowers);
    ShownAllConcat(f1, powers, uuids + (makers + services));
    var f3 := f2.(serviceUuids := [] + f.serviceUuids);
    UuidsSaidShown(f2, f.serviceUuids);
    ShownAllConcat(f2, uuids, makers + services);
    var f4 := f3.(manufacturerDatas := [] + f.manufacturerDatas);
    ManufacturersSaidShown(f3, f.manufacturerDatas);
    ShownAllConcat(f3, makers, services);
    ServicesSaidShown(f4, f.serviceDatas);
    assert [] + f.serviceDatas == f.serviceDatas && [] + f.txPowers == f.txPowers;
  }

  /** Every set of fields a device can show is read back from the payload that says it. */
  lemma FieldsRoundTrip(f: Fields, pads: seq<nat>)
    requires Writable(f) && |pads| == |Said(f)|
    ensures (SaidIsSayable(f); Parse(NO_FIELDS, Encode(Pieces(WrittenAll(Said(f)), pads)))) == f
  {
    SaidIsSayable(f);
    ParseWritten(NO_FIELDS, Said(f), pads);
    SaidIsShown(f);
  }

  // ---- The code ----

  class ESPBTDevice {
    var f: Fields
    /** Printable order, most significant octet first. */
    var address: Address.Mac
    var addressType: int
    var rssi: int

    constructor ()
      ensures f == NO_FIELDS
    {
      f, address, addressType, rssi := NO_FIELDS, [0, 0, 0, 0, 0, 0], 0, 0;
    }

    /** Takes over one report: the address turned round, and the fields of this payload only. */
    method FromScanResult(mac: Address.Mac, strength: int, addrType: int, payload: seq<Byte>)
      requires |payload| < 0x1_0000
      modifies this
      ensures f == Parse(NO_FIELDS, payload) && addressType == addrType && rssi == strength
      ensures Address.Reversed(address) == mac
    {
      address, addressType, rssi := Address.Reversed(mac), addrType, strength;
      f := f.(name := [], serviceUuids := [], manufacturerDatas := [], serviceDatas := [], txPowers := []);
      f := f.(appearance := None, flags := None);
      ParseAdv(payload);
    }

    /** Walks the payload once; every index it uses is inside it. */
    method ParseAdv(payload: seq<Byte>)
      requires |payload| < 0x1_0000
      modifies this`f
      ensures f == Parse(old(f), payload)
    {
      var offset := 0;
      hide Split;
      hide Apply;
      ghost var done: seq<Ad> := [];
      assert payload[0..] == payload;
      while offset < |payload|
        invariant 0 <= offset <= |payload| && f == ApplyAll(old(f), done)
        invariant Split(payload) == done + Split(payload[offset..])
        decreases |payload| - offset
      {
        ghost var rest := payload[offset..];
        SplitStep(rest);
        var adLen := payload[offset] as int;
        offset := offset + 1;
        if adLen == 0 {
          assert rest[1..] == payload[offset..];
          continue;
        }
        if offset + adLen > |payload| {
          assert done + [] == done;
          return;
        }
        var adType := payload[offset];
        var adData := payload[offset + 1..offset + adLen];
        offset := offset + adLen;
        ghost var ad := Ad(adType, adData);
        assert rest[1] == adType && rest[2..1 + adLen] == adData && rest[1 + adLen..] == payload[offset..];
        HandleField(adType, adData);
        assert (done + [ad])[..|done|] == done;
        done := done + [ad];
      }
      SplitStep(payload[offset..]);
      assert done + [] == done;
    }

    method HandleField(adType: Byte, adData: seq<Byte>)
      requires |adData| <= 254
      modifies this`f
      ensures f == Apply(old(f), Ad(adType, adData))
    {
      if adType == 0x01 {
        if |adData| >= 1 { f := f.(flags := Some(adData[0])); }
      } else if adType == 0x08 || adType == 0x09 {
        if |adData| > |f.name| {
          var nameLen := if |adData| > MAX_NAME then MAX_NAME else |adData|;
          f := f.(name := adData[..nameLen]);
        }
      } else if adType == 0x0A {
        if |adData| >= 1 { f := f.(txPowers := f.txPowers + [Signed(adData[0])]); }
      } else if adType == 0x19 {
        if |adData| >= 2 { f := f.(appearance := Some(Pack(adData[..2]))); }
      } else if adType == 0x02 || adType == 0x03 {
        PushUuids(adData, 2);
      } else if adType == 0x04 || adType == 0x05 {
        PushUuids(adData, 4);
      } else if adType == 0x06 || adType == 0x07 {
        PushUuids(adData, 16);
      } else if adType == 0xFF {
        if |adData| >= 2 {
          f := f.(manufacturerDatas := f.manufacturerDatas + [ServiceData(UuidFrom(adData[..2]), adData[2..])]);
        }
      } else if adType == 0x16 {
        if |adData| >= 2 {
          f := f.(serviceDatas := f.serviceDatas + [ServiceData(UuidFrom(adData[..2]), adData[2..])]);
        }
      } else if adType == 0x20 {
        if |adData| >= 4 {
          f := f.(serviceDatas := f.serviceDatas + [ServiceData(UuidFrom(adData[..4]), adData[4..])]);
        }
      } else if adType == 0x21 {
        if |adData| >= 16 {
          f := f.(serviceDatas := f.serviceDatas + [ServiceData(UuidFrom(adData[..16]), adData[16..])]);
        }
      }
    }

    /** The list loops: an 8-bit index stepping by the width, which cannot wrap within one structure. */
    method PushUuids(adData: seq<Byte>, width: nat)
      requires |adData| <= 254 && (width == 2 || width == 4 || width == 16)
      modifies this`f
      ensures f == old(f).(serviceUuids := old(f).serviceUuids + UuidList(adData, width))
    {
      hide UuidList, UuidFrom;
      var i := 0;
      ghost var out: seq<ESPBTUUID> := [];
      assert adData[0..] == adData;
      while i + width - 1 < |adData|
        invariant 0 <= i <= |adData| && i < 256
        invariant UuidList(adData, width) == out + UuidList(adData[i..], width)
        invariant f == old(f).(serviceUuids := old(f).serviceUuids + out)
        decreases |adData| - i
      {
        var uuid := UuidFrom(adData[i..i + width]);
        UuidListStep(adData, width, i);
        f := f.(serviceUuids := f.serviceUuids + [uuid]);
        out := out + [uuid];
        i := (i + width) % 256;
      }
      UuidListEnd(adData[i..], width);
      assert out + [] == out;
    }
  }

  lemma UuidListStep(adData: seq<Byte>, width: nat, i: nat)
    requires (width == 2 || width == 4 || width == 16) && i + width <= |adData|
    ensures UuidList(adData[i..], width) == [UuidFrom(adData[i..i + width])] + UuidList(adData[i + width..], width)
  {
    hide UuidFrom;
    var rest := adData[i..];
    assert rest[..width] == adData[i..i + width] && rest[width..] == adData[i + width..];
  }

  lemma UuidListEnd(rest: seq<Byte>, width: nat)
    requires (width == 2 || width == 4 || width == 16) && |rest| < width
    ensures UuidList(rest, width) == []
  {
  }
}
