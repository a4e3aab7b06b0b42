/** The GATT database of a peer as a tree, and the flat table the backend hands out. */
module Gatt {
  import U = Uuid

  type Uuid = U.ESPBTUUID

  datatype Descriptor = Descriptor(uuid: Uuid, handle: nat)
  datatype PeerChr = PeerChr(uuid: Uuid, defHandle: nat, valueHandle: nat, properties: nat,
    descriptors: seq<Descriptor>)
  datatype PeerSvc = PeerSvc(uuid: Uuid, startHandle: nat, endHandle: nat, characteristics: seq<PeerChr>)
  type Peer = seq<PeerSvc>

  const MAX_HANDLE := 0xFFFF
  const PRIMARY_SERVICE: Uuid := U.Uuid16(0x2800)
  const CHARACTERISTIC: Uuid := U.Uuid16(0x2803)

  /** A characteristic ends just before the next declaration, or with its service. */
  function ChrEnd(s: PeerSvc, j: nat): int
    requires j < |s.characteristics|
  {
    if j + 1 < |s.characteristics| then s.characteristics[j + 1].defHandle - 1 else s.endHandle
  }

  /** Declarations, values and descriptors occupy increasing handles inside their service and characteristic. */
  ghost predicate SvcWf(s: PeerSvc) {
    && 1 <= s.startHandle <= s.endHandle <= MAX_HANDLE
    && forall j: nat {:trigger ChrAt(s, j)} :: j < |s.characteristics| ==> ChrAt(s, j)
  }

  ghost predicate ChrAt(s: PeerSvc, j: nat)
    requires j < |s.characteristics|
  {
    ChrWf(s.startHandle, s.characteristics[j], ChrEnd(s, j))
  }

  ghost predicate ChrWf(start: nat, c: PeerChr, end: int) {
    && start < c.defHandle < c.valueHandle <= end <= MAX_HANDLE
    && (forall k :: 0 <= k < |c.descriptors| ==> c.valueHandle < c.descriptors[k].handle <= end)
    && (forall k, l :: 0 <= k < l < |c.descriptors| ==> c.descriptors[k].handle < c.descriptors[l].handle)
  }

  ghost predicate PeerWf(p: Peer) {
    && (forall i :: 0 <= i < |p| ==> SvcWf(p[i]))
    && (forall i, k :: 0 <= i < k < |p| ==> p[i].endHandle < p[k].startHandle)
  }

  // ---- What the attribute protocol procedures return (Bluetooth Core, Vol 3, Part G, section 4) ----

  function AllChrs(p: Peer): seq<PeerChr> {
    if p == [] then [] else AllChrs(p[..|p| - 1]) + p[|p| - 1].characteristics
  }

  /** Section 4.6.1: the characteristics declared at handles `lo..hi`. */
  function ChrsBetween(cs: seq<PeerChr>, lo: nat, hi: nat): seq<PeerChr> {
    if cs == [] then []
    else
      var c := cs[|cs| - 1];
      ChrsBetween(cs[..|cs| - 1], lo, hi) + if lo <= c.defHandle <= hi then [c] else []
  }

  /** Every attribute of a list of characteristics: declaration, value, descriptors. */
  function ChrAttrs(cs: seq<PeerChr>): seq<Descriptor> {
    if cs == [] then []
    else ChrAttrs(cs[..|cs| - 1]) + OwnAttrs(cs[|cs| - 1])
  }

  function OwnAttrs(c: PeerChr): seq<Descriptor> {
    [Descriptor(CHARACTERISTIC, c.defHandle), Descriptor(c.uuid, c.valueHandle)] + c.descriptors
  }

  function SvcAttrs(s: PeerSvc): seq<Descriptor> {
    [Descriptor(PRIMARY_SERVICE, s.startHandle)] + ChrAttrs(s.characteristics)
  }

  function AllAttrs(p: Peer): seq<Descriptor> {
    if p == [] then [] else AllAttrs(p[..|p| - 1]) + SvcAttrs(p[|p| - 1])
  }

  /** Section 4.7.1: every attribute, of whatever kind, at handles `lo + 1..hi`. */
  function AttrsIn(as_: seq<Descriptor>, lo: nat, hi: nat): seq<Descriptor> {
    if as_ == [] then []
    else
      var a := as_[|as_| - 1];
      AttrsIn(as_[..|as_| - 1], lo, hi) + if lo < a.handle <= hi then [a] else []
  }

  lemma ConcatAssoc<T>(x: seq<T>, y: seq<T>, z: seq<T>)
    ensures (x + y) + z == x + (y + z)
  {
  }

  lemma SplitLast<T>(a: seq<T>)
    requires a != []
    ensures a == a[..|a| - 1] + [a[|a| - 1]]
  {
  }

  lemma {:induction false} ChrsBetweenConcat(a: seq<PeerChr>, b: seq<PeerChr>, lo: nat, hi: nat)
    ensures ChrsBetween(a + b, lo, hi) == ChrsBetween(a, lo, hi) + ChrsBetween(b, lo, hi)
    decreases |b|
  {
    if b == [] {
      assert a + b == a;
    } else {
      var n := |b| - 1;
      ChrsBetweenConcat(a, b[..n], lo, hi);
      ConcatAssoc(ChrsBetween(a, lo, hi), ChrsBetween(b[..n], lo, hi),
        if lo <= b[n].defHandle <= hi then [b[n]] else []);
      assert (a + b)[..|a + b| - 1] == a + b[..n] && (a + b)[|a + b| - 1] == b[n];
    }
  }

  lemma {:induction false} ChrsBetweenAll(a: seq<PeerChr>, lo: nat, hi: nat)
    requires forall k :: 0 <= k < |a| ==> lo <= a[k].defHandle <= hi
    ensures ChrsBetween(a, lo, hi) == a
  {
    if a != [] {
      var n := |a| - 1;
      var pre := a[..n];
      assert forall k :: 0 <= k < n ==> pre[k] == a[k];
      ChrsBetweenAll(pre, lo, hi);
      SplitLast(a);
    }
  }

  lemma {:induction false} ChrsBetweenNone(a: seq<PeerChr>, lo: nat, hi: nat)
    requires forall k :: 0 <= k < |a| ==> !(lo <= a[k].defHandle <= hi)
    ensures ChrsBetween(a, lo, hi) == []
  {
    if a != [] {
      var n := |a| - 1;
      var pre := a[..n];
      assert forall k :: 0 <= k < n ==> pre[k] == a[k];
      ChrsBetweenNone(pre, lo, hi);
    }
  }

  lemma {:induction false} AllChrsConcat(a: Peer, b: Peer)
    ensures AllChrs(a + b) == AllChrs(a) + AllChrs(b)
    decreases |b|
  {
    if b == [] {
      assert a + b == a;
    } else {
      var n := |b| - 1;
      AllChrsConcat(a, b[..n]);
      ConcatAssoc(AllChrs(a), AllChrs(b[..n]), b[n].characteristics);
      assert (a + b)[..|a + b| - 1] == a + b[..n] && (a + b)[|a + b| - 1] == b[n];
    }
  }

  lemma {:induction false} ChrHome(p: Peer, c: PeerChr) returns (i: nat)
    requires c in AllChrs(p)
    ensures i < |p| && c in p[i].characteristics
    decreases |p|
  {
    if c in p[|p| - 1].characteristics {
      i := |p| - 1;
    } else {
      i := ChrHome(p[..|p| - 1], c);
    }
  }

  lemma AllChrsSplit(p: Peer, i: nat)
    requires i < |p|
    ensures AllChrs(p) == AllChrs(p[..i]) + p[i].characteristics + AllChrs(p[i + 1..])
  {
    assert p == p[..i + 1] + p[i + 1..] && p[..i + 1][..i] == p[..i];
    AllChrsConcat(p[..i + 1], p[i + 1..]);
  }

  lemma ChrsAround(p: Peer, i: nat, c: PeerChr)
    requires PeerWf(p) && i < |p|
    ensures c in AllChrs(p[..i]) ==> c.defHandle < p[i].startHandle
    ensures c in AllChrs(p[i + 1..]) ==> p[i].endHandle < c.defHandle
  {
    hide SvcWf, AllChrs;
    if c in AllChrs(p[..i]) {
      var k := ChrHome(p[..i], c);
      SvcChrRange(p[k], c);
    }
    if c in AllChrs(p[i + 1..]) {
      var k := ChrHome(p[i + 1..], c);
      assert p[i + 1..][k] == p[i + 1 + k];
      SvcChrRange(p[i + 1 + k], c);
    }
  }

  lemma SelectMiddle(pre: seq<PeerChr>, own: seq<PeerChr>, post: seq<PeerChr>, lo: nat, hi: nat)
    requires forall k :: 0 <= k < |pre| ==> pre[k].defHandle < lo
    requires forall k :: 0 <= k < |own| ==> lo <= own[k].defHandle <= hi
    requires forall k :: 0 <= k < |post| ==> hi < post[k].defHandle
    ensures ChrsBetween(pre + own + post, lo, hi) == own
  {
    hide ChrsBetween;
    ChrsBetweenConcat(pre + own, post, lo, hi);
    ChrsBetweenConcat(pre, own, lo, hi);
    ChrsBetweenNone(pre, lo, hi);
    ChrsBetweenAll(own, lo, hi);
    ChrsBetweenNone(post, lo, hi);
  }

  /** A service's handle range selects its own characteristics and no others. */
  lemma ServiceRange(p: Peer, i: nat)
    requires PeerWf(p) && i < |p|
    ensures ChrsBetween(AllChrs(p), p[i].startHandle, p[i].endHandle) == p[i].characteristics
  {
    var lo, hi, pre, own, post := p[i].startHandle, p[i].endHandle, AllChrs(p[..i]), p[i].characteristics,
      AllChrs(p[i + 1..]);
    AllChrsSplit(p, i);
    forall k | 0 <= k < |pre| ensures pre[k].defHandle < lo { ChrsAround(p, i, pre[k]); }
    forall k | 0 <= k < |post| ensures hi < post[k].defHandle { ChrsAround(p, i, post[k]); }
    forall k | 0 <= k < |own| ensures lo <= own[k].defHandle <= hi { SvcChrRange(p[i], own[k]); }
    hide PeerWf, AllChrs, ChrsBetween;
    SelectMiddle(pre, own, post, lo, hi);
  }

  /** Characteristic ends increase, so everything stays inside the service. */
  lemma {:induction false} EndsInside(s: PeerSvc, j: nat)
    requires SvcWf(s) && j < |s.characteristics|
    ensures ChrEnd(s, j) <= s.endHandle
    decreases |s.characteristics| - j
  {
    assert ChrAt(s, j);
    if j + 1 < |s.characteristics| {
      assert ChrAt(s, j + 1);
      EndsInside(s, j + 1);
    }
  }

  lemma SvcChrRange(s: PeerSvc, c: PeerChr)
    requires SvcWf(s) && c in s.characteristics
    ensures s.startHandle < c.defHandle <= s.endHandle
  {
    var j :| 0 <= j < |s.characteristics| && s.characteristics[j] == c;
    assert ChrAt(s, j);
    EndsInside(s, j);
  }

  lemma {:induction false} AttrsInConcat(a: seq<Descriptor>, b: seq<Descriptor>, lo: nat, hi: nat)
    ensures AttrsIn(a + b, lo, hi) == AttrsIn(a, lo, hi) + AttrsIn(b, lo, hi)
    decreases |b|
  {
    if b == [] {
      assert a + b == a;
    } else {
      var n := |b| - 1;
      AttrsInConcat(a, b[..n], lo, hi);
      ConcatAssoc(AttrsIn(a, lo, hi), AttrsIn(b[..n], lo, hi), if lo < b[n].handle <= hi then [b[n]] else []);
      assert (a + b)[..|a + b| - 1] == a + b[..n] && (a + b)[|a + b| - 1] == b[n];
    }
  }

  lemma {:induction false} AttrsInAll(a: seq<Descriptor>, lo: nat, hi: nat)
    requires forall k :: 0 <= k < |a| ==> lo < a[k].handle <= hi
    ensures AttrsIn(a, lo, hi) == a
  {
    if a != [] {
      var n := |a| - 1;
      var pre := a[..n];
      assert forall k :: 0 <= k < n ==> pre[k] == a[k];
      AttrsInAll(pre, lo, hi);
      SplitLast(a);
    }
  }

  lemma {:induction false} AttrsInNone(a: seq<Descriptor>, lo: nat, hi: nat)
    requires forall k :: 0 <= k < |a| ==> !(lo < a[k].handle <= hi)
    ensures AttrsIn(a, lo, hi) == []
  {
    if a != [] {
      var n := |a| - 1;
      var pre := a[..n];
      assert forall k :: 0 <= k < n ==> pre[k] == a[k];
      AttrsInNone(pre, lo, hi);
    }
  }

  lemma {:induction false} AllAttrsConcat(a: Peer, b: Peer)
    ensures AllAttrs(a + b) == AllAttrs(a) + AllAttrs(b)
    decreases |b|
  {
    hide SvcAttrs;
    if b == [] {
      assert a + b == a;
    } else {
      var n := |b| - 1;
      AllAttrsConcat(a, b[..n]);
      ConcatAssoc(AllAttrs(a), AllAttrs(b[..n]), SvcAttrs(b[n]));
      assert (a + b)[..|a + b| - 1] == a + b[..n] && (a + b)[|a + b| - 1] == b[n];
    }
  }

  lemma {:induction false} ChrAttrsConcat(a: seq<PeerChr>, b: seq<PeerChr>)
    ensures ChrAttrs(a + b) == ChrAttrs(a) + ChrAttrs(b)
    decreases |b|
  {
    if b == [] {
      assert a + b == a;
    } else {
      var n := |b| - 1;
      ChrAttrsConcat(a, b[..n]);
      ConcatAssoc(ChrAttrs(a), ChrAttrs(b[..n]), OwnAttrs(b[n]));
      assert (a + b)[..|a + b| - 1] == a + b[..n] && (a + b)[|a + b| - 1] == b[n];
    }
  }

  lemma {:induction false} AttrHome(p: Peer, a: Descriptor) returns (i: nat)
    requires a in AllAttrs(p)
    ensures i < |p| && a in SvcAttrs(p[i])
    decreases |p|
  {
    if a in SvcAttrs(p[|p| - 1]) {
      i := |p| - 1;
    } else {
      i := AttrHome(p[..|p| - 1], a);
    }
  }

  lemma {:induction false} ChrAttrHome(cs: seq<PeerChr>, a: Descriptor) returns (j: nat)
    requires a in ChrAttrs(cs)
    ensures j < |cs| && a in OwnAttrs(cs[j])
    decreases |cs|
  {
    var n := |cs| - 1;
    if a in ChrAttrs(cs[..n]) {
      j := ChrAttrHome(cs[..n], a);
    } else {
      j := n;
    }
  }

  /** Declarations are ordered: everything before characteristic `j` lies below it, everything after above. */
  lemma {:induction false} EndsOrdered(s: PeerSvc, i: nat, j: nat)
    requires SvcWf(s) && i < j < |s.characteristics|
    ensures ChrEnd(s, i) < s.characteristics[j].defHandle
    decreases j - i
  {
    assert ChrAt(s, i + 1);
    if i + 1 < j { EndsOrdered(s, i + 1, j); }
  }

  lemma OwnAttrRange(s: PeerSvc, j: nat, a: Descriptor)
    requires SvcWf(s) && j < |s.characteristics| && a in OwnAttrs(s.characteristics[j])
    ensures s.startHandle < s.characteristics[j].defHandle <= a.handle <= ChrEnd(s, j) <= s.endHandle
    ensures a !in s.characteristics[j].descriptors ==> a.handle <= s.characteristics[j].valueHandle
  {
    assert ChrAt(s, j);
    EndsInside(s, j);
  }

  lemma SvcAttrRange(s: PeerSvc, a: Descriptor)
    requires SvcWf(s) && a in SvcAttrs(s)
    ensures s.startHandle <= a.handle <= s.endHandle
  {
    if a != Descriptor(PRIMARY_SERVICE, s.startHandle) {
      var j := ChrAttrHome(s.characteristics, a);
      OwnAttrRange(s, j, a);
    }
  }

  lemma SvcAttrsSplit(s: PeerSvc, j: nat)
    requires j < |s.characteristics|
    ensures SvcAttrs(s) == AttrsBefore(s, j) + s.characteristics[j].descriptors + ChrAttrs(s.characteristics[j + 1..])
  {
    var cs := s.characteristics;
    assert cs == cs[..j + 1] + cs[j + 1..] && cs[..j + 1][..j] == cs[..j];
    ChrAttrsConcat(cs[..j + 1], cs[j + 1..]);
  }

  /** The attributes of a service before the descriptors of characteristic `j`. */
  function AttrsBefore(s: PeerSvc, j: nat): seq<Descriptor>
    requires j < |s.characteristics|
  {
    var c := s.characteristics[j];
    [Descriptor(PRIMARY_SERVICE, s.startHandle)] + ChrAttrs(s.characteristics[..j])
      + [Descriptor(CHARACTERISTIC, c.defHandle), Descriptor(c.uuid, c.valueHandle)]
  }

  lemma SvcAttrsAround(s: PeerSvc, j: nat, a: Descriptor)
    requires SvcWf(s) && j < |s.characteristics|
    ensures a in AttrsBefore(s, j) ==> a.handle <= s.characteristics[j].valueHandle
    ensures a in ChrAttrs(s.characteristics[j + 1..]) ==> ChrEnd(s, j) < a.handle
  {
    hide ChrAttrs, ChrEnd;
    var cs, c := s.characteristics, s.characteristics[j];
    if a in AttrsBefore(s, j) {
      OwnAttrRange(s, j, Descriptor(c.uuid, c.valueHandle));
      if a in ChrAttrs(cs[..j]) {
        var k := ChrAttrHome(cs[..j], a);
        OwnAttrRange(s, k, a);
        EndsOrdered(s, k, j);
      } else {
        assert ChrAt(s, j);
      }
    }
    if a in ChrAttrs(cs[j + 1..]) {
      var k := ChrAttrHome(cs[j + 1..], a);
      assert cs[j + 1..][k] == cs[j + 1 + k];
      OwnAttrRange(s, j + 1 + k, a);
      EndsOrdered(s, j, j + 1 + k);
    }
  }

  /** Inside its own service, the range after a characteristic's value selects exactly its descriptors. */
  lemma CharacteristicRangeInService(s: PeerSvc, j: nat)
    requires SvcWf(s) && j < |s.characteristics| && ChrEnd(s, j) >= 0
    ensures AttrsIn(SvcAttrs(s), s.characteristics[j].valueHandle, ChrEnd(s, j)) == s.characteristics[j].descriptors
  {
    hide SvcWf, AttrsIn, SvcAttrs, AttrsBefore, ChrAttrs, ChrEnd;
    var lo, hi := s.characteristics[j].valueHandle, ChrEnd(s, j);
    var pre, own, post := AttrsBefore(s, j), s.characteristics[j].descriptors, ChrAttrs(s.characteristics[j + 1..]);
    SvcAttrsSplit(s, j);
    forall k | 0 <= k < |pre| ensures pre[k].handle <= lo { SvcAttrsAround(s, j, pre[k]); }
    forall k | 0 <= k < |post| ensures hi < post[k].handle { SvcAttrsAround(s, j, post[k]); }
    forall k | 0 <= k < |own| ensures lo < own[k].handle <= hi { DescriptorRange(s, j, own[k]); }
    AttrsInConcat(pre + own, post, lo, hi);
    AttrsInConcat(pre, own, lo, hi);
    AttrsInNone(pre, lo, hi);
    AttrsInAll(own, lo, hi);
    AttrsInNone(post, lo, hi);
  }

  lemma DescriptorRange(s: PeerSvc, j: nat, a: Descriptor)
    requires SvcWf(s) && j < |s.characteristics| && a in s.characteristics[j].descriptors
    ensures s.characteristics[j].valueHandle < a.handle <= ChrEnd(s, j)
  {
    assert ChrAt(s, j);
  }

  lemma AttrsAround(p: Peer, i: nat, a: Descriptor)
    requires PeerWf(p) && i < |p|
    ensures a in AllAttrs(p[..i]) ==> a.handle < p[i].startHandle
    ensures a in AllAttrs(p[i + 1..]) ==> p[i].endHandle < a.handle
  {
    hide SvcWf;
    hide AllAttrs;
    hide SvcAttrs;
    if a in AllAttrs(p[..i]) {
      var k := AttrHome(p[..i], a);
      SvcAttrRange(p[k], a);
    }
    if a in AllAttrs(p[i + 1..]) {
      var k := AttrHome(p[i + 1..], a);
      assert p[i + 1..][k] == p[i + 1 + k];
      SvcAttrRange(p[i + 1 + k], a);
    }
  }

  lemma AllAttrsSplit(p: Peer, i: nat)
    requires i < |p|
    ensures AllAttrs(p) == AllAttrs(p[..i]) + SvcAttrs(p[i]) + AllAttrs(p[i + 1..])
  {
    hide SvcAttrs;
    assert p == p[..i + 1] + p[i + 1..] && p[..i + 1][..i] == p[..i];
    AllAttrsConcat(p[..i + 1], p[i + 1..]);
  }

  /** A range inside one service selects nothing from the others. */
  lemma RangeInService(p: Peer, i: nat, lo: nat, hi: nat)
    requires PeerWf(p) && i < |p| && p[i].startHandle <= lo && hi <= p[i].endHandle
    ensures AttrsIn(AllAttrs(p), lo, hi) == AttrsIn(SvcAttrs(p[i]), lo, hi)
  {
    var pre, own, post := AllAttrs(p[..i]), SvcAttrs(p[i]), AllAttrs(p[i + 1..]);
    AllAttrsSplit(p, i);
    forall k | 0 <= k < |pre| ensures pre[k].handle < p[i].startHandle { AttrsAround(p, i, pre[k]); }
    forall k | 0 <= k < |post| ensures p[i].endHandle < post[k].handle { AttrsAround(p, i, post[k]); }
    hide PeerWf;
    hide AllAttrs;
    hide SvcAttrs;
    hide AttrsIn;
    AttrsInConcat(pre + own, post, lo, hi);
    AttrsInConcat(pre, own, lo, hi);
    AttrsInNone(pre, lo, hi);
    AttrsInNone(post, lo, hi);
  }

  /** ... and so it does on the whole peer. */
  lemma CharacteristicRange(p: Peer, i: nat, j: nat)
    requires PeerWf(p) && i < |p| && j < |p[i].characteristics| && ChrEnd(p[i], j) >= 0
    ensures AttrsIn(AllAttrs(p), p[i].characteristics[j].valueHandle, ChrEnd(p[i], j)) ==
      p[i].characteristics[j].descriptors
  {
    var s, c := p[i], p[i].characteristics[j];
    OwnAttrRange(s, j, Descriptor(CHARACTERISTIC, c.defHandle));
    OwnAttrRange(s, j, Descriptor(c.uuid, c.valueHandle));
    RangeInService(p, i, c.valueHandle, ChrEnd(s, j));
    CharacteristicRangeInService(s, j);
  }

  // ---- The flat table: services and characteristics own index ranges of the arrays below them ----

  datatype Characteristic = Characteristic(uuid: Uuid, valueHandle: nat, endHandle: nat, properties: nat,
                                           firstDescriptor: nat, descriptorCount: nat)
  datatype Service = Service(uuid: Uuid, startHandle: nat, endHandle: nat,
                             firstCharacteristic: nat, characteristicCount: nat)
  datatype Table = Table(services: seq<Service>, characteristics: seq<Characteristic>, descriptors: seq<Descriptor>)

  const EMPTY_TABLE := Table([], [], [])

  predicate ServiceInBounds(t: Table, s: Service) {
    s.characteristicCount == 0 || s.firstCharacteristic + s.characteristicCount <= |t.characteristics|
  }

  predicate CharacteristicInBounds(t: Table, c: Characteristic) {
    c.descriptorCount == 0 || c.firstDescriptor + c.descriptorCount <= |t.descriptors|
  }

  /** No range of the table leaves its array. */
  ghost predicate InBounds(t: Table) {
    && (forall s <- t.services :: ServiceInBounds(t, s))
    && (forall c <- t.characteristics :: CharacteristicInBounds(t, c))
  }

  function Slice<T>(a: seq<T>, first: nat, count: nat): seq<T>
    requires count == 0 || first + count <= |a|
  {
    if count == 0 then [] else a[first..first + count]
  }

  /** The tree a consumer can read off: like the peer's, without declaration handles but with computed ends. */
  datatype ChrView = ChrView(uuid: Uuid, valueHandle: nat, endHandle: nat, properties: nat,
    descriptors: seq<Descriptor>)
  datatype SvcView = SvcView(uuid: Uuid, startHandle: nat, endHandle: nat, characteristics: seq<ChrView>)

  function UnflattenChr(t: Table, c: Characteristic): ChrView
    requires CharacteristicInBounds(t, c)
  {
    ChrView(c.uuid, c.valueHandle, c.endHandle, c.properties,
      Slice(t.descriptors, c.firstDescriptor, c.descriptorCount))
  }

  function UnflattenSvc(t: Table, s: Service): SvcView
    requires InBounds(t) && ServiceInBounds(t, s)
  {
    var cs := Slice(t.characteristics, s.firstCharacteristic, s.characteristicCount);
    SvcView(s.uuid, s.startHandle, s.endHandle, seq(|cs|, k requires 0 <= k < |cs| => UnflattenChr(t, cs[k])))
  }

  function Unflatten(t: Table): seq<SvcView>
    requires InBounds(t)
  {
    seq(|t.services|, i requires 0 <= i < |t.services| => UnflattenSvc(t, t.services[i]))
  }

  /** The peer's own tree in that form. */
  function SvcTree(s: PeerSvc): SvcView {
    SvcView(s.uuid, s.startHandle, s.endHandle,
      seq(|s.characteristics|, k requires 0 <= k < |s.characteristics| => Cell(s, k)))
  }

  /** Characteristic `k` of `s` with its end handle. */
  function Cell(s: PeerSvc, k: nat): ChrView
    requires k < |s.characteristics|
  {
    var c := s.characteristics[k];
    ChrView(c.uuid, c.valueHandle, if ChrEnd(s, k) < 0 then 0 else ChrEnd(s, k), c.properties, c.descriptors)
  }

  function Tree(p: Peer): seq<SvcView> { seq(|p|, i requires 0 <= i < |p| => SvcTree(p[i])) }

  // ---- The flat form of a tree ----

  function Cells(v: seq<SvcView>): seq<ChrView> {
    if v == [] then [] else Cells(v[..|v| - 1]) + v[|v| - 1].characteristics
  }

  function Dscs(cs: seq<ChrView>): seq<Descriptor> {
    if cs == [] then [] else Dscs(cs[..|cs| - 1]) + cs[|cs| - 1].descriptors
  }

  function FlatSvcs(v: seq<SvcView>): (r: seq<Service>)
    ensures |r| == |v|
  {
    if v == [] then []
    else
      var s := v[|v| - 1];
      FlatSvcs(v[..|v| - 1]) +
        [Service(s.uuid, s.startHandle, s.endHandle, |Cells(v[..|v| - 1])|, |s.characteristics|)]
  }

  function FlatChrs(cs: seq<ChrView>): (r: seq<Characteristic>)
    ensures |r| == |cs|
  {
    if cs == [] then []
    else FlatChrs(cs[..|cs| - 1]) + [FlatChr(cs[|cs| - 1], |Dscs(cs[..|cs| - 1])|)]
  }

  /** Characteristics without room for descriptors keep the default first index. */
  function FlatChr(c: ChrView, base: nat): Characteristic {
    Characteristic(c.uuid, c.valueHandle, c.endHandle, c.properties,
                   if c.endHandle > c.valueHandle then base else 0, |c.descriptors|)
  }

  function Flatten(v: seq<SvcView>): Table { Table(FlatSvcs(v), FlatChrs(Cells(v)), Dscs(Cells(v))) }

  /** Descriptors need room after the value. */
  ghost predicate Roomy(cs: seq<ChrView>) {
    forall c <- cs :: c.descriptors != [] ==> c.endHandle > c.valueHandle
  }

  lemma PrefixSlice<T>(a: seq<T>, b: seq<T>, lo: nat, hi: nat)
    requires lo <= hi <= |a|
    ensures (a + b)[lo..hi] == a[lo..hi]
  {
  }

  lemma {:induction false} DscsPrefix(cs: seq<ChrView>, k: nat)
    requires k < |cs|
    ensures |Dscs(cs[..k])| + |cs[k].descriptors| <= |Dscs(cs)|
    ensures Dscs(cs)[|Dscs(cs[..k])|..|Dscs(cs[..k])| + |cs[k].descriptors|] == cs[k].descriptors
    ensures FlatChrs(cs)[k] == FlatChr(cs[k], |Dscs(cs[..k])|)
    decreases |cs|
  {
    var n := |cs| - 1;
    if k < n {
      DscsPrefix(cs[..n], k);
      assert cs[..n][..k] == cs[..k];
      PrefixSlice(Dscs(cs[..n]), cs[n].descriptors, |Dscs(cs[..k])|, |Dscs(cs[..k])| + |cs[k].descriptors|);
    }
  }

  lemma {:induction false} CellsPrefix(v: seq<SvcView>, i: nat)
    requires i < |v|
    ensures |Cells(v[..i])| + |v[i].characteristics| <= |Cells(v)|
    ensures Cells(v)[|Cells(v[..i])|..|Cells(v[..i])| + |v[i].characteristics|] == v[i].characteristics
    ensures FlatSvcs(v)[i] ==
      Service(v[i].uuid, v[i].startHandle, v[i].endHandle, |Cells(v[..i])|, |v[i].characteristics|)
    decreases |v|
  {
    var n := |v| - 1;
    if i < n {
      CellsPrefix(v[..n], i);
      assert v[..n][..i] == v[..i];
      PrefixSlice(Cells(v[..n]), v[n].characteristics, |Cells(v[..i])|, |Cells(v[..i])| + |v[i].characteristics|);
    }
  }

  lemma FlattenInBounds(v: seq<SvcView>)
    requires Roomy(Cells(v))
    ensures InBounds(Flatten(v))
  {
    var t, cs := Flatten(v), Cells(v);
    forall s | s in t.services ensures ServiceInBounds(t, s) {
      var i :| 0 <= i < |v| && t.services[i] == s;
      CellsPrefix(v, i);
    }
    forall c | c in t.characteristics ensures CharacteristicInBounds(t, c) {
      var k :| 0 <= k < |cs| && t.characteristics[k] == c;
      DscsPrefix(cs, k);
    }
  }

  /** Reading the flat form back gives the tree. */
  lemma {:induction false} UnflattenFlatten(v: seq<SvcView>)
    requires Roomy(Cells(v))
    ensures InBounds(Flatten(v)) && Unflatten(Flatten(v)) == v
  {
    FlattenInBounds(v);
    forall i | 0 <= i < |v| ensures UnflattenSvc(Flatten(v), FlatSvcs(v)[i]) == v[i] { UnflattenFlattenSvc(v, i); }
  }

  lemma {:induction false} UnflattenFlattenSvc(v: seq<SvcView>, i: nat)
    requires i < |v| && Roomy(Cells(v)) && InBounds(Flatten(v)) && ServiceInBounds(Flatten(v), FlatSvcs(v)[i])
    ensures UnflattenSvc(Flatten(v), FlatSvcs(v)[i]) == v[i]
  {
    var t, cs, b := Flatten(v), Cells(v), |Cells(v[..i])|;
    CellsPrefix(v, i);
    var own := v[i].characteristics;
    var r := UnflattenSvc(t, t.services[i]).characteristics;
    assert |r| == |own|;
    hide Dscs, FlatChrs, Cells, FlatSvcs, UnflattenChr;
    forall k | 0 <= k < |own| ensures r[k] == own[k] {
      assert cs[b + k] == cs[b..b + |own|][k];
      UnflattenFlattenChr(t, cs, b + k);
    }
    assert r == own;
  }

  lemma UnflattenFlattenChr(t: Table, cs: seq<ChrView>, k: nat)
    requires k < |cs| && Roomy(cs) && t.characteristics == FlatChrs(cs) && t.descriptors == Dscs(cs)
    requires CharacteristicInBounds(t, t.characteristics[k])
    ensures UnflattenChr(t, t.characteristics[k]) == cs[k]
  {
    hide Dscs, FlatChrs, FlatChr, UnflattenChr;
    DscsPrefix(cs, k);
    assert cs[k] in cs;
    FlatChrReads(t, t.characteristics[k], cs[k], |Dscs(cs[..k])|);
  }

  lemma FlatChrReads(t: Table, c: Characteristic, x: ChrView, base: nat)
    requires c == FlatChr(x, base) && (x.descriptors != [] ==> x.endHandle > x.valueHandle)
    requires CharacteristicInBounds(t, c)
    requires base + |x.descriptors| <= |t.descriptors| && t.descriptors[base..base + |x.descriptors|] == x.descriptors
    ensures UnflattenChr(t, c) == x
  {
  }
}
