/** What a peer tells a discovering client when its answers may stop early, and when that is the whole of its tree. */
module PeerReport {
  import opened Basics
  import opened Gatt

  /**
   * How many items of each answer arrive: of the service list, of the characteristics of the service starting at a
   * handle, of the descriptors behind a value handle. A procedure that breaks off delivers fewer items than there
   * are.
   */
  datatype Cuts = Cuts(services: nat, characteristics: nat -> nat, descriptors: nat -> nat)

  function SvcsTold(p: Peer, cuts: Cuts): Peer { Clip(p, cuts.services) }

  function ChrsTold(p: Peer, cuts: Cuts, lo: nat, hi: nat): seq<PeerChr> {
    Clip(ChrsBetween(AllChrs(p), lo, hi), cuts.characteristics(lo))
  }

  function DscsTold(p: Peer, cuts: Cuts, valueHandle: nat, hi: nat): seq<Descriptor> {
    Clip(AttrsIn(AllAttrs(p), valueHandle, hi), cuts.descriptors(valueHandle))
  }

  /** A service as far as it was told: its last known characteristic is taken to reach to the service's end. */
  function ToldSvc(p: Peer, cuts: Cuts, s: PeerSvc): PeerSvc {
    s.(characteristics := ChrsTold(p, cuts, s.startHandle, s.endHandle))
  }

  function ToldChr(p: Peer, cuts: Cuts, v: ChrView): ChrView {
    v.(descriptors := if v.endHandle > v.valueHandle then DscsTold(p, cuts, v.valueHandle, v.endHandle) else [])
  }

  function ToldView(p: Peer, cuts: Cuts, s: PeerSvc): SvcView {
    var t := ToldSvc(p, cuts, s);
    SvcView(t.uuid, t.startHandle, t.endHandle,
            seq(|t.characteristics|, j requires 0 <= j < |t.characteristics| => ToldChr(p, cuts, Cell(t, j))))
  }

  /** The tree a client can put together from the answers. */
  function Told(p: Peer, cuts: Cuts): seq<SvcView> {
    seq(|SvcsTold(p, cuts)|, i requires 0 <= i < |SvcsTold(p, cuts)| => ToldView(p, cuts, SvcsTold(p, cuts)[i]))
  }

  /** Nothing is missing from any answer about the tree. */
  ghost predicate Uncut(p: Peer, cuts: Cuts) {
    && cuts.services >= |p|
    && forall i: nat {:trigger UncutSvc(cuts, p[i])} :: i < |p| ==> UncutSvc(cuts, p[i])
  }

  ghost predicate UncutSvc(cuts: Cuts, s: PeerSvc) {
    && cuts.characteristics(s.startHandle) >= |s.characteristics|
    && forall c <- s.characteristics :: cuts.descriptors(c.valueHandle) >= |c.descriptors|
  }

  // ---- How a procedure ends ----

  /** The status NimBLE ends a procedure with that has delivered its whole answer (BLE_HS_EDONE). */
  const EDONE := 14

  predicate SvcsWhole(p: Peer, cuts: Cuts) { cuts.services >= |p| }

  predicate ChrsWhole(p: Peer, cuts: Cuts, lo: nat, hi: nat) {
    cuts.characteristics(lo) >= |ChrsBetween(AllChrs(p), lo, hi)|
  }

  predicate DscsWhole(p: Peer, cuts: Cuts, valueHandle: nat, hi: nat) {
    cuts.descriptors(valueHandle) >= |AttrsIn(AllAttrs(p), valueHandle, hi)|
  }

  /** The answer about service `i` is whole. */
  predicate SvcAnswered(p: Peer, cuts: Cuts, i: nat) {
    i < |p| ==> ChrsWhole(p, cuts, p[i].startHandle, p[i].endHandle)
  }

  /** The answer about a characteristic is whole, if it was asked about at all. */
  predicate ChrAnswered(p: Peer, cuts: Cuts, x: ChrView) {
    x.endHandle > x.valueHandle ==> DscsWhole(p, cuts, x.valueHandle, x.endHandle)
  }

  ghost predicate SvcsAnswered(p: Peer, cuts: Cuts, n: nat) { forall i: nat :: i < n ==> SvcAnswered(p, cuts, i) }

  ghost predicate ChrsAnswered(p: Peer, cuts: Cuts, cs: seq<ChrView>) { forall x <- cs :: ChrAnswered(p, cuts, x) }

  /** Every answer of a walk that asks all there is to ask of what it is told is whole. */
  ghost predicate AllAnswered(p: Peer, cuts: Cuts) {
    SvcsWhole(p, cuts) && SvcsAnswered(p, cuts, |Told(p, cuts)|) && ChrsAnswered(p, cuts, Cells(Told(p, cuts)))
  }

  // ---- Attributes come in rising order ----

  ghost predicate Rising(a: seq<Descriptor>) { forall k, l :: 0 <= k < l < |a| ==> a[k].handle < a[l].handle }

  lemma RisingConcat(a: seq<Descriptor>, b: seq<Descriptor>)
    requires Rising(a) && Rising(b) && forall x <- a, y <- b :: x.handle < y.handle
    ensures Rising(a + b)
  {
    var c := a + b;
    forall k, l | 0 <= k < l < |c| ensures c[k].handle < c[l].handle {
      assert c[k] == if k < |a| then a[k] else b[k - |a|];
      assert c[l] == if l < |a| then a[l] else b[l - |a|];
    }
  }

  lemma {:induction false} ChrAttrsRising(s: PeerSvc, n: nat)
    requires SvcWf(s) && n <= |s.characteristics|
    ensures Rising(ChrAttrs(s.characteristics[..n]))
    decreases n
  {
    var cs := s.characteristics;
    if n > 0 {
      var k := n - 1;
      ChrAttrsRising(s, k);
      assert cs[..n][..k] == cs[..k] && cs[..n][k] == cs[k];
      assert ChrAt(s, k);
      assert Rising(OwnAttrs(cs[k]));
      forall x <- ChrAttrs(cs[..k]), y <- OwnAttrs(cs[k]) ensures x.handle < y.handle {
        var h := ChrAttrHome(cs[..k], x);
        OwnAttrRange(s, h, x);
        EndsOrdered(s, h, k);
        OwnAttrRange(s, k, y);
      }
      RisingConcat(ChrAttrs(cs[..k]), OwnAttrs(cs[k]));
    }
  }

  lemma SvcAttrsRising(s: PeerSvc)
    requires SvcWf(s)
    ensures Rising(SvcAttrs(s))
  {
    var cs := s.characteristics;
    ChrAttrsRising(s, |cs|);
    assert cs[..|cs|] == cs;
    forall y <- ChrAttrs(cs) ensures s.startHandle < y.handle {
      var h := ChrAttrHome(cs, y);
      OwnAttrRange(s, h, y);
    }
    RisingConcat([Descriptor(PRIMARY_SERVICE, s.startHandle)], ChrAttrs(cs));
  }

  lemma {:induction false} AllAttrsRising(p: Peer, n: nat)
    requires PeerWf(p) && n <= |p|
    ensures Rising(AllAttrs(p[..n]))
    decreases n
  {
    if n > 0 {
      var k := n - 1;
      hide SvcWf, SvcAttrs;
      AllAttrsRising(p, k);
      assert p[..n][..k] == p[..k] && p[..n][k] == p[k];
      SvcAttrsRising(p[k]);
      assert AllAttrs(p[..n]) == AllAttrs(p[..k]) + SvcAttrs(p[k]);
      hide AllAttrs, Rising;
      forall x <- AllAttrs(p[..k]), y <- SvcAttrs(p[k]) ensures x.handle < y.handle {
        AttrsAround(p, k, x);
        SvcAttrRange(p[k], y);
      }
      RisingConcat(AllAttrs(p[..k]), SvcAttrs(p[k]));
    }
  }

  lemma {:induction false} AttrsInMember(a: seq<Descriptor>, lo: nat, hi: nat, x: Descriptor)
    requires x in AttrsIn(a, lo, hi)
    ensures x in a && lo < x.handle <= hi
  {
    if a != [] && x in AttrsIn(a[..|a| - 1], lo, hi) { AttrsInMember(a[..|a| - 1], lo, hi, x); }
  }

  lemma RisingLast(a: seq<Descriptor>, x: Descriptor)
    requires Rising(a) && a != [] && x in a[..|a| - 1]
    ensures Rising(a[..|a| - 1]) && x.handle < a[|a| - 1].handle
  {
  }

  lemma {:induction false} AttrsInRising(a: seq<Descriptor>, lo: nat, hi: nat)
    requires Rising(a)
    ensures Rising(AttrsIn(a, lo, hi))
  {
    if a != [] {
      var n := |a| - 1;
      assert Rising(a[..n]);
      AttrsInRising(a[..n], lo, hi);
      var few := AttrsIn(a[..n], lo, hi);
      forall x <- few ensures x.handle < a[n].handle {
        AttrsInMember(a[..n], lo, hi, x);
        RisingLast(a, x);
      }
      RisingConcat(few, [a[n]]);
      assert few + [] == few;
    }
  }

  /** Rising handles in `(lo, hi]` cannot be more than `hi - lo`. */
  lemma {:induction false} RisingCount(ds: seq<Descriptor>, lo: nat, hi: nat)
    requires lo <= hi && Rising(ds) && forall x <- ds :: lo < x.handle <= hi
    ensures |ds| <= hi - lo
    decreases |ds|
  {
    if ds != [] {
      var n := |ds| - 1;
      assert ds[n] in ds;
      forall x <- ds[..n] ensures lo < x.handle <= ds[n].handle - 1 {
        var k :| 0 <= k < n && ds[k] == x;
      }
      RisingCount(ds[..n], lo, ds[n].handle - 1);
    }
  }

  lemma FewDescriptors(p: Peer, cuts: Cuts, lo: nat, hi: nat)
    requires PeerWf(p) && lo <= hi
    ensures |DscsTold(p, cuts, lo, hi)| <= hi - lo
  {
    hide PeerWf;
    AllAttrsRising(p, |p|);
    assert p[..|p|] == p;
    hide Rising, AllAttrs;
    AttrsInRising(AllAttrs(p), lo, hi);
    forall x <- AttrsIn(AllAttrs(p), lo, hi) ensures lo < x.handle <= hi { AttrsInMember(AllAttrs(p), lo, hi, x); }
    RisingCount(AttrsIn(AllAttrs(p), lo, hi), lo, hi);
  }

  // ---- What is told of a service is a well-formed service ----

  lemma ToldSvcWf(p: Peer, cuts: Cuts, i: nat)
    requires PeerWf(p) && i < |p|
    ensures var t := ToldSvc(p, cuts, p[i]); SvcWf(t) && t.characteristics <= p[i].characteristics
  {
    ServiceRange(p, i);
    hide ChrsBetween, AllChrs;
    var s, t := p[i], ToldSvc(p, cuts, p[i]);
    forall j: nat | j < |t.characteristics| ensures ChrAt(t, j) {
      assert ChrAt(s, j);
      EndsInside(s, j);
    }
  }

  lemma {:induction false} CellHome(p: Peer, cuts: Cuts, n: nat, c: nat) returns (i: nat, j: nat)
    requires n <= |Told(p, cuts)| && c < |Cells(Told(p, cuts)[..n])|
    ensures i < n <= |p| && j < |ToldSvc(p, cuts, p[i]).characteristics|
    ensures Cells(Told(p, cuts)[..n])[c] == ToldChr(p, cuts, Cell(ToldSvc(p, cuts, p[i]), j))
    decreases n
  {
    hide ToldSvc, ToldChr;
    var v, k := Told(p, cuts), n - 1;
    assert v[..n][..k] == v[..k] && v[..n][k] == v[k] == ToldView(p, cuts, p[k]);
    if c < |Cells(v[..k])| {
      i, j := CellHome(p, cuts, k, c);
    } else {
      i, j := k, c - |Cells(v[..k])|;
    }
  }

  /** A characteristic's descriptors are what is told behind its value. */
  lemma CellFacts(p: Peer, cuts: Cuts, c: nat)
    requires c < |Cells(Told(p, cuts))|
    ensures var x := Cells(Told(p, cuts))[c];
      x.descriptors == if x.endHandle > x.valueHandle then DscsTold(p, cuts, x.valueHandle, x.endHandle) else []
  {
    hide Cells, Told, ToldSvc, DscsTold, Cell;
    var v := Told(p, cuts);
    assert v[..|v|] == v;
    var i, j := CellHome(p, cuts, |v|, c);
  }

  lemma ToldIsRoomy(p: Peer, cuts: Cuts)
    ensures Roomy(Cells(Told(p, cuts)))
  {
    hide Told, DscsTold;
    forall x | x in Cells(Told(p, cuts)) ensures x.descriptors != [] ==> x.endHandle > x.valueHandle {
      var c :| 0 <= c < |Cells(Told(p, cuts))| && Cells(Told(p, cuts))[c] == x;
      CellFacts(p, cuts, c);
    }
  }

  // ---- It fits the 16-bit counts and indices of the table ----

  lemma {:induction false} DscsConcat(a: seq<ChrView>, b: seq<ChrView>)
    ensures Dscs(a + b) == Dscs(a) + Dscs(b)
    decreases |b|
  {
    if b == [] {
      assert a + b == a;
    } else {
      var n := |b| - 1;
      DscsConcat(a, b[..n]);
      ConcatAssoc(Dscs(a), Dscs(b[..n]), b[n].descriptors);
      assert (a + b)[..|a + b| - 1] == a + b[..n] && (a + b)[|a + b| - 1] == b[n];
    }
  }

  /** The first `j` characteristics of a service and their descriptors fit below the end of the last of them. */
  lemma {:induction false} SvcCount(p: Peer, cuts: Cuts, i: nat, j: nat)
    requires PeerWf(p) && i < |p| && j <= |ToldSvc(p, cuts, p[i]).characteristics| && SvcWf(ToldSvc(p, cuts, p[i]))
    ensures var t := ToldSvc(p, cuts, p[i]);
      j + |Dscs(ToldView(p, cuts, p[i]).characteristics[..j])| <=
        (if j == 0 then t.startHandle else ChrEnd(t, j - 1)) - t.startHandle
    decreases j
  {
    hide PeerWf, DscsTold, ChrsTold;
    var t, own := ToldSvc(p, cuts, p[i]), ToldView(p, cuts, p[i]).characteristics;
    if j > 0 {
      SvcCount(p, cuts, i, j - 1);
      assert own[..j][..j - 1] == own[..j - 1];
      assert ChrAt(t, j - 1);
      if j > 1 { assert ChrAt(t, j - 2); }
      FewDescriptors(p, cuts, t.characteristics[j - 1].valueHandle, ChrEnd(t, j - 1));
    }
  }

  lemma SvcFits(p: Peer, cuts: Cuts, i: nat)
    requires PeerWf(p) && i < |p|
    ensures var own := ToldView(p, cuts, p[i]).characteristics; |own| + |Dscs(own)| <= p[i].endHandle - p[i].startHandle
  {
    var t, own := ToldSvc(p, cuts, p[i]), ToldView(p, cuts, p[i]).characteristics;
    ToldSvcWf(p, cuts, i);
    SvcCount(p, cuts, i, |own|);
    assert own[..|own|] == own;
    if own != [] { EndsInside(t, |own| - 1); }
  }

  lemma LastHandle(p: Peer, i: nat)
    requires PeerWf(p) && i < |p|
    ensures 1 <= p[i].startHandle <= p[i].endHandle <= MAX_HANDLE
  {
    assert SvcWf(p[i]);
  }

  lemma {:induction false} PrefixFits(p: Peer, cuts: Cuts, n: nat)
    requires PeerWf(p) && n <= |Told(p, cuts)|
    ensures n <= |p|
    ensures var cs := Cells(Told(p, cuts)[..n]); n + |cs| + |Dscs(cs)| <= if n == 0 then 0 else p[n - 1].endHandle
    decreases n
  {
    hide SvcWf, ToldView;
    if n > 0 {
      var v, k := Told(p, cuts), n - 1;
      PrefixFits(p, cuts, k);
      assert v[..n][..k] == v[..k] && v[..n][k] == v[k] == ToldView(p, cuts, p[k]);
      DscsConcat(Cells(v[..k]), v[k].characteristics);
      SvcFits(p, cuts, k);
      LastHandle(p, k);
      assert k > 0 ==> p[k - 1].endHandle < p[k].startHandle;
    }
  }

  /** So the counts and indices of the table, and of its services, cannot wrap, at any point of the walk. */
  lemma TableFits(p: Peer, cuts: Cuts, n: nat)
    requires PeerWf(p) && n <= |Told(p, cuts)|
    ensures var cs := Cells(Told(p, cuts)[..n]); n + |cs| + |Dscs(cs)| < 0x1_0000
  {
    hide PeerWf, Told;
    PrefixFits(p, cuts, n);
    if n > 0 { LastHandle(p, n - 1); }
  }

  // ---- When it is the whole tree ----

  lemma SvcWhole(p: Peer, cuts: Cuts, i: nat)
    requires PeerWf(p) && i < |p| && cuts.characteristics(p[i].startHandle) >= |p[i].characteristics|
    ensures ToldSvc(p, cuts, p[i]) == p[i]
  {
    ServiceRange(p, i);
  }

  lemma SvcUncut(p: Peer, cuts: Cuts, i: nat)
    requires PeerWf(p) && i < |p|
    ensures ToldView(p, cuts, p[i]) == SvcTree(p[i]) <==> UncutSvc(cuts, p[i])
  {
    hide AttrsIn, AllAttrs, PeerWf, ChrsBetween, AllChrs;
    var s, a, b := p[i], ToldView(p, cuts, p[i]).characteristics, SvcTree(p[i]).characteristics;
    ServiceRange(p, i);
    if |a| == |b| {
      SvcWhole(p, cuts, i);
      assert cuts.characteristics(s.startHandle) >= |s.characteristics|;
      forall j | 0 <= j < |b|
        ensures a[j] == b[j] <==>
          cuts.descriptors(s.characteristics[j].valueHandle) >= |s.characteristics[j].descriptors|
      {
        ChrUncut(p, cuts, i, j);
      }
      assert a == b <==> forall j :: 0 <= j < |b| ==> a[j] == b[j];
    }
  }

  lemma ChrUncut(p: Peer, cuts: Cuts, i: nat, j: nat)
    requires PeerWf(p) && i < |p| && j < |p[i].characteristics|
    ensures var c := p[i].characteristics[j];
      ToldChr(p, cuts, Cell(p[i], j)) == Cell(p[i], j) <==> cuts.descriptors(c.valueHandle) >= |c.descriptors|
  {
    var s := p[i];
    assert SvcWf(s);
    assert ChrAt(s, j);
    CharacteristicRange(p, i, j);
    hide AttrsIn, AllAttrs, PeerWf;
    var c := s.characteristics[j];
    if c.descriptors != [] { assert c.valueHandle < c.descriptors[0].handle <= ChrEnd(s, j); }
  }

  /** What is told is the peer's tree exactly when no answer about the tree stopped early. */
  lemma ToldIsTree(p: Peer, cuts: Cuts)
    requires PeerWf(p)
    ensures Told(p, cuts) == Tree(p) <==> Uncut(p, cuts)
  {
    hide PeerWf, ToldView, SvcTree, UncutSvc;
    var a, b := Told(p, cuts), Tree(p);
    forall i: nat | i < |p| ensures ToldView(p, cuts, p[i]) == SvcTree(p[i]) <==> UncutSvc(cuts, p[i]) {
      SvcUncut(p, cuts, i);
    }
    if |a| == |b| {
      assert a == b <==> forall i :: 0 <= i < |b| ==> a[i] == b[i];
      assert forall i: nat :: i < |b| ==> a[i] == ToldView(p, cuts, p[i]) && b[i] == SvcTree(p[i]);
    }
  }

  /** Each characteristic of a tree is one of its cells. */
  lemma {:induction false} CellOf(v: seq<SvcView>, i: nat, j: nat)
    requires i < |v| && j < |v[i].characteristics|
    ensures v[i].characteristics[j] in Cells(v)
    decreases |v|
  {
    var n := |v| - 1;
    if i < n {
      CellOf(v[..n], i, j);
    } else {
      assert v[n].characteristics[j] in v[n].characteristics;
    }
  }

  lemma ChrAnsweredUncut(p: Peer, cuts: Cuts, i: nat, j: nat)
    requires PeerWf(p) && i < |p| && j < |p[i].characteristics|
    ensures var c := p[i].characteristics[j];
      ChrAnswered(p, cuts, ToldChr(p, cuts, Cell(p[i], j))) <==> cuts.descriptors(c.valueHandle) >= |c.descriptors|
  {
    var s := p[i];
    assert SvcWf(s);
    assert ChrAt(s, j);
    CharacteristicRange(p, i, j);
    hide AttrsIn, AllAttrs, PeerWf, DscsTold;
    var c := s.characteristics[j];
    if c.descriptors != [] { assert c.valueHandle < c.descriptors[0].handle <= ChrEnd(s, j); }
  }

  lemma AnsweredIsUncut(p: Peer, cuts: Cuts)
    requires PeerWf(p) && AllAnswered(p, cuts)
    ensures Uncut(p, cuts)
  {
    hide PeerWf, ToldSvc, ToldChr, Cell, Cells, ChrAnswered, ChrsBetween, AllChrs;
    var v := Told(p, cuts);
    forall i: nat | i < |p| ensures UncutSvc(cuts, p[i]) {
      ServiceRange(p, i);
      assert SvcAnswered(p, cuts, i);
      SvcWhole(p, cuts, i);
      assert v[i] == ToldView(p, cuts, p[i]);
      forall j | 0 <= j < |p[i].characteristics|
        ensures cuts.descriptors(p[i].characteristics[j].valueHandle) >= |p[i].characteristics[j].descriptors|
      {
        CellOf(v, i, j);
        assert v[i].characteristics[j] == ToldChr(p, cuts, Cell(p[i], j));
        ChrAnsweredUncut(p, cuts, i, j);
      }
    }
  }

  lemma UncutIsAnswered(p: Peer, cuts: Cuts)
    requires PeerWf(p) && Uncut(p, cuts)
    ensures AllAnswered(p, cuts)
  {
    hide PeerWf, ToldSvc, ToldChr, Cell, Cells, ChrAnswered, ChrsBetween, AllChrs;
    var v := Told(p, cuts);
    forall i: nat | i < |p| ensures SvcAnswered(p, cuts, i) && ToldSvc(p, cuts, p[i]) == p[i] {
      assert UncutSvc(cuts, p[i]);
      ServiceRange(p, i);
      SvcWhole(p, cuts, i);
    }
    forall x <- Cells(v) ensures ChrAnswered(p, cuts, x) {
      var c :| 0 <= c < |Cells(v)| && Cells(v)[c] == x;
      assert v[..|v|] == v;
      var i, j := CellHome(p, cuts, |v|, c);
      assert UncutSvc(cuts, p[i]);
      ChrAnsweredUncut(p, cuts, i, j);
    }
  }

  /** What is told is the peer's tree exactly when every answer the walk asks for is whole. */
  lemma AnsweredIsTree(p: Peer, cuts: Cuts)
    requires PeerWf(p)
    ensures Told(p, cuts) == Tree(p) <==> AllAnswered(p, cuts)
  {
    hide PeerWf, Told, Tree, AllAnswered, Uncut;
    ToldIsTree(p, cuts);
    if Uncut(p, cuts) { UncutIsAnswered(p, cuts); }
    if AllAnswered(p, cuts) { AnsweredIsUncut(p, cuts); }
  }

  // ---- What each answer tells the walk ----

  /** Characteristic `j` as it is told, against the tree being put together. */
  lemma ChrEventFacts(p: Peer, cuts: Cuts, i: nat, j: nat)
    requires PeerWf(p) && i < |p|
    ensures var own, cs := ToldView(p, cuts, p[i]).characteristics, ToldSvc(p, cuts, p[i]).characteristics;
      && |own| == |cs| && |own| < 0x1_0000
      && (j < |own| ==> own[j].uuid == cs[j].uuid && own[j].valueHandle == cs[j].valueHandle)
      && (j < |own| ==> own[j].properties == cs[j].properties)
      && (0 < j < |own| ==> cs[j].defHandle >= 1 && own[j - 1].endHandle == cs[j].defHandle - 1)
      && (0 < j == |own| ==> own[j - 1].endHandle == p[i].endHandle)
  {
    hide PeerWf, SvcWf, ToldSvc, ToldView, ToldChr, Cell, Dscs, ChrEnd, ChrsTold, DscsTold;
    SvcFits(p, cuts, i);
    LastHandle(p, i);
    ToldLength(p, cuts, p[i]);
    if j < |ToldSvc(p, cuts, p[i]).characteristics| { ToldCell(p, cuts, p[i], j); }
    if 0 < j <= |ToldSvc(p, cuts, p[i]).characteristics| { ToldEnd(p, cuts, i, j - 1); }
  }

  /** A characteristic as told ends below the next one's declaration, the last one with the service. */
  lemma ToldEnd(p: Peer, cuts: Cuts, i: nat, j: nat)
    requires PeerWf(p) && i < |p| && j < |ToldSvc(p, cuts, p[i]).characteristics|
    ensures var own, cs := ToldView(p, cuts, p[i]).characteristics, ToldSvc(p, cuts, p[i]).characteristics;
      if j + 1 < |cs| then cs[j + 1].defHandle >= 1 && own[j].endHandle == cs[j + 1].defHandle - 1
      else own[j].endHandle == p[i].endHandle
  {
    ToldSvcWf(p, cuts, i);
    var t := ToldSvc(p, cuts, p[i]);
    assert ChrAt(t, j);
    if j + 1 < |t.characteristics| { assert ChrAt(t, j + 1); }
    hide PeerWf, ToldView, ToldSvc, ChrsTold;
    ToldCell(p, cuts, p[i], j);
  }

  lemma ToldLength(p: Peer, cuts: Cuts, s: PeerSvc)
    ensures |ToldView(p, cuts, s).characteristics| == |ToldSvc(p, cuts, s).characteristics|
  {
    hide ToldSvc, ToldChr;
  }

  lemma ToldCell(p: Peer, cuts: Cuts, s: PeerSvc, j: nat)
    requires j < |ToldSvc(p, cuts, s).characteristics|
    ensures var t, own := ToldSvc(p, cuts, s), ToldView(p, cuts, s).characteristics;
      && j < |own| && own[j].uuid == t.characteristics[j].uuid && own[j].properties == t.characteristics[j].properties
      && own[j].valueHandle == t.characteristics[j].valueHandle
      && own[j].endHandle == if ChrEnd(t, j) < 0 then 0 else ChrEnd(t, j)
  {
    hide ChrsTold, DscsTold, ChrEnd;
  }
}
