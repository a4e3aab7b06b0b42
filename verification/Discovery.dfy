/** The event-driven discovery walk of components/nimble_ble/nimble_gattc.cpp against a peer's attribute tree. */
module Discovery {
  import opened Gatt
  import opened PeerReport
  import opened ConnectionFsm

  const NOT_CONNECTED := -1

  datatype Event =
    | DiscSvc(uuid: Uuid, startHandle: nat, endHandle: nat)
    | DiscSvcDone(status: int)
    | DiscChr(uuid: Uuid, defHandle: nat, valueHandle: nat, properties: nat)
    | DiscChrDone(status: int)
    | DiscDsc(uuid: Uuid, handle: nat)
    | DiscDscDone(status: int)

  function SvcReply(p: Peer, status: int): (r: seq<Event>)
    ensures |r| == |p| + 1
  {
    seq(|p|, i requires 0 <= i < |p| => DiscSvc(p[i].uuid, p[i].startHandle, p[i].endHandle)) + [DiscSvcDone(status)]
  }

  function ChrReply(cs: seq<PeerChr>, status: int): (r: seq<Event>)
    ensures |r| == |cs| + 1
  {
    seq(|cs|, j requires 0 <= j < |cs| => DiscChr(cs[j].uuid, cs[j].defHandle, cs[j].valueHandle, cs[j].properties))
      + [DiscChrDone(status)]
  }

  function DscReply(ds: seq<Descriptor>, status: int): (r: seq<Event>)
    ensures |r| == |ds| + 1
  {
    seq(|ds|, k requires 0 <= k < |ds| => DiscDsc(ds[k].uuid, ds[k].handle)) + [DiscDscDone(status)]
  }

  /** The status of a procedure that the peer ends with an ATT error (unlikely error); the link stays up. */
  const ATT_UNLIKELY := 0x10E

  /**
   * What the host stack will say: the return code of its n-th request, and how its n-th procedure ends. It never ends
   * one with the clean status whose answer was not whole.
   */
  datatype Script = Script(codes: nat -> int, ends: nat -> int)

  /**
   * The host stack and the peer behind it. It runs one procedure at a time, may refuse any request, and always
   * refuses an empty descriptor range. A procedure may break off: `cuts` says how much of each answer arrives, and
   * the event that ends it carries a status, which is the clean one only if the answer was whole. `inbox` holds the
   * events of the running procedure not yet handled.
   */
  class Host {
    const peer: Peer
    const cuts: Cuts
    const script: Script
    var inbox: seq<Event>
    var asked: nat
    var status: int
    /** The code of the last refusal; 0 while nothing was refused. */
    var refusal: int
    var emptyRange: bool

    constructor (peer: Peer, cuts: Cuts, script: Script)
      ensures this.peer == peer && this.cuts == cuts && this.script == script
      ensures inbox == [] && refusal == 0 && !emptyRange
    {
      this.peer, this.cuts, this.script := peer, cuts, script;
      inbox, asked, status, refusal, emptyRange := [], 0, 0, 0, false;
    }

    /** A host that refuses nothing. */
    ghost predicate Willing() { forall n: nat :: script.codes(n) == 0 }

    /** Starts a procedure, unless the stack refuses. */
    method Start(whole: bool) returns (rc: int)
      modifies `asked, `status, `refusal
      ensures rc == 0 ==> refusal == old(refusal) && (status == EDONE ==> whole)
      ensures rc != 0 ==> refusal == rc && !Willing()
    {
      rc := script.codes(asked);
      status := if whole || script.ends(asked) != EDONE then script.ends(asked) else ATT_UNLIKELY;
      asked := asked + 1;
      if rc != 0 { refusal := rc; }
    }

    method DiscAllSvcs() returns (rc: int)
      requires inbox == []
      modifies this
      ensures rc == 0 ==> inbox == SvcReply(SvcsTold(peer, cuts), status) && refusal == old(refusal)
      ensures rc == 0 ==> (status == EDONE ==> SvcsWhole(peer, cuts))
      ensures rc != 0 ==> inbox == [] && refusal == rc && !Willing()
      ensures emptyRange == old(emptyRange)
    {
      rc := Start(SvcsWhole(peer, cuts));
      if rc == 0 { inbox := SvcReply(SvcsTold(peer, cuts), status); }
    }

    method DiscAllChrs(lo: nat, hi: nat) returns (rc: int)
      requires inbox == []
      modifies this
      ensures rc == 0 ==> inbox == ChrReply(ChrsTold(peer, cuts, lo, hi), status) && refusal == old(refusal)
      ensures rc == 0 ==> (status == EDONE ==> ChrsWhole(peer, cuts, lo, hi))
      ensures rc != 0 ==> inbox == [] && refusal == rc && !Willing()
      ensures emptyRange == old(emptyRange)
    {
      rc := Start(ChrsWhole(peer, cuts, lo, hi));
      if rc == 0 { inbox := ChrReply(ChrsTold(peer, cuts, lo, hi), status); }
    }

    /** Starts one past the given value handle, as the stack does internally. */
    method DiscAllDscs(valueHandle: nat, hi: nat) returns (rc: int)
      requires inbox == []
      modifies this
      ensures rc == 0 ==> inbox == DscReply(DscsTold(peer, cuts, valueHandle, hi), status) && refusal == old(refusal)
      ensures rc == 0 ==> (status == EDONE ==> DscsWhole(peer, cuts, valueHandle, hi))
      ensures rc != 0 ==> inbox == [] && refusal == rc
      ensures valueHandle < hi ==> emptyRange == old(emptyRange) && (rc != 0 ==> !Willing())
    {
      if valueHandle >= hi {
        emptyRange, refusal := true, -1;
        return -1;
      }
      rc := Start(DscsWhole(peer, cuts, valueHandle, hi));
      if rc == 0 { inbox := DscReply(DscsTold(peer, cuts, valueHandle, hi), status); }
    }
  }

  /** Where the walk is: inside a service list, a service's characteristics, a characteristic's descriptors, or over. */
  datatype Phase = AtSvcs(k: nat) | AtChrs(i: nat, j: nat) | AtDscs(c: nat, d: nat) | Over(error: int)

  function RawSvc(s: SvcView): Service { Service(s.uuid, s.startHandle, s.endHandle, 0, 0) }

  function RawSvcs(v: seq<SvcView>): seq<Service> { seq(|v|, i requires 0 <= i < |v| => RawSvc(v[i])) }

  function RawChr(c: ChrView): Characteristic {
    Characteristic(c.uuid, c.valueHandle, c.endHandle, c.properties, 0, 0)
  }

  function RawChrs(cs: seq<ChrView>): seq<Characteristic> { seq(|cs|, k requires 0 <= k < |cs| => RawChr(cs[k])) }

  /** The first `j` characteristics of a service; the last one's end is not known yet. */
  function Partial(own: seq<ChrView>, j: nat): (r: seq<Characteristic>)
    requires j <= |own|
    ensures |r| == j
  {
    seq(j, k requires 0 <= k < j => if k == j - 1 then RawChr(own[k]).(endHandle := 0) else RawChr(own[k]))
  }

  function SvcsAt(v: seq<SvcView>, i: nat, j: nat): seq<Service>
    requires i < |v|
  {
    FlatSvcs(v[..i]) + [RawSvc(v[i]).(firstCharacteristic := |Cells(v[..i])|, characteristicCount := j)]
      + RawSvcs(v[i + 1..])
  }

  function ChrsAt(cs: seq<ChrView>, c: nat, d: nat): seq<Characteristic>
    requires c < |cs|
  {
    FlatChrs(cs[..c]) + [RawChr(cs[c]).(firstDescriptor := |Dscs(cs[..c])|, descriptorCount := d)]
      + RawChrs(cs[c + 1..])
  }

  // ---- How the arrays grow ----

  lemma SvcStart(v: seq<SvcView>, i: nat, x: seq<Service>)
    requires i < |v| && x == FlatSvcs(v[..i]) + RawSvcs(v[i..])
    ensures |x| == |v| && x[i] == RawSvc(v[i])
    ensures x[i := x[i].(firstCharacteristic := |Cells(v[..i])|)] == SvcsAt(v, i, 0)
  {
    assert v[i..] == [v[i]] + v[i + 1..];
  }

  lemma SvcEnd(v: seq<SvcView>, i: nat)
    requires i < |v|
    ensures SvcsAt(v, i, |v[i].characteristics|) == FlatSvcs(v[..i + 1]) + RawSvcs(v[i + 1..])
    ensures Cells(v[..i + 1]) == Cells(v[..i]) + v[i].characteristics
  {
    assert v[..i + 1][..i] == v[..i];
  }

  lemma ChrStart(cs: seq<ChrView>, c: nat, x: seq<Characteristic>)
    requires c < |cs| && x == FlatChrs(cs[..c]) + RawChrs(cs[c..])
    ensures |x| == |cs| && x[c] == RawChr(cs[c])
    ensures x[c := x[c].(firstDescriptor := |Dscs(cs[..c])|)] == ChrsAt(cs, c, 0)
  {
    assert cs[c..] == [cs[c]] + cs[c + 1..];
  }

  lemma ChrSkip(cs: seq<ChrView>, c: nat, x: seq<Characteristic>)
    requires c < |cs| && x == FlatChrs(cs[..c]) + RawChrs(cs[c..])
    requires cs[c].endHandle <= cs[c].valueHandle && cs[c].descriptors == []
    ensures x == FlatChrs(cs[..c + 1]) + RawChrs(cs[c + 1..]) && Dscs(cs[..c + 1]) == Dscs(cs[..c])
  {
    assert cs[..c + 1][..c] == cs[..c];
    assert cs[c..] == [cs[c]] + cs[c + 1..];
  }

  lemma ChrFinish(cs: seq<ChrView>, c: nat)
    requires c < |cs| && cs[c].endHandle > cs[c].valueHandle
    ensures ChrsAt(cs, c, |cs[c].descriptors|) == FlatChrs(cs[..c + 1]) + RawChrs(cs[c + 1..])
    ensures Dscs(cs[..c + 1]) == Dscs(cs[..c]) + cs[c].descriptors
  {
    assert cs[..c + 1][..c] == cs[..c];
  }

  lemma {:induction false} DscsMonotone(cs: seq<ChrView>, c: nat)
    requires c <= |cs|
    ensures |Dscs(cs[..c])| <= |Dscs(cs)|
  {
    DscsConcat(cs[..c], cs[c..]);
    assert cs == cs[..c] + cs[c..];
  }

  // ---- The engine ----

  lemma SvcStep(v: seq<SvcView>, i: nat, j: nat)
    requires i < |v|
    ensures var x := SvcsAt(v, i, j);
      && |x| == |v| && x[i] == RawSvc(v[i]).(firstCharacteristic := |Cells(v[..i])|, characteristicCount := j)
      && x[i := x[i].(characteristicCount := j + 1)] == SvcsAt(v, i, j + 1)
  {
  }

  lemma ChrStep(cs: seq<ChrView>, c: nat, d: nat)
    requires c < |cs|
    ensures var x := ChrsAt(cs, c, d);
      && |x| == |cs| && x[c] == RawChr(cs[c]).(firstDescriptor := |Dscs(cs[..c])|, descriptorCount := d)
      && x[c := x[c].(descriptorCount := d + 1)] == ChrsAt(cs, c, d + 1)
  {
  }

  /** Sets the end handle of the last characteristic known so far. */
  function SetEnd(x: seq<Characteristic>, end: nat): (r: seq<Characteristic>)
    requires x != []
    ensures |r| == |x|
  {
    x[|x| - 1 := x[|x| - 1].(endHandle := end)]
  }

  lemma PartialStep(base: seq<Characteristic>, own: seq<ChrView>, j: nat)
    requires j < |own|
    ensures (if j > 0 then SetEnd(base + Partial(own, j), own[j - 1].endHandle) else base + Partial(own, j))
            + [RawChr(own[j]).(endHandle := 0)] == base + Partial(own, j + 1)
  {
  }

  lemma PartialEnd(cs: seq<ChrView>, own: seq<ChrView>)
    ensures (if |own| > 0 then SetEnd(RawChrs(cs) + Partial(own, |own|), own[|own| - 1].endHandle)
             else RawChrs(cs) + Partial(own, |own|)) == RawChrs(cs + own)
  {
  }

  lemma DscsFit(p: Peer, cuts: Cuts, c: nat)
    requires PeerWf(p) && c < |Cells(Told(p, cuts))|
    ensures |Dscs(Cells(Told(p, cuts))[..c])| < 0x1_0000 && |Cells(Told(p, cuts))[c].descriptors| < 0x1_0000
  {
    hide PeerWf, Told, Cells, Dscs;
    var v := Told(p, cuts);
    assert v[..|v|] == v;
    TableFits(p, cuts, |v|);
    DscsPrefix(Cells(v), c);
    DscsMonotone(Cells(v), c);
  }

  lemma ChrEventAt(p: Peer, cuts: Cuts, i: nat, j: nat)
    requires PeerWf(p) && i < |Told(p, cuts)|
    ensures i < |p|
    ensures var own, cs := Told(p, cuts)[i].characteristics, ToldSvc(p, cuts, p[i]).characteristics;
      && |own| < 0x1_0000 && |cs| == |own|
      && (0 < j < |own| ==> cs[j].defHandle >= 1 && own[j - 1].endHandle == cs[j].defHandle - 1)
      && (0 < j == |own| ==> own[j - 1].endHandle == Told(p, cuts)[i].endHandle)
  {
    ChrEventFacts(p, cuts, i, j);
    hide ToldSvc, ToldChr, PeerWf;
  }

  /** One more characteristic: the previous one is closed below it, and the service's range grows by one. */
  lemma CharacteristicAdded(v: seq<SvcView>, i: nat, j: nat, svcs: seq<Service>, chrs: seq<Characteristic>,
                            chr: Characteristic, defHandle: nat)
    requires i < |v| && j < |v[i].characteristics| < 0x1_0000
    requires svcs == SvcsAt(v, i, j) && chrs == RawChrs(Cells(v[..i])) + Partial(v[i].characteristics, j)
    requires chr == RawChr(v[i].characteristics[j]).(endHandle := 0)
    requires j > 0 ==> defHandle >= 1 && defHandle - 1 == v[i].characteristics[j - 1].endHandle
    ensures i < |svcs| && svcs[i].characteristicCount == j && (j > 0 ==> chrs != [])
    ensures svcs[i := svcs[i].(characteristicCount := j + 1)] == SvcsAt(v, i, j + 1)
    ensures (if j > 0 then SetEnd(chrs, defHandle - 1) else chrs) + [chr]
            == RawChrs(Cells(v[..i])) + Partial(v[i].characteristics, j + 1)
  {
    SvcStep(v, i, j);
    PartialStep(RawChrs(Cells(v[..i])), v[i].characteristics, j);
    hide SvcsAt, Partial, RawChrs, Cells, SetEnd;
  }

  /** The service whose characteristics have all been told is in its final flat form once the last one's end is set. */
  lemma ServiceCloses(v: seq<SvcView>, i: nat, svcs: seq<Service>, chrs: seq<Characteristic>)
    requires i < |v| && svcs == SvcsAt(v, i, |v[i].characteristics|)
    requires var own := v[i].characteristics;
      && chrs == RawChrs(Cells(v[..i])) + Partial(own, |own|)
      && (own != [] ==> own[|own| - 1].endHandle == v[i].endHandle)
    ensures i < |svcs| && (svcs[i].characteristicCount > 0 ==> chrs != [])
    ensures (if svcs[i].characteristicCount > 0 then SetEnd(chrs, svcs[i].endHandle) else chrs) ==
      RawChrs(Cells(v[..i + 1]))
    ensures svcs == FlatSvcs(v[..i + 1]) + RawSvcs(v[i + 1..])
  {
    SvcStep(v, i, |v[i].characteristics|);
    SvcEnd(v, i);
    PartialEnd(Cells(v[..i]), v[i].characteristics);
    hide SvcsAt, Partial, RawChrs, FlatSvcs, RawSvcs, Cells, SetEnd;
  }

  function Stage(p: Phase): nat { if p.AtSvcs? then 3 else if p.AtChrs? then 2 else if p.AtDscs? then 1 else 0 }

  function Index(p: Phase): nat { if p.AtChrs? then p.i else if p.AtDscs? then p.c else 0 }

  /** Every procedure so far ended as one does that has delivered its whole answer. */
  ghost predicate Clean(seen: seq<int>) { forall k :: 0 <= k < |seen| ==> seen[k] == EDONE }

  lemma CleanStep(seen: seq<int>, status: int)
    ensures Clean(seen + [status]) <==> Clean(seen) && status == EDONE
  {
    var s := seen + [status];
    assert s[|seen|] == status;
    assert forall k :: 0 <= k < |seen| ==> s[k] == seen[k];
  }

  lemma SvcAnsweredStep(p: Peer, cuts: Cuts, n: nat)
    ensures SvcsAnswered(p, cuts, n + 1) <==> SvcsAnswered(p, cuts, n) && SvcAnswered(p, cuts, n)
  {
  }

  lemma ChrAnsweredStep(p: Peer, cuts: Cuts, cs: seq<ChrView>, n: nat)
    requires n < |cs|
    ensures ChrsAnswered(p, cuts, cs[..n + 1]) <==> ChrsAnswered(p, cuts, cs[..n]) && ChrAnswered(p, cuts, cs[n])
  {
    hide ChrAnswered;
    var a, b := cs[..n], cs[..n + 1];
    assert b == a + [cs[n]];
    assert cs[n] in b;
    if ChrsAnswered(p, cuts, b) {
      forall x <- a ensures ChrAnswered(p, cuts, x) { assert x in b; }
    }
    if ChrsAnswered(p, cuts, a) && ChrAnswered(p, cuts, cs[n]) {
      forall x <- b ensures ChrAnswered(p, cuts, x) { assert x in a || x == cs[n]; }
    }
  }

  /** The walk only moves forward: to a later stage, a later index, or a shorter queue. */
  ghost predicate Before(p: Phase, q: Phase, n: nat, m: nat) {
    Stage(q) < Stage(p) || (Stage(q) == Stage(p) && (Index(p) < Index(q) || (Index(p) == Index(q) && m < n)))
  }

  ghost function Left(v: seq<SvcView>, p: Phase): int {
    if p.AtChrs? then |v| - p.i else if p.AtDscs? then |Cells(v)| - p.c else 0
  }

  function U16(n: nat): nat { n % 0x1_0000 }

  class NimbleGattEngine {
    const host: Host
    var services: seq<Service>
    var characteristics: seq<Characteristic>
    var descriptors: seq<Descriptor>
    var svcIndex: nat
    var chrIndex: nat
    /** Whether there is a connection handle. */
    var linked: bool
    /**
     * The completions reported to the listener, the events handed to the state machine, and whether the link was torn
     * down.
     */
    var reports: seq<int>
    var events: seq<ConnEvent>
    var terminated: bool
    /** The statuses the procedures so far ended with; the code drops them. */
    ghost var seen: seq<int>
    ghost var phase: Phase

    ghost function V(): seq<SvcView> { Told(host.peer, host.cuts) }

    /** What the peer tells of the characteristics of service `i`. */
    ghost function Chrs(i: nat): seq<PeerChr>
      requires i < |V()|
    {
      ToldSvc(host.peer, host.cuts, host.peer[i]).characteristics
    }

    /** The walk is going on. */
    ghost predicate Walking() reads this, host {
      linked && reports == [] && events == [] && !terminated && host.refusal == 0 && !host.emptyRange
    }

    /** If the statuses seen were all clean, every answer so far was whole. */
    ghost predicate Noted(services: nat, chrs: nat) reads this
      requires chrs <= |Cells(V())|
    {
      Clean(seen) ==>
        && SvcsWhole(host.peer, host.cuts) && SvcsAnswered(host.peer, host.cuts, services)
        && ChrsAnswered(host.peer, host.cuts, Cells(V())[..chrs])
    }

    ghost predicate Inv() reads this, host {
      && PeerWf(host.peer) && !host.emptyRange
      && match phase
         case AtSvcs(k) => InvSvcs(k)
         case AtChrs(i, j) => InvChrs(i, j)
         case AtDscs(c, d) => InvDscs(c, d)
         case Over(error) => InvOver(error)
    }

    ghost predicate InvSvcs(k: nat) reads this, host {
      && k <= |V()| && services == RawSvcs(V()[..k]) && characteristics == [] && descriptors == []
      && host.inbox == SvcReply(SvcsTold(host.peer, host.cuts), host.status)[k..] && Walking()
      && seen == [] && (host.status == EDONE ==> SvcsWhole(host.peer, host.cuts))
    }

    ghost predicate InvChrs(i: nat, j: nat) reads this, host {
      && i < |V()| && svcIndex == i && j <= |V()[i].characteristics|
      && services == SvcsAt(V(), i, j)
      && characteristics == RawChrs(Cells(V()[..i])) + Partial(V()[i].characteristics, j)
      && descriptors == []
      && host.inbox == ChrReply(Chrs(i), host.status)[j..] && Walking()
      && Noted(i, 0) && (host.status == EDONE ==> SvcAnswered(host.peer, host.cuts, i))
    }

    ghost predicate InvDscs(c: nat, d: nat) reads this, host {
      var cs := Cells(V());
      && c < |cs| && chrIndex == c && d <= |cs[c].descriptors| && cs[c].endHandle > cs[c].valueHandle
      && services == FlatSvcs(V()) && characteristics == ChrsAt(cs, c, d)
      && descriptors == Dscs(cs[..c]) + cs[c].descriptors[..d]
      && host.inbox == DscReply(cs[c].descriptors, host.status)[d..] && Walking()
      && Noted(|V()|, c) && (host.status == EDONE ==> ChrAnswered(host.peer, host.cuts, cs[c]))
    }

    ghost predicate InvOver(error: int) reads this, host {
      && host.inbox == [] && reports == [error] && terminated == (error != 0)
      && events == [if error == 0 then DiscoverDone else DiscoverTimeout]
      && error == host.refusal && (error != 0 ==> !host.Willing())
      && (error == 0 ==> Table(services, characteristics, descriptors) == Flatten(V()) && Noted(|V()|, |Cells(V())|))
    }

    constructor (host: Host, linked: bool)
      ensures this.host == host && this.linked == linked && reports == [] && events == [] && !terminated && seen == []
    {
      this.host, this.linked := host, linked;
      services, characteristics, descriptors, svcIndex, chrIndex := [], [], [], 0, 0;
      reports, events, terminated, seen := [], [], false, [];
      phase := Over(0);
    }

    method DiscoverServices() returns (rc: int)
      requires PeerWf(host.peer) && host.inbox == [] && (linked ==> Walking()) && seen == []
      modifies this, host
      ensures rc == 0 ==> old(linked) && Inv() && phase == AtSvcs(0)
      ensures rc != 0 && old(linked) ==>
        host.inbox == [] && host.refusal == rc && !host.Willing() && reports == [] && events == [] && !host.emptyRange
      ensures !old(linked) ==> rc == NOT_CONNECTED && unchanged(this) && unchanged(host)
    {
      if !linked { return NOT_CONNECTED; }
      services, characteristics, descriptors := [], [], [];
      svcIndex, chrIndex := 0, 0;
      rc := host.DiscAllSvcs();
      phase := AtSvcs(0);
    }

    /** Tells the state machine, tears the link down if a step of the walk failed, and reports the completion. */
    method FinishDiscovery(error: int)
      modifies `reports, `events, `terminated, `phase
      ensures reports == old(reports) + [error] && phase == Over(error)
      ensures events == old(events) + [if error == 0 then DiscoverDone else DiscoverTimeout]
      ensures terminated == (old(terminated) || (error != 0 && linked))
    {
      events := events + [if error == 0 then DiscoverDone else DiscoverTimeout];
      if error != 0 && linked { terminated := true; }
      reports := reports + [error];
      phase := Over(error);
    }

    /** Asks for the characteristics of service `svcIndex`, or moves on to descriptors after the last one. */
    method StartNextServiceChrDiscovery()
      requires PeerWf(host.peer) && host.inbox == [] && Walking() && descriptors == [] && Noted(svcIndex, 0)
      requires svcIndex <= |V()| && characteristics == RawChrs(Cells(V()[..svcIndex]))
      requires services == FlatSvcs(V()[..svcIndex]) + RawSvcs(V()[svcIndex..])
      modifies this, host
      ensures Inv() && svcIndex == old(svcIndex)
      ensures phase.Over? || phase == AtChrs(svcIndex, 0) || (svcIndex == |V()| && phase.AtDscs?)
    {
      hide FlatSvcs, FlatChrs, PeerWf, Cells, Dscs;
      if svcIndex >= |services| {
        chrIndex := 0;
        WholePeer(V());
        StartNextChrDscDiscovery();
        return;
      }
      SvcStart(V(), svcIndex, services);
      TableFits(host.peer, host.cuts, svcIndex);
      LastHandle(host.peer, svcIndex);
      var svc := services[svcIndex];
      services := services[svcIndex := svc.(firstCharacteristic := U16(|characteristics|))];
      var rc := host.DiscAllChrs(svc.startHandle, svc.endHandle);
      phase := AtChrs(svcIndex, 0);
      if rc != 0 { FinishDiscovery(rc); }
    }

    method AskDescriptors()
      requires PeerWf(host.peer) && host.inbox == [] && Walking()
      requires services == FlatSvcs(V()) && chrIndex < |Cells(V())| && Noted(|V()|, chrIndex)
      requires characteristics == FlatChrs(Cells(V())[..chrIndex]) + RawChrs(Cells(V())[chrIndex..])
      requires descriptors == Dscs(Cells(V())[..chrIndex])
      requires Cells(V())[chrIndex].endHandle > Cells(V())[chrIndex].valueHandle
      modifies this, host
      ensures Inv() && svcIndex == old(svcIndex)
      ensures phase.Over? || phase == AtDscs(old(chrIndex), 0)
    {
      hide ChrsAt, SvcsAt, RawSvcs, RawChrs, FlatSvcs, FlatChrs, PeerWf, Cells, Dscs;
      hide InvSvcs, InvChrs, Told, ChrsAnswered, SvcsAnswered, SvcsWhole, DscsTold, DscsWhole, Clean;
      ghost var cs := Cells(V());
      ChrStart(cs, chrIndex, characteristics);
      CellFacts(host.peer, host.cuts, chrIndex);
      DscsFit(host.peer, host.cuts, chrIndex);
      var chr := characteristics[chrIndex];
      characteristics := characteristics[chrIndex := chr.(firstDescriptor := U16(|descriptors|))];
      var rc := host.DiscAllDscs(chr.valueHandle, chr.endHandle);
      phase := AtDscs(chrIndex, 0);
      if rc != 0 { FinishDiscovery(rc); }
    }

    /** Asks for the descriptors of the next characteristic that has room for any. */
    method StartNextChrDscDiscovery()
      requires PeerWf(host.peer) && host.inbox == [] && Walking()
      requires services == FlatSvcs(V()) && chrIndex <= |Cells(V())| && Noted(|V()|, chrIndex)
      requires characteristics == FlatChrs(Cells(V())[..chrIndex]) + RawChrs(Cells(V())[chrIndex..])
      requires descriptors == Dscs(Cells(V())[..chrIndex])
      modifies this, host
      ensures Inv() && svcIndex == old(svcIndex)
      ensures phase.Over? || (phase.AtDscs? && phase.c >= old(chrIndex) && phase.d == 0)
    {
      hide SvcsAt, Partial, RawSvcs, ChrsAt, SvcReply, ChrReply, DscReply, FlatSvcs, FlatChrs, PeerWf, Cells, Dscs;
      hide InvSvcs, InvChrs, InvDscs, Told, ChrsAnswered, SvcsAnswered, SvcsWhole, DscsTold, DscsWhole, Clean;
      ghost var cs := Cells(V());
      while chrIndex < |characteristics|
        invariant old(chrIndex) <= chrIndex <= |cs| == |characteristics|
        invariant characteristics == FlatChrs(cs[..chrIndex]) + RawChrs(cs[chrIndex..])
        invariant descriptors == Dscs(cs[..chrIndex])
        invariant host.inbox == [] && Walking() && Noted(|V()|, chrIndex)
        invariant services == FlatSvcs(V()) && svcIndex == old(svcIndex)
        decreases |cs| - chrIndex
      {
        ChrStart(cs, chrIndex, characteristics);
        CellFacts(host.peer, host.cuts, chrIndex);
        var chr := characteristics[chrIndex];
        if chr.endHandle > chr.valueHandle {
          AskDescriptors();
          return;
        }
        ChrSkip(cs, chrIndex, characteristics);
        ChrAnsweredStep(host.peer, host.cuts, cs, chrIndex);
        chrIndex := chrIndex + 1;
      }
      assert cs[..chrIndex] == cs;
      FinishDiscovery(0);
    }

    /** Only a finished walk has nothing left to handle. */
    lemma WalkIsOver()
      requires Inv() && host.inbox == []
      ensures InvOver(phase.error)
    {
      hide FlatSvcs, FlatChrs, Cells, Dscs, SvcsAt, ChrsAt, RawSvcs, RawChrs, PeerWf, Flatten;
    }

    /** Takes the next event off the queue and handles it. */
    method HandleNext()
      requires Inv() && host.inbox != []
      modifies this, host
      ensures 0 <= Left(V(), phase)
      ensures Inv() && Before(old(phase), phase, |old(host.inbox)|, |host.inbox|)
    {
      hide FlatSvcs, FlatChrs, Cells, Dscs, SvcsAt, ChrsAt, RawSvcs, RawChrs, PeerWf, ChrsTold, DscsTold;
      var event := host.inbox[0];
      match event
      case DiscSvc(uuid, startHandle, endHandle) => OnSvc(Service(uuid, startHandle, endHandle, 0, 0));
      case DiscSvcDone(status) => OnSvcDone(status);
      case DiscChr(uuid, defHandle, valueHandle, properties) =>
        OnChr(defHandle, Characteristic(uuid, valueHandle, 0, properties, 0, 0));
      case DiscChrDone(status) => OnChrDone(status);
      case DiscDsc(uuid, handle) => OnDsc(Descriptor(uuid, handle));
      case DiscDscDone(status) => OnDscDone(status);
    }

    method OnSvc(svc: Service)
      requires Inv() && host.inbox != [] && phase.AtSvcs? && phase.k < |V()| && svc == RawSvc(V()[phase.k])
      modifies this, host
      ensures Inv() && Before(old(phase), phase, |old(host.inbox)|, |host.inbox|)
    {
      ghost var k := phase.k;
      host.inbox := host.inbox[1..];
      services := services + [svc];
      phase := AtSvcs(k + 1);
      assert RawSvcs(V()[..k + 1]) == RawSvcs(V()[..k]) + [RawSvc(V()[k])];
    }

    method OnSvcDone(ghost status: int)
      requires Inv() && host.inbox != [] && status == host.status && phase == AtSvcs(|V()|) && host.inbox[1..] == []
      modifies this, host
      ensures Inv() && Before(old(phase), phase, |old(host.inbox)|, |host.inbox|)
    {
      host.inbox := host.inbox[1..];
      CleanStep(seen, status);
      seen := seen + [status];
      svcIndex := 0;
      assert V()[..phase.k] == V() && V()[0..] == V();
      StartNextServiceChrDiscovery();
    }

    /** The declaration of a characteristic also tells where the previous one ended. */
    method OnChr(defHandle: nat, chr: Characteristic)
      requires Inv() && host.inbox != [] && phase.AtChrs? && phase.j < |V()[phase.i].characteristics|
      requires chr == RawChr(V()[phase.i].characteristics[phase.j]).(endHandle := 0)
      requires phase.j < |Chrs(phase.i)| && defHandle == Chrs(phase.i)[phase.j].defHandle
      modifies this, host
      ensures Inv() && Before(old(phase), phase, |old(host.inbox)|, |host.inbox|)
    {
      hide SvcsAt, RawChrs, Partial, ChrsAt, SvcReply, ChrReply, DscReply, FlatSvcs, FlatChrs, PeerWf, Cells, Dscs;
      ghost var i, j := phase.i, phase.j;
      host.inbox := host.inbox[1..];
      AddCharacteristic(defHandle, chr, j);
      phase := AtChrs(i, j + 1);
    }

    method AddCharacteristic(defHandle: nat, chr: Characteristic, ghost j: nat)
      requires PeerWf(host.peer) && svcIndex < |V()| && j < |V()[svcIndex].characteristics| && j < |Chrs(svcIndex)|
      requires chr == RawChr(V()[svcIndex].characteristics[j]).(endHandle := 0)
      requires defHandle == Chrs(svcIndex)[j].defHandle
      requires services == SvcsAt(V(), svcIndex, j)
      requires characteristics == RawChrs(Cells(V()[..svcIndex])) + Partial(V()[svcIndex].characteristics, j)
      modifies `services, `characteristics
      ensures services == SvcsAt(V(), svcIndex, j + 1)
      ensures characteristics == RawChrs(Cells(V()[..svcIndex])) + Partial(V()[svcIndex].characteristics, j + 1)
    {
      hide Told, ToldSvc, SvcsAt, Partial, RawChrs, RawChr, Cells, PeerWf, SetEnd;
      ChrEventAt(host.peer, host.cuts, svcIndex, j);
      CharacteristicAdded(V(), svcIndex, j, services, characteristics, chr, defHandle);
      hide *;
      AppendCharacteristic(defHandle, chr);
    }

    method AppendCharacteristic(defHandle: nat, chr: Characteristic)
      requires svcIndex < |services| && services[svcIndex].characteristicCount < 0xFFFF
      requires services[svcIndex].characteristicCount > 0 ==> characteristics != [] && defHandle >= 1
      modifies `services, `characteristics
      ensures var n := old(services)[svcIndex].characteristicCount;
        && services == old(services)[svcIndex := old(services)[svcIndex].(characteristicCount := n + 1)]
        && characteristics == (if n > 0 then SetEnd(old(characteristics), defHandle - 1) else old(characteristics))
          + [chr]
    {
      var svc := services[svcIndex];
      if svc.characteristicCount > 0 {
        characteristics := SetEnd(characteristics, defHandle - 1);
      }
      characteristics := characteristics + [chr];
      services := services[svcIndex := svc.(characteristicCount := U16(svc.characteristicCount + 1))];
    }

    method OnChrDone(ghost status: int)
      requires Inv() && host.inbox != [] && status == host.status && phase.AtChrs?
      requires phase.j == |V()[phase.i].characteristics| && host.inbox[1..] == []
      modifies this, host
      ensures Inv() && Before(old(phase), phase, |old(host.inbox)|, |host.inbox|)
    {
      hide SvcsAt, Partial, RawSvcs, RawChrs, ChrsAt, SvcReply, ChrReply, DscReply, FlatSvcs, FlatChrs, PeerWf, Cells,
        Dscs;
      assert phase.j == |V()[svcIndex].characteristics|;
      host.inbox := host.inbox[1..];
      CleanStep(seen, status);
      SvcAnsweredStep(host.peer, host.cuts, svcIndex);
      seen := seen + [status];
      EndService();
      StartNextServiceChrDiscovery();
    }

    /** The last characteristic of a service is taken to reach to the service's end. */
    method EndService()
      requires PeerWf(host.peer) && svcIndex < |V()|
      requires services == SvcsAt(V(), svcIndex, |V()[svcIndex].characteristics|)
      requires characteristics == RawChrs(Cells(V()[..svcIndex]))
        + Partial(V()[svcIndex].characteristics, |V()[svcIndex].characteristics|)
      modifies `characteristics, `svcIndex
      ensures svcIndex == old(svcIndex) + 1 && characteristics == RawChrs(Cells(V()[..svcIndex]))
      ensures services == FlatSvcs(V()[..svcIndex]) + RawSvcs(V()[svcIndex..])
    {
      hide Told, SvcsAt, Partial, RawChrs, FlatSvcs, RawSvcs, Cells, PeerWf, SetEnd;
      ChrEventAt(host.peer, host.cuts, svcIndex, |V()[svcIndex].characteristics|);
      ServiceCloses(V(), svcIndex, services, characteristics);
      hide *;
      CloseService();
    }

    method CloseService()
      requires svcIndex < |services| && (services[svcIndex].characteristicCount > 0 ==> characteristics != [])
      modifies `characteristics, `svcIndex
      ensures svcIndex == old(svcIndex) + 1
      ensures var svc := services[old(svcIndex)];
        characteristics == if svc.characteristicCount > 0 then SetEnd(old(characteristics), svc.endHandle)
          else old(characteristics)
    {
      var svc := services[svcIndex];
      if svc.characteristicCount > 0 {
        characteristics := SetEnd(characteristics, svc.endHandle);
      }
      svcIndex := svcIndex + 1;
    }

    method OnDsc(dsc: Descriptor)
      requires Inv() && host.inbox != [] && phase.AtDscs? && phase.d < |Cells(V())[phase.c].descriptors|
      requires dsc == Cells(V())[phase.c].descriptors[phase.d]
      modifies this, host
      ensures Inv() && Before(old(phase), phase, |old(host.inbox)|, |host.inbox|)
    {
      hide SvcsAt, ChrsAt, SvcReply, ChrReply, DscReply, FlatSvcs, FlatChrs, PeerWf, Cells, Dscs;
      ghost var c, d := phase.c, phase.d;
      DscsFit(host.peer, host.cuts, c);
      ChrStep(Cells(V()), c, d);
      host.inbox := host.inbox[1..];
      descriptors := descriptors + [dsc];
      var chr := characteristics[chrIndex];
      characteristics := characteristics[chrIndex := chr.(descriptorCount := U16(chr.descriptorCount + 1))];
      phase := AtDscs(c, d + 1);
    }

    method OnDscDone(ghost status: int)
      requires Inv() && host.inbox != [] && status == host.status && phase.AtDscs?
      requires phase.d == |Cells(V())[phase.c].descriptors| && host.inbox[1..] == []
      modifies this, host
      ensures Inv() && Before(old(phase), phase, |old(host.inbox)|, |host.inbox|)
    {
      hide SvcsAt, ChrsAt, SvcReply, ChrReply, DscReply, FlatSvcs, FlatChrs, PeerWf, Cells, Dscs;
      ghost var cs := Cells(V());
      assert phase.d == |cs[chrIndex].descriptors| && cs[chrIndex].descriptors[..phase.d] == cs[chrIndex].descriptors;
      ChrFinish(cs, chrIndex);
      host.inbox := host.inbox[1..];
      CleanStep(seen, status);
      ChrAnsweredStep(host.peer, host.cuts, cs, chrIndex);
      seen := seen + [status];
      chrIndex := chrIndex + 1;
      StartNextChrDscDiscovery();
    }

    /**
     * The whole walk, from the request to the report. A reported success stands for what was told: the peer's tree
     * exactly when every answer was whole, and so whenever every procedure ended cleanly. The walk pays no attention to
     * those statuses: it reports the code the stack refused a request with, and success exactly when it refused none.
     */
    method Run() returns (rc: int)
      requires PeerWf(host.peer) && host.inbox == [] && (linked ==> Walking()) && seen == []
      modifies this, host
      ensures rc == 0 ==> old(linked) && |reports| == 1 && reports[0] == host.refusal
      ensures rc == 0 ==> events == [if reports[0] == 0 then DiscoverDone else DiscoverTimeout]
      ensures rc == 0 ==> terminated == (reports[0] != 0)
      ensures rc == 0 && reports[0] == 0 ==>
        var t := Table(services, characteristics, descriptors);
        && InBounds(t) && Unflatten(t) == Told(host.peer, host.cuts)
        && (Unflatten(t) == Tree(host.peer) <==> AllAnswered(host.peer, host.cuts))
        && (Clean(seen) ==> Unflatten(t) == Tree(host.peer))
      ensures rc != 0 && old(linked) ==> host.refusal == rc && reports == [] && events == []
      ensures old(linked) ==> !host.emptyRange && host.inbox == []
      ensures old(linked) && host.Willing() ==> rc == 0 && reports[0] == 0
    {
      hide InvSvcs, InvChrs, InvDscs, PeerWf, Told, Flatten, Unflatten, InBounds, Cells;
      rc := DiscoverServices();
      if rc != 0 { return; }
      while host.inbox != []
        invariant Inv() && 0 <= Left(V(), phase)
        decreases Stage(phase), Left(V(), phase), |host.inbox|
      {
        HandleNext();
      }
      WalkIsOver();
      ToldIsRoomy(host.peer, host.cuts);
      UnflattenFlatten(V());
      AnsweredIsTree(host.peer, host.cuts);
      assert Cells(V())[..|Cells(V())|] == Cells(V());
    }
  }

  /** The service list of a peer of two services breaks off behind the first: the walk reports success all the same. */
  method BrokenOffListSucceeds() returns (engine: NimbleGattEngine)
    ensures engine.reports == [0] && engine.events == [DiscoverDone] && !Clean(engine.seen)
    ensures var t := Table(engine.services, engine.characteristics, engine.descriptors);
      |t.services| == 1 && |engine.host.peer| == 2 && InBounds(t) && Unflatten(t) != Tree(engine.host.peer)
  {
    var p := [PeerSvc(Gatt.PRIMARY_SERVICE, 1, 1, []), PeerSvc(Gatt.PRIMARY_SERVICE, 2, 2, [])];
    var cuts := Cuts(1, _ => 0, _ => 0);
    var host := new Host(p, cuts, Script(_ => 0, _ => ATT_UNLIKELY));
    engine := new NimbleGattEngine(host, true);
    assert PeerWf(p);
    assert |Told(p, cuts)| == 1 && |Tree(p)| == 2;
    hide Told, Tree, Clean;
    var rc := engine.Run();
    assert |Unflatten(Table(engine.services, engine.characteristics, engine.descriptors))| == 1;
  }

  lemma WholePeer(v: seq<SvcView>)
    ensures v[..|v|] == v && FlatSvcs(v) + RawSvcs(v[|v|..]) == FlatSvcs(v)
    ensures FlatChrs(Cells(v)[..0]) + RawChrs(Cells(v)[0..]) == RawChrs(Cells(v)) && Dscs(Cells(v)[..0]) == []
  {
    assert Cells(v)[0..] == Cells(v);
  }
}
