/** The scan-response merger of components/ble_device_base/scan_response_merger.cpp: eight slots as a bounded map. */
module Merger {
  import opened Basics
  import Uuid
  import Address

  type Byte = Uuid.Byte

  const MAX_PENDING := 8
  const TIMEOUT_MS := 300
  const DATA_MAX := 62
  const NO_MAC: Address.Mac := [0, 0, 0, 0, 0, 0]

  /** An advertising report as the controller hands it over. */
  datatype Report = Report(mac: Address.Mac, addrType: int, rssi: int, data: seq<Byte>)

  /** What the merger is given: a scannable advertisement, or a scan response. */
  datatype Arrival = Adv(report: Report) | Rsp(report: Report)

  datatype Key = Key(mac: Address.Mac, addrType: int)

  function KeyOf(r: Report): Key { Key(r.mac, r.addrType) }

  /** What listeners receive. */
  datatype Frame = Frame(key: Key, rssi: int, data: seq<Byte>, rawOnly: bool)

  /**
   * Where a delivered frame came from: handed straight on, held and released alone, merged, or an unmatched response.
   */
  datatype Origin =
    | Direct(adv: Report)
    | Released(adv: Report)
    | Merged(adv: Report, rsp: Report)
    | Unmatched(rsp: Report)

  function Parts(o: Origin): seq<Arrival> {
    match o
    case Direct(a) => [Adv(a)]
    case Released(a) => [Adv(a)]
    case Merged(a, r) => [Adv(a), Rsp(r)]
    case Unmatched(r) => [Rsp(r)]
  }

  /** The frame an origin must produce; a merged pair reports the advertisement's signal strength. */
  function Render(o: Origin): Frame {
    match o
    case Direct(a) => Frame(KeyOf(a), a.rssi, a.data, false)
    case Released(a) => Frame(KeyOf(a), a.rssi, Clip(a.data, DATA_MAX), false)
    case Merged(a, r) =>
      var held := Clip(a.data, DATA_MAX);
      Frame(KeyOf(a), a.rssi, held + Clip(r.data, DATA_MAX - |held|), false)
    case Unmatched(r) => Frame(KeyOf(r), r.rssi, r.data, true)
  }

  /** Legacy reports of at most 31 octets lose nothing in the merge. */
  lemma MergeIsLossless(a: Report, r: Report)
    requires |a.data| <= 31 && |r.data| <= 31
    ensures Render(Merged(a, r)).data == a.data + r.data
  {
  }

  lemma ClipBoth(a: seq<Byte>, b: seq<Byte>)
    ensures var h := Clip(a, DATA_MAX); h + Clip(b, DATA_MAX - |h|) == Clip(h + b, DATA_MAX)
  {
  }

  function Rendered(os: seq<Origin>): seq<Frame> { seq(|os|, i requires 0 <= i < |os| => Render(os[i])) }

  /** The reports of device `k`, in order. */
  function ReportsOf(rs: seq<Arrival>, k: Key): seq<Arrival> {
    if rs == [] then []
    else
      var r := rs[|rs| - 1];
      ReportsOf(rs[..|rs| - 1], k) + if KeyOf(r.report) == k then [r] else []
  }

  /** The reports a sequence of deliveries accounts for, in delivery order. */
  function AllParts(os: seq<Origin>): seq<Arrival> {
    if os == [] then [] else AllParts(os[..|os| - 1]) + Parts(os[|os| - 1])
  }

  lemma {:induction false} ReportsOfConcat(a: seq<Arrival>, b: seq<Arrival>, k: Key)
    ensures ReportsOf(a + b, k) == ReportsOf(a, k) + ReportsOf(b, k)
    decreases |b|
  {
    if b == [] {
      assert a + b == a;
    } else {
      ReportsOfConcat(a, b[..|b| - 1], k);
      assert (a + b)[..|a + b| - 1] == a + b[..|b| - 1];
    }
  }

  /** One more delivery appends its parts to what its own device has received, and nothing elsewhere. */
  lemma DeliverParts(os: seq<Origin>, o: Origin, k: Key)
    requires forall p <- Parts(o) :: KeyOf(p.report) == Render(o).key
    ensures AllParts(os + [o]) == AllParts(os) + Parts(o)
    ensures ReportsOf(AllParts(os + [o]), k) == ReportsOf(AllParts(os), k) + if Render(o).key == k then Parts(o) else []
  {
    assert (os + [o])[..|os|] == os;
    ReportsOfConcat(AllParts(os), Parts(o), k);
    hide Render;
    OwnReports(Parts(o), k, Render(o).key);
  }

  /** One or two reports of the same device are all of it, or none. */
  lemma OwnReports(ps: seq<Arrival>, k: Key, device: Key)
    requires 0 < |ps| <= 2 && forall i :: 0 <= i < |ps| ==> KeyOf(ps[i].report) == device
    ensures ReportsOf(ps, k) == if device == k then ps else []
  {
    var one := ps[..1];
    assert one[..0] == [] && ReportsOf([], k) == [];
    assert ReportsOf(one, k) == if device == k then one else [];
    if |ps| == 2 { assert ps[..|ps| - 1] == one && ps == one + [ps[1]]; } else { assert one == ps; }
  }

  /** A slot of the table; its contents are meaningful while `used` is set. */
  datatype Slot = Slot(used: bool, key: Key, rssi: int, data: seq<Byte>, storedMs: nat)

  function Used(s: seq<Slot>): nat {
    if s == [] then 0 else Used(s[..|s| - 1]) + if s[|s| - 1].used then 1 else 0
  }

  lemma {:induction false} UsedUpdate(s: seq<Slot>, i: nat, x: Slot)
    requires i < |s|
    ensures Used(s[i := x]) == Used(s) + (if x.used then 1 else 0) - (if s[i].used then 1 else 0)
  {
    var n := |s| - 1;
    if i < n {
      UsedUpdate(s[..n], i, x);
      assert s[i := x][..n] == s[..n][i := x];
    } else {
      assert s[i := x][..n] == s[..n];
    }
  }

  lemma {:induction false} UsedBounds(s: seq<Slot>)
    ensures Used(s) <= |s|
    ensures Used(s) == |s| <==> forall i :: 0 <= i < |s| ==> s[i].used
    ensures Used(s) == 0 <==> forall i :: 0 <= i < |s| ==> !s[i].used
  {
    if s != [] { UsedBounds(s[..|s| - 1]); }
  }

  // ---- The ledger: for every device, delivered reports followed by the held one are exactly the arrived ones ----

  /** The value of the abstract table for one device. */
  datatype Held = Held(adv: Report, storedMs: nat)

  ghost predicate Ledger(os: seq<Origin>, held: map<Key, Held>, arrived: seq<Arrival>) {
    && (forall k :: k in held ==> KeyOf(held[k].adv) == k)
    && (forall k :: Settled(os, held, arrived, k))
    && |arrived| == |AllParts(os)| + |held|
  }

  ghost predicate Settled(os: seq<Origin>, held: map<Key, Held>, arrived: seq<Arrival>, k: Key) {
    ReportsOf(arrived, k) == ReportsOf(AllParts(os), k) + if k in held then [Adv(held[k].adv)] else []
  }

  lemma ArriveOne(arrived: seq<Arrival>, r: Arrival, k: Key)
    ensures ReportsOf(arrived + [r], k) == ReportsOf(arrived, k) + if KeyOf(r.report) == k then [r] else []
  {
    assert (arrived + [r])[..|arrived|] == arrived;
  }

  lemma LedgerHold(os: seq<Origin>, held: map<Key, Held>, arrived: seq<Arrival>, r: Report, now: nat)
    requires Ledger(os, held, arrived) && KeyOf(r) !in held
    ensures Ledger(os, held[KeyOf(r) := Held(r, now)], arrived + [Adv(r)])
  {
    hide ReportsOf;
    var h, a := held[KeyOf(r) := Held(r, now)], arrived + [Adv(r)];
    forall k ensures Settled(os, h, a, k) {
      assert Settled(os, held, arrived, k);
      ArriveOne(arrived, Adv(r), k);
    }
  }

  lemma LedgerRelease(os: seq<Origin>, held: map<Key, Held>, arrived: seq<Arrival>, d: Key)
    requires Ledger(os, held, arrived) && d in held
    ensures Ledger(os + [Released(held[d].adv)], held - {d}, arrived) && |held - {d}| == |held| - 1
  {
    hide ReportsOf;
    hide AllParts;
    var h, o := held - {d}, os + [Released(held[d].adv)];
    assert h.Keys == held.Keys - {d};
    forall k ensures Settled(o, h, arrived, k) {
      assert Settled(os, held, arrived, k);
      DeliverParts(os, Released(held[d].adv), k);
    }
    DeliverParts(os, Released(held[d].adv), d);
  }

  lemma LedgerPass(os: seq<Origin>, held: map<Key, Held>, arrived: seq<Arrival>, o: Origin, r: Arrival)
    requires Ledger(os, held, arrived) && KeyOf(r.report) !in held
    requires o == if r.Adv? then Direct(r.report) else Unmatched(r.report)
    ensures Ledger(os + [o], held, arrived + [r])
  {
    hide ReportsOf;
    hide AllParts;
    var os', a := os + [o], arrived + [r];
    forall k ensures Settled(os', held, a, k) {
      assert Settled(os, held, arrived, k);
      DeliverParts(os, o, k);
      ArriveOne(arrived, r, k);
    }
    DeliverParts(os, o, KeyOf(r.report));
  }

  lemma LedgerMerge(os: seq<Origin>, held: map<Key, Held>, arrived: seq<Arrival>, r: Report)
    requires Ledger(os, held, arrived) && KeyOf(r) in held
    ensures var d := KeyOf(r);
      Ledger(os + [Merged(held[d].adv, r)], held - {d}, arrived + [Rsp(r)]) && |held - {d}| == |held| - 1
  {
    var d := KeyOf(r);
    var o := Merged(held[d].adv, r);
    var os', h, a := os + [o], held - {d}, arrived + [Rsp(r)];
    assert h.Keys == held.Keys - {d};
    forall k ensures Settled(os', h, a, k) { MergeSettles(os, held, arrived, r, k); }
    DeliverParts(os, o, d);
    hide Settled, ReportsOf, AllParts, Render;
  }

  lemma MergeSettles(os: seq<Origin>, held: map<Key, Held>, arrived: seq<Arrival>, r: Report, k: Key)
    requires Settled(os, held, arrived, k) && KeyOf(r) in held && KeyOf(held[KeyOf(r)].adv) == KeyOf(r)
    ensures Settled(os + [Merged(held[KeyOf(r)].adv, r)], held - {KeyOf(r)}, arrived + [Rsp(r)], k)
  {
    var o := Merged(held[KeyOf(r)].adv, r);
    assert Render(o).key == KeyOf(r) && forall p <- Parts(o) :: KeyOf(p.report) == KeyOf(r);
    hide ReportsOf, AllParts, Render;
    DeliverParts(os, o, k);
    ArriveOne(arrived, Rsp(r), k);
    var before := ReportsOf(AllParts(os), k);
    hide *;
    if k == KeyOf(r) {
      Regroup(before, Adv(held[k].adv), Rsp(r));
    } else {
      assert before + [] == before;
    }
  }

  lemma Regroup(s: seq<Arrival>, a: Arrival, b: Arrival)
    ensures (s + [a]) + [b] == s + [a, b]
  {
  }

  // ---- The slot table as a map ----

  ghost predicate Represents(s: seq<Slot>, held: map<Key, Held>) {
    && (forall i :: 0 <= i < |s| && s[i].used ==> SlotHolds(s[i], held))
    && (forall i, j :: 0 <= i < j < |s| && s[i].used && s[j].used ==> s[i].key != s[j].key)
    && (forall k {:trigger HasSlot(s, k)} :: k in held ==> HasSlot(s, k))
    && |held| == Used(s)
  }

  ghost predicate HasSlot(s: seq<Slot>, k: Key) { exists i :: 0 <= i < |s| && s[i].used && s[i].key == k }

  ghost predicate SlotHolds(x: Slot, held: map<Key, Held>) {
    && x.key in held
    && var h := held[x.key];
    && x.rssi == h.adv.rssi && x.data == Clip(h.adv.data, DATA_MAX) && x.storedMs == h.storedMs
    && KeyOf(h.adv) == x.key
  }

  lemma FreeSlot(s: seq<Slot>, held: map<Key, Held>, i: nat)
    requires Represents(s, held) && i < |s| && s[i].used
    ensures Represents(s[i := s[i].(used := false)], held - {s[i].key})
  {
    var t, h := s[i := s[i].(used := false)], held - {s[i].key};
    UsedUpdate(s, i, t[i]);
    hide Used;
    hide Clip;
    assert SlotHolds(s[i], held);
    assert h.Keys == held.Keys - {s[i].key};
    forall j | 0 <= j < |t| && t[j].used ensures SlotHolds(t[j], h) {
      assert t[j] == s[j] && SlotHolds(s[j], held);
    }
    hide SlotHolds;
    forall k | k in h ensures HasSlot(t, k) {
      assert HasSlot(s, k);
      var j :| 0 <= j < |s| && s[j].used && s[j].key == k;
      assert t[j].used && t[j].key == k;
    }
  }

  lemma FillSlot(s: seq<Slot>, held: map<Key, Held>, i: nat, r: Report, now: nat)
    requires Represents(s, held) && i < |s| && !s[i].used && KeyOf(r) !in held
    ensures Represents(s[i := Slot(true, KeyOf(r), r.rssi, Clip(r.data, DATA_MAX), now)],
      held[KeyOf(r) := Held(r, now)])
  {
    var x := Slot(true, KeyOf(r), r.rssi, Clip(r.data, DATA_MAX), now);
    var t, h := s[i := x], held[KeyOf(r) := Held(r, now)];
    UsedUpdate(s, i, x);
    hide Used;
    hide Clip;
    forall j | 0 <= j < |t| && t[j].used && j != i ensures SlotHolds(t[j], h) {
      assert t[j] == s[j] && SlotHolds(s[j], held);
    }
    forall k | k in h ensures HasSlot(t, k) {
      if k == KeyOf(r) {
        assert t[i].used;
      } else {
        assert HasSlot(s, k);
        var j :| 0 <= j < |s| && s[j].used && s[j].key == k;
        assert t[j].used && t[j].key == k;
      }
    }
  }

  lemma NoFreeSlot(s: seq<Slot>, held: map<Key, Held>)
    requires Represents(s, held)
    ensures |held| <= |s| && (|held| == |s| <==> forall i :: 0 <= i < |s| ==> s[i].used)
  {
    UsedBounds(s);
  }

  lemma NoSlotNoKey(s: seq<Slot>, held: map<Key, Held>, k: Key)
    requires Represents(s, held) && forall i :: 0 <= i < |s| && s[i].used ==> s[i].key != k
    ensures k !in held
  {
    assert k in held ==> HasSlot(s, k);
  }

  /** An unsigned 32-bit clock difference above the timeout. */
  predicate Expired(now: nat, storedMs: nat) { (now - storedMs) % CLOCK > TIMEOUT_MS }

  // ---- What one report does ----

  function AfterAdv(h: map<Key, Held>, r: Report, now: nat): map<Key, Held> {
    if KeyOf(r) in h || |h| < MAX_PENDING then h[KeyOf(r) := Held(r, now)] else h
  }

  /** The older frame of the same device, or the new frame itself when there is no room for it. */
  function SentByAdv(h: map<Key, Held>, r: Report): seq<Origin> {
    if KeyOf(r) in h then [Released(h[KeyOf(r)].adv)] else if |h| < MAX_PENDING then [] else [Direct(r)]
  }

  function SentByRsp(h: map<Key, Held>, r: Report): Origin {
    if KeyOf(r) in h then Merged(h[KeyOf(r)].adv, r) else Unmatched(r)
  }

  /** What can be asked of the merger. */
  datatype Call = Stashed(adv: Report, now: nat) | Responded(rsp: Report) | Swept(now: nat) | Flushed

  /** What a call makes of the table. */
  ghost predicate Holds(h: map<Key, Held>, c: Call, after: map<Key, Held>) {
    match c
    case Stashed(adv, now) => after == AfterAdv(h, adv, now)
    case Responded(rsp) => after == h - {KeyOf(rsp)}
    case Swept(now) =>
      && (forall k :: k in after <==> k in h && !Expired(now, h[k].storedMs))
      && forall k :: k in after ==> after[k] == h[k]
    case Flushed => after == map[]
  }

  ghost predicate Calls(tables: seq<map<Key, Held>>, calls: seq<Call>) {
    && |tables| == |calls| + 1
    && forall t :: 0 <= t < |calls| ==> Holds(tables[t], calls[t], tables[t + 1])
  }

  /** The call releases a frame held since `storedMs`, whatever its device. */
  predicate Releases(c: Call, storedMs: nat) { c.Flushed? || (c.Swept? && Expired(c.now, storedMs)) }

  /** The call brings a report of device `k`. */
  predicate Brings(c: Call, k: Key) {
    (c.Stashed? && KeyOf(c.adv) == k) || (c.Responded? && KeyOf(c.rsp) == k)
  }

  lemma EntryStep(h: map<Key, Held>, c: Call, after: map<Key, Held>, k: Key, e: Held)
    requires Holds(h, c, after) && !Brings(c, k) && (k in h ==> h[k] == e)
    ensures k in after <==> k in h && !Releases(c, e.storedMs)
    ensures k in after ==> after[k] == e
  {
  }

  /** The entry of a device stays until something releases it; only the device itself touches it otherwise. */
  lemma {:induction false} EntryStays(tables: seq<map<Key, Held>>, calls: seq<Call>, k: Key, e: Held)
    requires Calls(tables, calls) && k in tables[0] && tables[0][k] == e
    requires forall c <- calls :: !Brings(c, k)
    ensures k in tables[|calls|] <==> forall c <- calls :: !Releases(c, e.storedMs)
    ensures k in tables[|calls|] ==> tables[|calls|][k] == e
    decreases |calls|
  {
    if calls != [] {
      var n := |calls| - 1;
      EntryStays(tables[..n + 1], calls[..n], k, e);
      EntryStep(tables[n], calls[n], tables[n + 1], k, e);
      assert calls == calls[..n] + [calls[n]];
    }
  }

  /**
   * An advertisement that finds its device held or a slot free (of eight), and the device's next scan response, are
   * merged exactly when nothing released the advertisement in between, whatever other devices report meanwhile.
   */
  lemma PairIsMerged(
      h: map<Key, Held>, a: Report, now: nat, tables: seq<map<Key, Held>>, calls: seq<Call>, r: Report)
    requires KeyOf(a) in h || |h| < 8
    requires Calls(tables, calls) && Holds(h, Stashed(a, now), tables[0])
    requires KeyOf(r) == KeyOf(a) && forall c <- calls :: !Brings(c, KeyOf(a))
    ensures SentByRsp(tables[|calls|], r) ==
            if forall c <- calls :: !Releases(c, now) then Merged(a, r) else Unmatched(r)
    ensures forall k :: k != KeyOf(a) ==> (k in tables[0] <==> k in h) && (k in h ==> tables[0][k] == h[k])
  {
    EntryStays(tables, calls, KeyOf(a), Held(a, now));
  }

  /** With no slot free a new device's advertisement goes out at once, and nothing that is held gives way to it. */
  lemma FullTablePassesOn(h: map<Key, Held>, a: Report, now: nat)
    requires KeyOf(a) !in h && |h| >= 8
    ensures SentByAdv(h, a) == [Direct(a)] && Holds(h, Stashed(a, now), h)
  {
  }

  /** The older frame of a device that is stashed again goes out alone; nothing else goes out then. */
  lemma RestashReleases(h: map<Key, Held>, a: Report)
    ensures KeyOf(a) in h ==> SentByAdv(h, a) == [Released(h[KeyOf(a)].adv)]
    ensures KeyOf(a) !in h && |h| < 8 ==> SentByAdv(h, a) == []
  {
  }

  /** On the true clock, within a turn of it: the frames held for more than 300 ms. */
  lemma ExpiredIsElapsed(stored: nat, now: nat)
    requires stored <= now < stored + CLOCK
    ensures Expired(now % CLOCK, stored % CLOCK) <==> now - stored > 300
  {
    ClockDifference(stored, now);
  }

  class ScanResponseMerger {
    const slots: array<Slot>
    var pendingCount: nat
    var delivered: seq<Frame>
    ghost var origins: seq<Origin>
    ghost var held: map<Key, Held>
    ghost var arrived: seq<Arrival>

    ghost predicate Valid() reads this, slots {
      && slots.Length == MAX_PENDING && pendingCount == |held|
      && Represents(slots[..], held)
      && delivered == Rendered(origins)
      && Ledger(origins, held, arrived)
    }

    constructor ()
      ensures Valid() && fresh(slots) && held == map[] && arrived == [] && delivered == []
    {
      slots := new Slot[MAX_PENDING](_ => Slot(false, Key(NO_MAC, 0), 0, [], 0));
      pendingCount, delivered, origins, held, arrived := 0, [], [], map[], [];
      new;
      UsedBounds(slots[..]);
      hide ReportsOf;
    }

    /**
     * Only an unmatched scan response goes out as raw; a merged frame has its advertisement's signal strength, and its
     * advertisement's data before the response's, 62 octets of them at most.
     */
    lemma DeliveredAs(i: nat)
      requires Valid() && i < |delivered|
      ensures i < |origins| && var o, d := origins[i], delivered[i];
        && (d.rawOnly <==> o.Unmatched?)
        && d.rssi == (if o.Unmatched? then o.rsp.rssi else o.adv.rssi)
        && d.key == KeyOf(if o.Unmatched? then o.rsp else o.adv)
        && match o
           case Direct(adv) => d.data == adv.data
           case Unmatched(rsp) => d.data == rsp.data
           case Released(adv) => d.data == Clip(adv.data, 62)
           case Merged(adv, rsp) => d.data == Clip(Clip(adv.data, 62) + rsp.data, 62)
    {
      if origins[i].Merged? { ClipBoth(origins[i].adv.data, origins[i].rsp.data); }
    }

    lemma EmptyHoldsNothing()
      requires Valid()
      ensures pendingCount == 0 ==> held == map[]
    {
    }

    lemma NothingHeldNothingPending()
      requires Valid() && held == map[]
      ensures pendingCount == 0
    {
    }

    /** Every delivery goes through here. */
    method Deliver(frame: Frame, ghost o: Origin)
      requires frame == Render(o) && delivered == Rendered(origins)
      modifies this`delivered, this`origins
      ensures delivered == old(delivered) + [frame] && origins == old(origins) + [o] && delivered == Rendered(origins)
    {
      delivered, origins := delivered + [frame], origins + [o];
    }

    /** Empties slot `i` and delivers what it held. */
    method Release(i: nat)
      requires Valid() && i < MAX_PENDING && slots[i].used
      modifies this, slots
      ensures Valid() && arrived == old(arrived) && slots[..] == old(slots[..])[i := old(slots[i]).(used := false)]
      ensures var k := old(slots[i].key);
        && k in old(held) && held == old(held) - {k}
        && origins == old(origins) + [Released(old(held)[k].adv)]
    {
      hide Ledger;
      hide Rendered;
      FreeSlot(slots[..], held, i);
      var p := slots[i];
      assert SlotHolds(p, held);
      LedgerRelease(origins, held, arrived, p.key);
      slots[i] := p.(used := false);
      pendingCount := pendingCount - 1;
      ghost var o := Released(held[p.key].adv);
      held := held - {p.key};
      Deliver(Frame(p.key, p.rssi, p.data, false), o);
    }

    /**
     * Holds a scannable advertisement. A device already held has its older frame delivered first; a full table delivers
     * the new frame unmerged.
     */
    method StashAdv(r: Report, now: nat)
      requires Valid()
      modifies this, slots
      ensures Valid() && arrived == old(arrived) + [Adv(r)]
      ensures Holds(old(held), Stashed(r, now), held) && origins == old(origins) + SentByAdv(old(held), r)
    {
      hide Ledger, Rendered, Represents;
      ghost var k, h := KeyOf(r), held;
      var slot, free, i := -1, -1, 0;
      while i < MAX_PENDING
        invariant 0 <= i <= MAX_PENDING && unchanged(this) && unchanged(slots) && slot == -1 && -1 <= free < i
        invariant forall j :: 0 <= j < i && slots[j].used ==> slots[j].key != k
        invariant if free >= 0 then !slots[free].used else forall j :: 0 <= j < i ==> slots[j].used
      {
        if !slots[i].used {
          if free < 0 { free := i; }
        } else if slots[i].key == KeyOf(r) {
          Release(i);
          slot := i;
          break;
        }
        i := i + 1;
      }
      if slot < 0 {
        NoSlotNoKey(slots[..], h, k);
        NoFreeSlot(slots[..], h);
        slot := free;
      }
      if slot < 0 {
        LedgerPass(origins, held, arrived, Direct(r), Adv(r));
        Deliver(Frame(KeyOf(r), r.rssi, r.data, false), Direct(r));
        arrived := arrived + [Adv(r)];
        return;
      }
      Store(slot, r, now);
    }

    /** Writes a frame of a device not held yet into a free slot. */
    method Store(slot: nat, r: Report, now: nat)
      requires Valid() && slot < MAX_PENDING && !slots[slot].used && KeyOf(r) !in held
      modifies `pendingCount, `held, `arrived, slots
      ensures Valid() && arrived == old(arrived) + [Adv(r)] && held == old(held)[KeyOf(r) := Held(r, now)]
    {
      hide Ledger, Rendered, Represents;
      ghost var before := slots[..];
      FillSlot(before, held, slot, r, now);
      LedgerHold(origins, held, arrived, r, now);
      slots[slot] := Slot(true, KeyOf(r), r.rssi, Clip(r.data, DATA_MAX), now);
      assert slots[..] == before[slot := slots[slot]];
      pendingCount := pendingCount + 1;
      held, arrived := held[KeyOf(r) := Held(r, now)], arrived + [Adv(r)];
    }

    /** Appends a scan response to the advertisement held for its device, or passes it on as raw. */
    method SubmitScanRsp(r: Report)
      requires Valid()
      modifies this, slots
      ensures Valid() && arrived == old(arrived) + [Rsp(r)]
      ensures Holds(old(held), Responded(r), held) && origins == old(origins) + [SentByRsp(old(held), r)]
    {
      hide Ledger;
      hide Rendered;
      ghost var k, h := KeyOf(r), held;
      if pendingCount != 0 {
        var i := 0;
        while i < MAX_PENDING
          invariant 0 <= i <= MAX_PENDING && unchanged(this) && unchanged(slots)
          invariant forall j :: 0 <= j < i && slots[j].used ==> slots[j].key != k
        {
          var p := slots[i];
          if p.used && p.key == KeyOf(r) {
            assert SlotHolds(p, held);
            var room := DATA_MAX - |p.data|;
            var data := p.data + Clip(r.data, room);
            FreeSlot(slots[..], held, i);
            LedgerMerge(origins, held, arrived, r);
            slots[i] := p.(used := false);
            pendingCount := pendingCount - 1;
            ghost var o := Merged(held[k].adv, r);
            held, arrived := held - {k}, arrived + [Rsp(r)];
            Deliver(Frame(KeyOf(r), p.rssi, data, false), o);
            return;
          }
          i := i + 1;
        }
        NoSlotNoKey(slots[..], h, k);
      }
      assert held - {k} == held;
      LedgerPass(origins, held, arrived, Unmatched(r), Rsp(r));
      Deliver(Frame(KeyOf(r), r.rssi, r.data, true), Unmatched(r));
      arrived := arrived + [Rsp(r)];
    }

    /** Releases every held advertisement older than the timeout, and only those. */
    method Sweep(now: nat)
      requires Valid()
      modifies this, slots
      ensures Valid() && arrived == old(arrived) && old(origins) <= origins
      ensures |origins| - |old(origins)| == |old(held)| - |held|
      ensures Holds(old(held), Swept(now), held)
    {
      hide Ledger;
      hide Rendered;
      if pendingCount == 0 { return; }
      var i := 0;
      while i < MAX_PENDING
        invariant 0 <= i <= MAX_PENDING && Valid() && arrived == old(arrived) && old(origins) <= origins
        invariant |origins| - |old(origins)| == |old(held)| - |held|
        invariant forall k :: k in held ==> k in old(held) && held[k] == old(held)[k]
        invariant forall k :: k in old(held) && k !in held ==> Expired(now, old(held)[k].storedMs)
        invariant forall j :: 0 <= j < i && slots[j].used ==> !Expired(now, slots[j].storedMs)
      {
        if slots[i].used && Expired(now, slots[i].storedMs) {
          assert SlotHolds(slots[i], held);
          Release(i);
        }
        i := i + 1;
      }
      forall k | k in held ensures !Expired(now, held[k].storedMs) {
        assert HasSlot(slots[..], k);
        var j :| 0 <= j < MAX_PENDING && slots[j].used && slots[j].key == k;
        assert SlotHolds(slots[..][j], held);
      }
    }

    /** Releases everything. */
    method Flush()
      requires Valid()
      modifies this, slots
      ensures Valid() && arrived == old(arrived) && Holds(old(held), Flushed, held) && old(origins) <= origins
      ensures |origins| - |old(origins)| == |old(held)|
    {
      hide Ledger;
      hide Rendered;
      if pendingCount == 0 { return; }
      var i := 0;
      while i < MAX_PENDING
        invariant 0 <= i <= MAX_PENDING && Valid() && arrived == old(arrived) && old(origins) <= origins
        invariant |origins| - |old(origins)| == |old(held)| - |held|
        invariant forall j :: 0 <= j < i ==> !slots[j].used
      {
        if slots[i].used { Release(i); }
        i := i + 1;
      }
      UsedBounds(slots[..]);
    }
  }
}
