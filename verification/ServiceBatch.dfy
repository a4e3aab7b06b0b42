/** The batches of the service stream: what one frame carries and where it is cut. */
module ServiceBatch {
  import Gatt

  /** A service as a frame carries it: no end handles, and its characteristics inline. */
  datatype WireChr = WireChr(uuid: Gatt.Uuid, handle: nat, properties: nat, descriptors: seq<Gatt.Descriptor>)
  datatype WireSvc = WireSvc(uuid: Gatt.Uuid, handle: nat, characteristics: seq<WireChr>)

  const MAX_PACKET_SIZE := 1360

  // ---- What a table's services look like on the wire ----

  /** Every range the packing of `s` follows stays inside the table. */
  ghost predicate Packable(t: Gatt.Table, s: Gatt.Service) {
    Gatt.ServiceInBounds(t, s) && forall k :: 0 <= k < s.characteristicCount ==> ChrPackable(t, s, k)
  }

  ghost predicate ChrPackable(t: Gatt.Table, s: Gatt.Service, k: nat) {
    var i := s.firstCharacteristic + k;
    i < |t.characteristics| && Gatt.CharacteristicInBounds(t, t.characteristics[i])
  }

  ghost function PackedChr(t: Gatt.Table, c: Gatt.Characteristic): WireChr
    requires Gatt.CharacteristicInBounds(t, c)
  {
    WireChr(c.uuid, c.valueHandle, c.properties, Gatt.Slice(t.descriptors, c.firstDescriptor, c.descriptorCount))
  }

  ghost function OwnChr(t: Gatt.Table, s: Gatt.Service, k: nat): WireChr
    requires ChrPackable(t, s, k)
  {
    PackedChr(t, t.characteristics[s.firstCharacteristic + k])
  }

  /** The service on the wire; a service that cannot be packed has no characteristics here, and is never sent. */
  ghost function Packed(t: Gatt.Table, s: Gatt.Service): WireSvc {
    WireSvc(s.uuid, s.startHandle,
            if !Packable(t, s) then []
            else
              seq(s.characteristicCount, k requires 0 <= k < s.characteristicCount && ChrPackable(t, s, k) =>
                OwnChr(t, s, k)))
  }

  /** The complete database. */
  ghost function Whole(t: Gatt.Table): (r: seq<WireSvc>)
    ensures |r| == |t.services|
  {
    seq(|t.services|, i requires 0 <= i < |t.services| => Packed(t, t.services[i]))
  }

  /** The same, read off a tree. */
  function OnWireChr(c: Gatt.ChrView): WireChr { WireChr(c.uuid, c.valueHandle, c.properties, c.descriptors) }

  function OnWire(s: Gatt.SvcView): WireSvc {
    WireSvc(s.uuid, s.startHandle,
            seq(|s.characteristics|, k requires 0 <= k < |s.characteristics| => OnWireChr(s.characteristics[k])))
  }

  /** A service on the wire keeps its identity and all the tree says of its characteristics but where they end. */
  lemma WireKeeps(s: Gatt.SvcView)
    ensures var w := OnWire(s);
      && w.uuid == s.uuid && w.handle == s.startHandle && |w.characteristics| == |s.characteristics|
      && forall k :: 0 <= k < |s.characteristics| ==> var x, c := w.characteristics[k], s.characteristics[k];
           x.uuid == c.uuid && x.handle == c.valueHandle && x.properties == c.properties
            && x.descriptors == c.descriptors
  {
  }

  /** A table within bounds can be streamed to the end, and streams the tree it stands for. */
  lemma WholeIsTree(t: Gatt.Table)
    requires Gatt.InBounds(t)
    ensures forall i :: 0 <= i < |t.services| ==> Packable(t, t.services[i])
    ensures var v := Gatt.Unflatten(t);
      Whole(t) == seq(|v|, i requires 0 <= i < |v| => OnWire(v[i]))
  {
    var v, w := Gatt.Unflatten(t), Whole(t);
    forall i | 0 <= i < |t.services| ensures Packable(t, t.services[i]) && w[i] == OnWire(v[i]) {
      var s := t.services[i];
      assert Gatt.ServiceInBounds(t, s);
      forall k | 0 <= k < s.characteristicCount
        ensures ChrPackable(t, s, k)
      {
        assert t.characteristics[s.firstCharacteristic + k] in t.characteristics;
      }
      var x, y := w[i].characteristics, OnWire(v[i]).characteristics;
      assert |x| == |y|;
      forall k | 0 <= k < |x| ensures x[k] == y[k] {
        assert Gatt.Slice(t.characteristics, s.firstCharacteristic, s.characteristicCount)[k]
            == t.characteristics[s.firstCharacteristic + k];
      }
      assert x == y;
    }
  }

  // ---- Packing one service ----

  /** The descriptors of one characteristic, or that their range leaves the table. */
  method PackDescriptors(t: Gatt.Table, c: Gatt.Characteristic) returns (ok: bool, out: WireChr)
    ensures ok <==> Gatt.CharacteristicInBounds(t, c)
    ensures ok ==> out == PackedChr(t, c)
  {
    out := WireChr(c.uuid, c.valueHandle, c.properties, []);
    if c.descriptorCount != 0 && c.firstDescriptor + c.descriptorCount > |t.descriptors| { return false, out; }
    ok := true;
    if c.descriptorCount == 0 { return; }
    var own := t.descriptors[c.firstDescriptor..c.firstDescriptor + c.descriptorCount];
    for di := 0 to c.descriptorCount
      invariant out == WireChr(c.uuid, c.valueHandle, c.properties, own[..di])
    {
      out := out.(descriptors := out.descriptors + [t.descriptors[c.firstDescriptor + di]]);
      assert own[..di + 1] == own[..di] + [own[di]];
    }
    assert own[..c.descriptorCount] == own;
  }

  /** One service with everything it owns; refused exactly when one of its ranges leaves the table. */
  method PackService(t: Gatt.Table, s: Gatt.Service) returns (ok: bool, out: WireSvc)
    ensures ok <==> Packable(t, s)
    ensures ok ==> out == Packed(t, s)
  {
    out := WireSvc(s.uuid, s.startHandle, []);
    if s.characteristicCount != 0 && s.firstCharacteristic + s.characteristicCount > |t.characteristics| {
      return false, out;
    }
    for ci := 0 to s.characteristicCount
      invariant out.uuid == s.uuid && out.handle == s.startHandle && |out.characteristics| == ci
      invariant forall k :: 0 <= k < ci ==> ChrPackable(t, s, k) && out.characteristics[k] == OwnChr(t, s, k)
    {
      var fits, chr := PackDescriptors(t, t.characteristics[s.firstCharacteristic + ci]);
      if !fits {
        assert !ChrPackable(t, s, ci);
        return false, out;
      }
      out := out.(characteristics := out.characteristics + [chr]);
    }
    ok := true;
    assert Packable(t, s);
    assert out.characteristics == Packed(t, s).characteristics;
  }

  // ---- The size budget ----

  function Estimate(characteristics: nat, efficient: bool): nat {
    (if efficient then 10 else 25) + (35 + 25) * characteristics
  }

  /** The accounted size of a list of services: each with one byte for its tag. */
  function Weight(size: WireSvc -> nat, list: seq<WireSvc>): nat
    decreases |list|
  {
    if list == [] then 0 else Weight(size, list[..|list| - 1]) + size(list[|list| - 1]) + 1
  }

  lemma WeightAppend(size: WireSvc -> nat, list: seq<WireSvc>, s: WireSvc)
    ensures Weight(size, list + [s]) == Weight(size, list) + size(s) + 1
  {
    var all := list + [s];
    assert all[..|all| - 1] == list;
  }

  /**
   * Accounts the service packed last. Over the budget it is taken out again, unless it is alone: then it is sent all
   * the same. Otherwise it stays and the cursor passes it.
   */
  method CloseServiceBatch(size: WireSvc -> nat, services: seq<WireSvc>, currentSize: nat, cursor: int)
    returns (kept: seq<WireSvc>, newSize: nat, newCursor: int, send: bool)
    requires services != []
    ensures var weight := size(services[|services| - 1]) + 1;
      && (send <==> currentSize + weight > MAX_PACKET_SIZE)
      && newSize == (if send then currentSize else currentSize + weight)
      && (kept, newCursor) == if send && |services| > 1 then (services[..|services| - 1], cursor)
        else (services, cursor + 1)
  {
    kept, newSize, newCursor := services, currentSize, cursor;
    var serviceSize := size(services[|services| - 1]) + 1;
    if currentSize + serviceSize > MAX_PACKET_SIZE {
      if |services| > 1 {
        kept := services[..|services| - 1];
      } else {
        newCursor := cursor + 1;
      }
      return kept, newSize, newCursor, true;
    }
    newSize := currentSize + serviceSize;
    newCursor := cursor + 1;
    send := false;
  }

  /** What the batches depend on besides the table: the frame's own size, the size of a service, the UUID form. */
  datatype Budget = Budget(header: nat, size: WireSvc -> nat, efficient: bool)

  /**
   * `end` is where a batch from `start` may be cut: within the budget or a single service, and no service more would
   * fit.
   */
  ghost predicate Cut(t: Gatt.Table, b: Budget, start: nat, end: nat) {
    && start < end <= |t.services|
    && (b.header + Weight(b.size, Whole(t)[start..end]) <= MAX_PACKET_SIZE || end == start + 1)
    && (end < |t.services| ==>
        || b.header + Weight(b.size, Whole(t)[start..end])
          + Estimate(t.services[end].characteristicCount, b.efficient) > MAX_PACKET_SIZE
        || b.header + Weight(b.size, Whole(t)[start..end + 1]) > MAX_PACKET_SIZE)
  }

  /**
   * A frame holds at least one service, and is accounted at 1360 octets at most unless it holds only one. It ends early
   * only before a service that is expected, at 10 or 25 octets and 60 for each characteristic, or found not to fit.
   */
  lemma CutFits(t: Gatt.Table, b: Budget, start: nat, end: nat)
    requires Cut(t, b, start, end)
    ensures start < end <= |t.services|
    ensures b.header + Weight(b.size, Whole(t)[start..end]) <= 1360 || end - start == 1
    ensures end < |t.services| ==>
      || b.header + Weight(b.size, Whole(t)[start..end])
        + (if b.efficient then 10 else 25) + 60 * t.services[end].characteristicCount > 1360
      || b.header + Weight(b.size, Whole(t)[start..end + 1]) > 1360
  {
    hide Weight, Whole;
  }

  /** The ways a batch that fits so far is cut. */
  lemma CutHere(t: Gatt.Table, b: Budget, start: nat, end: nat)
    requires start < end <= |t.services|
    requires b.header + Weight(b.size, Whole(t)[start..end]) <= MAX_PACKET_SIZE
    requires end == |t.services|
      || b.header + Weight(b.size, Whole(t)[start..end])
        + Estimate(t.services[end].characteristicCount, b.efficient) > MAX_PACKET_SIZE
      || b.header + Weight(b.size, Whole(t)[start..end + 1]) > MAX_PACKET_SIZE
    ensures Cut(t, b, start, end)
  {
  }

  lemma CutAlone(t: Gatt.Table, b: Budget, start: nat)
    requires start < |t.services|
    requires b.header + Weight(b.size, Whole(t)[start..start + 1]) > MAX_PACKET_SIZE
    ensures Cut(t, b, start, start + 1)
  {
  }

  lemma NextService(t: Gatt.Table, size: WireSvc -> nat, start: nat, cursor: nat)
    requires start <= cursor < |t.services|
    ensures var w, s := Whole(t), Packed(t, t.services[cursor]);
      && w[start..cursor + 1] == w[start..cursor] + [s]
      && Weight(size, w[start..cursor + 1]) == Weight(size, w[start..cursor]) + size(s) + 1
  {
    hide Packed, Weight;
    var w, s := Whole(t), Packed(t, t.services[cursor]);
    WeightAppend(size, w[start..cursor], s);
  }

  /** Nothing cuts a batch from `start` before service `i`. */
  ghost predicate Reaches(t: Gatt.Table, b: Budget, start: nat, i: nat)
    requires start <= i < |t.services|
  {
    && (forall j :: start <= j < i ==> Packable(t, t.services[j]))
    && forall j :: start < j <= i ==> Fits(t, b, start, j)
  }

  /** The services from `start` up to `j` are within the budget, and service `j` is expected to be. */
  ghost predicate Fits(t: Gatt.Table, b: Budget, start: nat, j: nat)
    requires start <= j < |t.services|
  {
    b.header + Weight(b.size, Whole(t)[start..j]) + Estimate(t.services[j].characteristicCount, b.efficient)
      <= MAX_PACKET_SIZE
  }

  /** The batch from `start` gets to a service whose ranges leave the table. */
  ghost predicate Aborts(t: Gatt.Table, b: Budget, start: nat) {
    exists i :: start <= i < |t.services| && !Packable(t, t.services[i]) && Reaches(t, b, start, i)
  }

  /** A batch that is cut at or before service `j`, all of it packable, does not abort. */
  lemma CutFirst(t: Gatt.Table, b: Budget, start: nat, j: nat)
    requires start < j <= |t.services| && forall i :: start <= i < j ==> Packable(t, t.services[i])
    requires j < |t.services| ==> !Fits(t, b, start, j)
    ensures !Aborts(t, b, start)
  {
    hide Packable, Fits;
  }

  /**
   * Fills one batch from `start`: exactly the services from there to the new cursor, cut where the budget says. It
   * gives up exactly when it gets to a service whose ranges leave the table.
   */
  method FillBatch(t: Gatt.Table, b: Budget, start: nat) returns (aborted: bool, batch: seq<WireSvc>, cursor: int)
    requires start < |t.services|
    ensures start <= cursor <= |t.services|
    ensures aborted <==> Aborts(t, b, start)
    ensures aborted ==> cursor < |t.services| && !Packable(t, t.services[cursor])
    ensures forall i :: start <= i < cursor ==> Packable(t, t.services[i])
    ensures !aborted ==> start < cursor && batch == Whole(t)[start..cursor] && Cut(t, b, start, cursor)
  {
    hide Packable, Packed, Estimate, Weight, Cut, Whole, Aborts;
    batch, cursor := [], start;
    var currentSize := b.header;
    ghost var w := Whole(t);
    NoWeight(b.size);
    while cursor < |t.services|
      invariant start <= cursor <= |t.services|
      invariant batch == w[start..cursor] && currentSize == b.header + Weight(b.size, batch)
      invariant cursor > start ==> currentSize <= MAX_PACKET_SIZE
      invariant forall i :: start <= i < cursor ==> Packable(t, t.services[i])
      invariant forall j :: start < j < cursor ==> Fits(t, b, start, j)
    {
      var service := t.services[cursor];
      if batch != [] && currentSize + Estimate(service.characteristicCount, b.efficient) > MAX_PACKET_SIZE {
        CutHere(t, b, start, cursor);
        CutFirst(t, b, start, cursor);
        return false, batch, cursor;
      }
      var ok, packed := PackService(t, service);
      if !ok {
        AbortsHere(t, b, start, cursor);
        return true, batch, cursor;
      }
      NextService(t, b.size, start, cursor);
      ghost var at, before := cursor, batch;
      var grown := batch + [packed];
      var send;
      batch, currentSize, cursor, send := CloseServiceBatch(b.size, grown, currentSize, cursor);
      if send {
        if at > start {
          assert grown[..|grown| - 1] == before;
          CutHere(t, b, start, at);
        } else {
          CutAlone(t, b, start);
        }
        CutFirst(t, b, start, at + 1);
        return false, batch, cursor;
      }
    }
    CutHere(t, b, start, cursor);
    CutFirst(t, b, start, cursor);
    aborted := false;
  }

  lemma AbortsHere(t: Gatt.Table, b: Budget, start: nat, i: nat)
    requires start <= i < |t.services| && !Packable(t, t.services[i]) && Reaches(t, b, start, i)
    ensures Aborts(t, b, start)
  {
  }

  lemma NoWeight(size: WireSvc -> nat)
    ensures Weight(size, []) == 0
  {
  }

  // ---- The whole stream ----

  datatype Progress = Progress(cursor: nat, sent: seq<WireSvc>)

  /** The stream moves from `p` to `q`: a refused frame leaves it where it was, an accepted one adds one batch. */
  ghost predicate Ticks(t: Gatt.Table, b: Budget, p: Progress, accepted: bool, q: Progress) {
    if !accepted || p.cursor >= |t.services| then q == p
    else Cut(t, b, p.cursor, q.cursor) && q.sent == p.sent + Whole(t)[p.cursor..q.cursor]
  }

  ghost predicate TicksAt(t: Gatt.Table, b: Budget, run: seq<Progress>, accepted: seq<bool>, k: nat)
    requires k < |accepted| < |run|
  {
    Ticks(t, b, run[k], accepted[k], run[k + 1])
  }

  ghost predicate IsStream(t: Gatt.Table, b: Budget, run: seq<Progress>, accepted: seq<bool>) {
    && |run| == |accepted| + 1 && run[0] == Progress(0, [])
    && forall k :: 0 <= k < |accepted| ==> TicksAt(t, b, run, accepted, k)
  }

  function Accepted(accepted: seq<bool>): nat
    decreases |accepted|
  {
    if accepted == [] then 0 else Accepted(accepted[..|accepted| - 1]) + if accepted[|accepted| - 1] then 1 else 0
  }

  lemma TickAdvances(t: Gatt.Table, b: Budget, p: Progress, accepted: bool, q: Progress)
    requires Ticks(t, b, p, accepted, q) && p.cursor <= |t.services| && p.sent == Whole(t)[..p.cursor]
    ensures q.cursor <= |t.services| && q.sent == Whole(t)[..q.cursor]
    ensures accepted ==> q.cursor > p.cursor || q.cursor == |t.services|
    ensures !accepted ==> q == p
  {
    hide Whole;
    var w := Whole(t);
    if accepted && p.cursor < |t.services| {
      assert w[..p.cursor] + w[p.cursor..q.cursor] == w[..q.cursor];
    }
  }

  /**
   * What was sent is always a prefix of the database, and as many accepted frames as there are services complete it.
   */
  lemma {:induction false} StreamAdvances(t: Gatt.Table, b: Budget, run: seq<Progress>, accepted: seq<bool>)
    requires IsStream(t, b, run, accepted)
    ensures var p := run[|accepted|];
      && p.cursor <= |t.services| && p.sent == Whole(t)[..p.cursor]
      && (Accepted(accepted) <= p.cursor || p.cursor == |t.services|)
    decreases |accepted|
  {
    hide Ticks, Whole, Cut;
    if accepted != [] {
      var n := |accepted| - 1;
      var pre := run[..n + 1];
      forall k | 0 <= k < n ensures TicksAt(t, b, pre, accepted[..n], k) { assert TicksAt(t, b, run, accepted, k); }
      StreamAdvances(t, b, pre, accepted[..n]);
      assert TicksAt(t, b, run, accepted, n);
      TickAdvances(t, b, run[n], accepted[n], run[n + 1]);
    }
  }

  /**
   * However refusals are interleaved, once as many frames were accepted as there are services, all of them were sent.
   */
  lemma StreamCompletes(t: Gatt.Table, b: Budget, run: seq<Progress>, accepted: seq<bool>)
    requires IsStream(t, b, run, accepted) && Accepted(accepted) >= |t.services|
    ensures run[|accepted|] == Progress(|t.services|, Whole(t))
  {
    StreamAdvances(t, b, run, accepted);
    var w := Whole(t);
    assert w[..|w|] == w;
  }
}
