/**
 * From the radio to the dispatcher: the bounded advertisement queue and the tracker loop of
 * components/esp32_ble_tracker.
 */
module Tracker {
  import opened Merger

  const CAPACITY := 64

  datatype EventType = ScanRsp | StashAdv | Direct | ScanComplete

  /** A queued event; `buffer` names its heap payload, 0 when there is none. */
  datatype Event = Event(kind: EventType, report: Report, buffer: nat)

  function ReportCount(es: seq<Event>): nat {
    if es == [] then 0 else ReportCount(es[..|es| - 1]) + if es[|es| - 1].kind.ScanComplete? then 0 else 1
  }

  /** What the merger, and what the dispatcher directly, must have been given once `es` has been handled. */
  function ForMerger(es: seq<Event>): seq<Arrival> {
    if es == [] then [] else ForMerger(es[..|es| - 1]) + MergerTakes(es[|es| - 1])
  }

  function MergerTakes(e: Event): seq<Arrival> {
    match e.kind
    case ScanRsp => [Rsp(e.report)]
    case StashAdv => [Adv(e.report)]
    case _ => []
  }

  /** The events handled since a scan last ended. */
  function SinceScan(es: seq<Event>): seq<Event> {
    if es == [] || es[|es| - 1].kind.ScanComplete? then [] else SinceScan(es[..|es| - 1]) + [es[|es| - 1]]
  }

  ghost predicate StashedIn(a: Report, es: seq<Event>) { exists e <- es :: e.kind.StashAdv? && e.report == a }

  lemma NothingSince(es: seq<Event>)
    requires es != [] && es[|es| - 1].kind.ScanComplete?
    ensures forall a :: !StashedIn(a, SinceScan(es))
  {
  }

  /** Only advertisements stashed since a scan last ended are held. */
  ghost predicate HeldSince(held: map<Key, Held>, es: seq<Event>) {
    forall k :: k in held ==> StashedIn(held[k].adv, SinceScan(es))
  }

  /** What handling `e` makes of what was held: `h` is the table before, `after` the table after. */
  ghost predicate HeldAfter(h: map<Key, Held>, e: Event, now: nat, after: map<Key, Held>) {
    match e.kind
    case ScanRsp => Holds(h, Responded(e.report), after)
    case StashAdv => Holds(h, Stashed(e.report, now), after)
    case Direct => after == h
    case ScanComplete => Holds(h, Flushed, after)
  }

  lemma HeldSinceKept(h: map<Key, Held>, es: seq<Event>, e: Event, now: nat, after: map<Key, Held>)
    requires HeldSince(h, es) && HeldAfter(h, e, now, after)
    ensures HeldSince(after, es + [e])
  {
    assert (es + [e])[..|es|] == es;
    forall k | k in after ensures StashedIn(after[k].adv, SinceScan(es + [e])) {
      if e.kind.StashAdv? && after[k].adv == e.report {
        assert e in SinceScan(es + [e]);
      } else {
        assert StashedIn(h[k].adv, SinceScan(es));
        var x :| x in SinceScan(es) && x.kind.StashAdv? && x.report == h[k].adv;
        assert x in SinceScan(es + [e]);
      }
    }
  }

  function ForDispatcher(es: seq<Event>): seq<Report> {
    if es == [] then []
    else
      var e := es[|es| - 1];
      ForDispatcher(es[..|es| - 1]) + if e.kind.Direct? then [e.report] else []
  }

  lemma {:induction false} EveryReportIsRouted(es: seq<Event>)
    ensures ReportCount(es) == |ForMerger(es)| + |ForDispatcher(es)|
  {
    if es != [] { EveryReportIsRouted(es[..|es| - 1]); }
  }

  lemma {:induction false} ReportCountConcat(a: seq<Event>, b: seq<Event>)
    ensures ReportCount(a + b) == ReportCount(a) + ReportCount(b)
    decreases |b|
  {
    if b == [] {
      assert a + b == a;
    } else {
      ReportCountConcat(a, b[..|b| - 1]);
      assert (a + b)[..|a + b| - 1] == a + b[..|b| - 1];
    }
  }

  lemma TakeOne(es: seq<Event>, e: Event)
    ensures ReportCount(es + [e]) == ReportCount(es) + if e.kind.ScanComplete? then 0 else 1
    ensures ForMerger(es + [e]) == ForMerger(es) + MergerTakes(e)
    ensures ForDispatcher(es + [e]) == ForDispatcher(es) + if e.kind.Direct? then [e.report] else []
  {
    assert (es + [e])[..|es|] == es;
  }

  /** Exactly the queued payloads are live, each owned by one event. */
  ghost predicate Owned(queue: seq<Event>, live: set<nat>, next: nat) {
    && next > 0
    && (forall i :: 0 <= i < |queue| && queue[i].buffer != 0 ==> queue[i].buffer in live)
    && (forall b :: b in live ==> 0 < b < next && HasOwner(queue, b))
    && (forall i, j :: 0 <= i < j < |queue| && queue[i].buffer != 0 ==> queue[i].buffer != queue[j].buffer)
  }

  ghost predicate HasOwner(queue: seq<Event>, b: nat) { exists i :: 0 <= i < |queue| && queue[i].buffer == b }

  /** A fresh buffer `b` is live but not queued yet. */
  ghost predicate OwnedBut(queue: seq<Event>, live: set<nat>, next: nat, b: nat) {
    && Owned(queue, live - {b}, next)
    && (b != 0 ==> b in live && b < next && !HasOwner(queue, b))
    && (b == 0 ==> 0 !in live)
  }

  lemma OwnedPush(queue: seq<Event>, live: set<nat>, next: nat, e: Event)
    requires OwnedBut(queue, live, next, e.buffer)
    ensures Owned(queue + [e], live, next)
  {
    var q := queue + [e];
    forall b | b in live ensures 0 < b < next && HasOwner(q, b) {
      if b == e.buffer {
        assert q[|queue|].buffer == b;
      } else {
        assert HasOwner(queue, b);
        var i :| 0 <= i < |queue| && queue[i].buffer == b;
        assert q[i].buffer == b;
      }
    }
    assert forall i :: 0 <= i < |queue| && queue[i].buffer == e.buffer ==> HasOwner(queue, e.buffer);
  }

  lemma OwnedPop(queue: seq<Event>, live: set<nat>, next: nat)
    requires Owned(queue, live, next) && queue != []
    ensures OwnedBut(queue[1..], live, next, queue[0].buffer)
  {
    var q, x := queue[1..], queue[0].buffer;
    forall b | b in live - {x} ensures 0 < b < next && HasOwner(q, b) {
      assert HasOwner(queue, b);
      var i :| 0 <= i < |queue| && queue[i].buffer == b;
      assert q[i - 1].buffer == b;
    }
    forall i | 0 <= i < |q| ensures x != 0 ==> q[i].buffer != x { assert q[i] == queue[i + 1]; }
  }

  lemma CountOne(e: Event)
    ensures ReportCount([e]) == if e.kind.ScanComplete? then 0 else 1
  {
    assert [e][..0] == [];
  }

  lemma NothingQueued(queue: seq<Event>, live: set<nat>, next: nat)
    requires Owned(queue, live, next) && queue == []
    ensures live == {}
  {
    forall b ensures b !in live { assert b in live ==> HasOwner(queue, b); }
  }

  class ESP32BLETracker {
    const merger: ScanResponseMerger
    var queue: seq<Event>
    var droppedCount: nat
    /** The scanner: whether it is running, and whether it is to start again by itself. */
    var running: bool
    var continuous: bool
    /** Non-scannable advertisements handed straight to the dispatcher. */
    var direct: seq<Report>
    ghost var taken: seq<Event>
    ghost var pushedReports: nat
    ghost var droppedReports: nat
    ghost var droppedEvents: nat
    /** Payload buffers allocated and not yet freed, and the next name to give out. */
    var live: set<nat>
    var nextBuffer: nat

    ghost predicate Valid() reads this, merger, merger.slots {
      && merger.Valid() && |queue| <= CAPACITY
      && merger.arrived == ForMerger(taken) && direct == ForDispatcher(taken)
      && pushedReports == droppedReports + ReportCount(taken) + ReportCount(queue)
      && droppedCount == droppedEvents % 0x1_0000_0000
      && Owned(queue, live, nextBuffer) && HeldSince(merger.held, taken)
    }

    /** Nothing of a scan is held once its end has been handled. */
    lemma ScanEndReleasesAll()
      requires Valid() && taken != [] && taken[|taken| - 1].kind.ScanComplete?
      ensures merger.held == map[] && merger.pendingCount == 0
    {
      NothingSince(taken);
      assert merger.held.Keys == {};
    }

    /** Every report ever pushed was dropped, is queued, is held, or was delivered (a merged frame delivers two). */
    lemma Conserved()
      requires Valid()
      ensures pushedReports ==
              droppedReports + ReportCount(queue) + |merger.held| + |AllParts(merger.origins)| + |direct|
    {
      EveryReportIsRouted(taken);
    }

    constructor ()
      ensures Valid() && fresh(merger) && fresh(merger.slots) && queue == [] && !running && !continuous
    {
      running, continuous := false, false;
      merger := new ScanResponseMerger();
      queue, droppedCount, direct, taken := [], 0, [], [];
      pushedReports, droppedReports, droppedEvents, live, nextBuffer := 0, 0, 0, {}, 1;
    }

    /** `new uint8_t[]` in the radio callback; an empty payload allocates nothing. */
    method Allocate(size: nat) returns (b: nat)
      requires Owned(queue, live, nextBuffer)
      modifies this`live, this`nextBuffer
      ensures OwnedBut(queue, live, nextBuffer, b)
    {
      if size == 0 {
        assert live - {0} == live;
        return 0;
      }
      b, nextBuffer := nextBuffer, nextBuffer + 1;
      assert HasOwner(queue, b) ==> b in live;
      assert (live + {b}) - {b} == live;
      live := live + {b};
    }

    /** `delete[]`: a buffer may be freed only while live. */
    method Free(b: nat)
      requires b == 0 || b in live
      modifies this`live
      ensures live == old(live) - {b}
    {
      live := live - {b};
    }

    /** Radio callback for a report: copies it into an event of the type its PDU calls for. */
    method HandleReport(pduType: int, r: Report)
      requires Valid()
      modifies this`queue, this`droppedCount, this`pushedReports, this`droppedReports, this`droppedEvents, this`live,
        this`nextBuffer
      ensures Valid() && pushedReports == old(pushedReports) + 1
      ensures var kind := if pduType == 4 then ScanRsp
                          else if pduType == 0 || pduType == 2 then StashAdv else EventType.Direct;
        if |old(queue)| == CAPACITY then queue == old(queue) && droppedReports == old(droppedReports) + 1
        else droppedReports == old(droppedReports) && exists b :: queue == old(queue) + [Event(kind, r, b)]
    {
      var b := Allocate(|r.data|);
      var kind := if pduType == 4 then ScanRsp else if pduType == 0 || pduType == 2 then StashAdv else EventType.Direct;
      Push(Event(kind, r, b));
    }

    /** Radio callback for the end of a scan. */
    method HandleScanComplete()
      requires Valid()
      modifies this`queue, this`droppedCount, this`pushedReports, this`droppedReports, this`droppedEvents, this`live
      ensures Valid() && pushedReports == old(pushedReports) && droppedReports == old(droppedReports)
      ensures if |old(queue)| == CAPACITY then queue == old(queue)
              else exists r :: queue == old(queue) + [Event(ScanComplete, r, 0)]
    {
      assert live - {0} == live;
      Push(Event(ScanComplete, Report(NO_MAC, 0, 0, []), 0));
    }

    /** Never blocks: a full queue frees the payload and counts the drop. */
    method Push(e: Event)
      requires ValidBut(e.buffer)
      modifies this`queue, this`droppedCount, this`pushedReports, this`droppedReports, this`droppedEvents, this`live
      ensures Valid()
      ensures var n := if e.kind.ScanComplete? then 0 else 1;
        && pushedReports == old(pushedReports) + n
        && if |old(queue)| == CAPACITY then queue == old(queue) && droppedReports == old(droppedReports) + n
           else queue == old(queue) + [e] && droppedReports == old(droppedReports)
    {
      hide ScanResponseMerger.Valid, Owned, ReportCount, ForMerger, ForDispatcher, HeldSince;
      pushedReports := pushedReports + if e.kind.ScanComplete? then 0 else 1;
      if |queue| == CAPACITY {
        Free(e.buffer);
        droppedEvents, droppedReports := droppedEvents + 1, droppedReports + if e.kind.ScanComplete? then 0 else 1;
        droppedCount := (droppedCount + 1) % 0x1_0000_0000;
        return;
      }
      TakeOne(queue, e);
      OwnedPush(queue, live, nextBuffer, e);
      queue := queue + [e];
    }

    /** `Valid`, except that buffer `b` is live and in no queued event. */
    ghost predicate ValidBut(b: nat) reads this, merger, merger.slots {
      && merger.Valid() && |queue| <= CAPACITY
      && merger.arrived == ForMerger(taken) && direct == ForDispatcher(taken)
      && pushedReports == droppedReports + ReportCount(taken) + ReportCount(queue)
      && droppedCount == droppedEvents % 0x1_0000_0000
      && OwnedBut(queue, live, nextBuffer, b) && HeldSince(merger.held, taken)
    }

    /** Takes one event off the queue, hands it on by its type, and frees its payload. */
    method HandleNext(now: nat)
      requires Valid() && queue != []
      modifies this`queue, this`direct, this`taken, this`live, this`running, merger, merger.slots
      ensures Valid() && queue == old(queue)[1..] && taken == old(taken) + [old(queue)[0]]
      ensures running == (old(running) && !old(queue)[0].kind.ScanComplete?)
      ensures droppedReports == old(droppedReports) && pushedReports == old(pushedReports)
      ensures var e, h, sent := old(queue)[0], old(merger.held), old(merger.origins);
        && HeldAfter(h, e, now, merger.held)
        && direct == old(direct) + (if e.kind.Direct? then [e.report] else [])
        && match e.kind
           case ScanRsp => merger.origins == sent + [SentByRsp(h, e.report)]
           case StashAdv => merger.origins == sent + SentByAdv(h, e.report)
           case Direct => merger.origins == sent
           case ScanComplete => sent <= merger.origins && |merger.origins| == |sent| + |h|
    {
      hide ScanResponseMerger.Valid, Owned, ReportCount, ForMerger, ForDispatcher, HeldSince, Holds;
      var e := queue[0];
      ghost var h, before := merger.held, taken;
      assert queue == [e] + queue[1..];
      ReportCountConcat([e], queue[1..]);
      CountOne(e);
      TakeOne(taken, e);
      OwnedPop(queue, live, nextBuffer);
      queue := queue[1..];
      taken := taken + [e];
      match e.kind {
        case ScanRsp => merger.SubmitScanRsp(e.report);
        case StashAdv => merger.StashAdv(e.report, now);
        case Direct => direct := direct + [e.report];
        case ScanComplete =>
          merger.Flush();
          running := false;
      }
      HeldSinceKept(h, before, e, now, merger.held);
      Free(e.buffer);
    }

    /** Stops the scanner at once: what is held is released now, what is queued is still to be handled. */
    method StopScan()
      requires Valid()
      modifies this`running, this`continuous, merger, merger.slots
      ensures Valid() && !running && !continuous && taken == old(taken)
      ensures old(running) ==> merger.held == map[] && merger.pendingCount == 0
      ensures !old(running) ==> merger.held == old(merger.held) && merger.origins == old(merger.origins)
      ensures old(merger.origins) <= merger.origins
      ensures old(running) ==> |merger.origins| == |old(merger.origins)| + |old(merger.held)|
    {
      hide ScanResponseMerger.Valid, Owned, ReportCount, ForMerger, ForDispatcher;
      continuous := false;
      if !running { return; }
      merger.Flush();
      merger.NothingHeldNothingPending();
      running := false;
    }

    /** `started` is whether the stack accepts the scan. */
    method StartScan(started: bool)
      modifies this`running
      ensures running == (old(running) || started)
    {
      if !running { running := started; }
    }

    /** One pass of the main loop: empties the queue, times out what is still held, and scans again if it is to. */
    method Loop(clock: seq<nat>, active: bool, started: bool)
      requires Valid() && |clock| > CAPACITY
      modifies this`queue, this`direct, this`taken, this`live, this`running, merger, merger.slots
      ensures active && continuous && started ==> running
      ensures Valid() && droppedReports == old(droppedReports) && pushedReports == old(pushedReports)
      ensures if active then queue == [] && live == {} && taken == old(taken) + old(queue)
              else queue == old(queue) && taken == old(taken)
      ensures active ==> exists now <- clock :: forall k :: k in merger.held ==> !Expired(now, merger.held[k].storedMs)
    {
      hide ScanResponseMerger.Valid, Owned, ReportCount, ForMerger, ForDispatcher, HeldAfter, AfterAdv;
      if !active { return; }
      ghost var n := 0;
      assert old(queue)[0..] == old(queue);
      while queue != []
        invariant Valid() && n <= |old(queue)| && queue == old(queue)[n..] && taken == old(taken) + old(queue)[..n]
        invariant droppedReports == old(droppedReports) && pushedReports == old(pushedReports)
        decreases |queue|
      {
        HandleNext(clock[CAPACITY - |queue|]);
        n := n + 1;
      }
      NothingQueued(queue, live, nextBuffer);
      merger.EmptyHoldsNothing();
      if merger.pendingCount != 0 { merger.Sweep(clock[CAPACITY]); }
      if continuous { StartScan(started); }
      assert clock[CAPACITY] in clock;
    }
  }
}
