/**
 * The connection state machine generated into components/nimble_ble/ble_connection_fsm.cpp, its deadlines and
 * backoff.
 */
module ConnectionFsm {
  import opened Basics

  datatype ConnState = Idle | Scanning | Connecting | Discovering | Ready | Disconnecting | Backoff

  datatype ConnEvent =
    | ScanStart | AdvMatched | ConnectRequest | GapConnectOk | GapConnectFail | ConnectTimeout | DiscoverStart
    | DiscoverDone | DiscoverTimeout | DisconnectRequest | GapDisconnectEvt | BackoffElapsed | DropUnsolicitedPairing

  const CONNECT_MS := 5000
  const DISCOVER_MS := 8000

  /** One line of spec/transitions.json; a deadline of 0 means none. */
  datatype Transition = Transition(from: ConnState, event: ConnEvent, to: ConnState, deadlineMs: nat)

  const TRANSITIONS: seq<Transition> := [
    Transition(Idle, ScanStart, Scanning, 0),
    Transition(Scanning, AdvMatched, Idle, 0),
    Transition(Idle, ConnectRequest, Connecting, CONNECT_MS),
    Transition(Connecting, GapConnectOk, Discovering, DISCOVER_MS),
    Transition(Connecting, GapConnectFail, Backoff, 0),
    Transition(Connecting, ConnectTimeout, Backoff, 0),
    Transition(Discovering, DiscoverDone, Ready, 0),
    Transition(Discovering, DiscoverTimeout, Backoff, 0),
    Transition(Discovering, GapDisconnectEvt, Backoff, 0),
    Transition(Ready, DisconnectRequest, Disconnecting, 0),
    Transition(Ready, GapDisconnectEvt, Backoff, 0),
    Transition(Disconnecting, GapDisconnectEvt, Idle, 0),
    Transition(Backoff, BackoffElapsed, Idle, 0),
    Transition(Connecting, DropUnsolicitedPairing, Backoff, 0)]

  /** The fields of the machine. */
  datatype Fsm = Fsm(state: ConnState, deadlineMs: nat, backoffCount: nat)

  /** Entering a state at clock `now`, both counters wrapping at their widths. */
  function Enter(m: Fsm, to: ConnState, now: nat, deadlineMs: nat): Fsm {
    Fsm(to, if deadlineMs == 0 then 0 else (now + deadlineMs) % CLOCK,
        if to.Backoff? then (m.backoffCount + 1) % 0x1_0000 else if to.Ready? then 0 else m.backoffCount)
  }

  predicate Fits(i: nat, from: ConnState, event: ConnEvent) {
    i < |TRANSITIONS| && TRANSITIONS[i].from == from && TRANSITIONS[i].event == event
  }

  /** The first listed transition from line `i` on. */
  function Find(i: nat, from: ConnState, event: ConnEvent): Option<Transition>
    decreases |TRANSITIONS| - i
  {
    if i >= |TRANSITIONS| then None
    else if Fits(i, from, event) then Some(TRANSITIONS[i])
    else Find(i + 1, from, event)
  }

  /** The lines that leave each state. */
  lemma Lines(i: nat, from: ConnState, event: ConnEvent)
    requires i < |TRANSITIONS|
    ensures Fits(i, from, event) ==>
      match from
      case Idle => i in {0, 2}
      case Scanning => i == 1
      case Connecting => i in {3, 4, 5, 13}
      case Discovering => i in {6, 7, 8}
      case Ready => i in {9, 10}
      case Disconnecting => i == 11
      case Backoff => i == 12
  {
    if i < 7 { assert i in {0, 1, 2, 3, 4, 5, 6}; } else { assert i in {7, 8, 9, 10, 11, 12, 13}; }
  }

  /** No event has two transitions out of one state. */
  lemma AtMostOneLine(i: nat, j: nat, from: ConnState, event: ConnEvent)
    requires Fits(i, from, event) && Fits(j, from, event)
    ensures i == j
  {
    Lines(i, from, event);
    Lines(j, from, event);
  }

  lemma {:induction false} FindSkips(i: nat, k: nat, from: ConnState, event: ConnEvent)
    requires i <= k <= |TRANSITIONS| && forall j {:trigger Fits(j, from, event)} :: i <= j < k ==> !Fits(j, from, event)
    ensures Find(i, from, event) == Find(k, from, event)
    decreases k - i
  {
    if i < k { FindSkips(i + 1, k, from, event); }
  }

  /** The list read row by row: which line matches. */
  lemma FromIdle(event: ConnEvent)
    ensures Find(0, Idle, event) ==
      (if event.ScanStart? then Some(TRANSITIONS[0]) else if event.ConnectRequest? then Some(TRANSITIONS[2]) else None)
  {
    var k := if event.ScanStart? then 0 else if event.ConnectRequest? then 2 else |TRANSITIONS|;
    forall j | 0 <= j < k ensures !Fits(j, Idle, event) { Lines(j, Idle, event); }
    FindSkips(0, k, Idle, event);
  }

  lemma FromScanning(event: ConnEvent)
    ensures Find(0, Scanning, event) ==
      (if event.AdvMatched? then Some(TRANSITIONS[1]) else None)
  {
    var k := if event.AdvMatched? then 1 else |TRANSITIONS|;
    forall j | 0 <= j < k ensures !Fits(j, Scanning, event) { Lines(j, Scanning, event); }
    FindSkips(0, k, Scanning, event);
  }

  lemma FromConnecting(event: ConnEvent)
    ensures Find(0, Connecting, event) ==
      (if event.GapConnectOk? then Some(TRANSITIONS[3])
       else if event.GapConnectFail? then Some(TRANSITIONS[4])
       else if event.ConnectTimeout? then Some(TRANSITIONS[5])
       else if event.DropUnsolicitedPairing? then Some(TRANSITIONS[13])
       else None)
  {
    var k := if event.GapConnectOk? then 3 else if event.GapConnectFail? then 4 else if event.ConnectTimeout? then 5
             else if event.DropUnsolicitedPairing? then 13 else |TRANSITIONS|;
    forall j | 0 <= j < k ensures !Fits(j, Connecting, event) { Lines(j, Connecting, event); }
    FindSkips(0, k, Connecting, event);
  }

  lemma FromDiscovering(event: ConnEvent)
    ensures Find(0, Discovering, event) ==
      (if event.DiscoverDone? then Some(TRANSITIONS[6])
       else if event.DiscoverTimeout? then Some(TRANSITIONS[7])
       else if event.GapDisconnectEvt? then Some(TRANSITIONS[8])
       else None)
  {
    var k := if event.DiscoverDone? then 6 else if event.DiscoverTimeout? then 7 else if event.GapDisconnectEvt? then 8
             else |TRANSITIONS|;
    forall j | 0 <= j < k ensures !Fits(j, Discovering, event) { Lines(j, Discovering, event); }
    FindSkips(0, k, Discovering, event);
  }

  lemma FromReady(event: ConnEvent)
    ensures Find(0, Ready, event) ==
      (if event.DisconnectRequest? then Some(TRANSITIONS[9])
       else if event.GapDisconnectEvt? then Some(TRANSITIONS[10])
       else None)
  {
    var k := if event.DisconnectRequest? then 9 else if event.GapDisconnectEvt? then 10 else |TRANSITIONS|;
    forall j | 0 <= j < k ensures !Fits(j, Ready, event) { Lines(j, Ready, event); }
    FindSkips(0, k, Ready, event);
  }

  lemma FromDisconnecting(event: ConnEvent)
    ensures Find(0, Disconnecting, event) ==
      (if event.GapDisconnectEvt? then Some(TRANSITIONS[11]) else None)
  {
    var k := if event.GapDisconnectEvt? then 11 else |TRANSITIONS|;
    forall j | 0 <= j < k ensures !Fits(j, Disconnecting, event) { Lines(j, Disconnecting, event); }
    FindSkips(0, k, Disconnecting, event);
  }

  lemma FromBackoff(event: ConnEvent)
    ensures Find(0, Backoff, event) ==
      (if event.BackoffElapsed? then Some(TRANSITIONS[12]) else None)
  {
    var k := if event.BackoffElapsed? then 12 else |TRANSITIONS|;
    forall j | 0 <= j < k ensures !Fits(j, Backoff, event) { Lines(j, Backoff, event); }
    FindSkips(0, k, Backoff, event);
  }

  /** What the specification says an event does. */
  function Handle(m: Fsm, event: ConnEvent, now: nat): Fsm {
    match Find(0, m.state, event)
    case None => m
    case Some(t) => Enter(m, t.to, now, t.deadlineMs)
  }

  // ---- The laws of the machine, whatever its list of transitions ----

  /** One failure more, and no deadline. */
  predicate BacksOff(m: Fsm, r: Fsm) { r == Fsm(Backoff, 0, (m.backoffCount + 1) % 0x1_0000) }

  /** Every way an attempt or a connection fails enters Backoff and counts. */
  lemma FailuresBackOff(m: Fsm, e: ConnEvent, now: nat)
    ensures m.state.Connecting? && (e.GapConnectFail? || e.ConnectTimeout? || e.DropUnsolicitedPairing?) ==>
      BacksOff(m, Handle(m, e, now))
    ensures m.state.Discovering? && (e.DiscoverTimeout? || e.GapDisconnectEvt?) ==> BacksOff(m, Handle(m, e, now))
    ensures m.state.Ready? && e.GapDisconnectEvt? ==> BacksOff(m, Handle(m, e, now))
  {
    hide Find;
    FromConnecting(e);
    FromDiscovering(e);
    FromReady(e);
  }

  /** ... and nothing else does. */
  lemma OnlyFailuresBackOff(m: Fsm, e: ConnEvent, now: nat)
    ensures !m.state.Backoff? && Handle(m, e, now).state.Backoff? ==>
      || (m.state.Connecting? && (e.GapConnectFail? || e.ConnectTimeout? || e.DropUnsolicitedPairing?))
      || (m.state.Discovering? && (e.DiscoverTimeout? || e.GapDisconnectEvt?))
      || (m.state.Ready? && e.GapDisconnectEvt?)
  {
    hide Find;
    FromIdle(e);
    FromScanning(e);
    FromConnecting(e);
    FromDiscovering(e);
    FromReady(e);
    FromDisconnecting(e);
    FromBackoff(e);
  }

  /** How the other states are entered, and with what deadline. */
  lemma EnteredExactly(m: Fsm, e: ConnEvent, now: nat)
    ensures var r := Handle(m, e, now);
      && (r.state == m.state ==> r == m)
      && (r.state.Scanning? && r != m <==> m.state.Idle? && e.ScanStart?)
      && (r.state.Connecting? && r != m <==> m.state.Idle? && e.ConnectRequest?)
      && (r.state.Discovering? && r != m <==> m.state.Connecting? && e.GapConnectOk?)
      && (r.state.Ready? && r != m <==> m.state.Discovering? && e.DiscoverDone?)
      && (r.state.Disconnecting? && r != m <==> m.state.Ready? && e.DisconnectRequest?)
      && (r.state.Idle? && r != m <==>
            || (m.state.Scanning? && e.AdvMatched?) || (m.state.Disconnecting? && e.GapDisconnectEvt?)
            || (m.state.Backoff? && e.BackoffElapsed?))
    ensures var r := Handle(m, e, now);
      && (r != m && r.state.Connecting? ==> r.deadlineMs == (now + 5000) % CLOCK)
      && (r != m && r.state.Discovering? ==> r.deadlineMs == (now + 8000) % CLOCK)
      && (r != m && !r.state.Connecting? && !r.state.Discovering? ==> r.deadlineMs == 0)
    ensures var r := Handle(m, e, now);
      r != m && !r.state.Backoff? ==> r.backoffCount == if r.state.Ready? then 0 else m.backoffCount
  {
    hide Find;
    FromIdle(e);
    FromScanning(e);
    FromConnecting(e);
    FromDiscovering(e);
    FromReady(e);
    FromDisconnecting(e);
    FromBackoff(e);
  }

  predicate HasDeadline(m: Fsm) { m.state.Connecting? || m.state.Discovering? }

  /** A poll fires the matching timeout once the clock has reached the deadline. */
  function Poll(m: Fsm, now: nat): Fsm {
    if !HasDeadline(m) || m.deadlineMs == 0 || now < m.deadlineMs then m
    else Handle(m, if m.state.Connecting? then ConnectTimeout else DiscoverTimeout, now)
  }

  /** Whether a poll at true time `at` times the wait out; the machine reads the 32-bit clock. */
  predicate TimesOut(m: Fsm, at: nat) {
    HasDeadline(m) && m.deadlineMs != 0 && at % CLOCK >= m.deadlineMs
  }

  /** The poll moves to Backoff exactly when it times the wait out. */
  lemma PollTimesOut(m: Fsm, at: nat)
    ensures Poll(m, at % CLOCK) == if TimesOut(m, at) then Enter(m, Backoff, at % CLOCK, 0) else m
  {
    hide Find;
    FromConnecting(ConnectTimeout);
    FromDiscovering(DiscoverTimeout);
  }

  /**
   * The comparison is not wrap-safe. Over the wait and a further `slack` ms, polls time out when they should and not
   * before, if and only if the clock does not wrap in that span.
   */
  lemma TimeoutExact(m: Fsm, to: ConnState, start: nat, wait: nat, slack: nat)
    requires (to.Connecting? || to.Discovering?) && 0 < wait < CLOCK
    ensures (forall at {:trigger TimesOut(Enter(m, to, start % CLOCK, wait), at)} ::
              start <= at <= start + wait + slack ==>
              (TimesOut(Enter(m, to, start % CLOCK, wait), at) <==> at >= start + wait))
            <==> start % CLOCK + wait + slack < CLOCK
  {
    var e, a := Enter(m, to, start % CLOCK, wait), start % CLOCK;
    if a + wait + slack < CLOCK {
      forall at | start <= at <= start + wait + slack ensures TimesOut(e, at) <==> at >= start + wait {
        WithinTurn(start, at);
      }
    } else if a + wait < CLOCK {
      WrapsAt(start);
      assert !TimesOut(e, start + (CLOCK - a));
    } else if a + wait == CLOCK {
      assert !TimesOut(e, start + wait);
    } else {
      assert TimesOut(e, start);
    }
  }

  lemma WithinTurn(start: nat, at: nat)
    requires start <= at < start - start % CLOCK + CLOCK
    ensures at % CLOCK == start % CLOCK + (at - start)
  {
    var q := start / CLOCK;
    assert start == q * CLOCK + start % CLOCK;
    assert at == q * CLOCK + (start % CLOCK + (at - start));
  }

  lemma WrapsAt(start: nat)
    ensures (start + (CLOCK - start % CLOCK)) % CLOCK == 0
  {
    var q := start / CLOCK;
    assert start == q * CLOCK + start % CLOCK;
    assert start + (CLOCK - start % CLOCK) == (q + 1) * CLOCK;
  }

  // ---- Runs: any events at any true times, with polls in between ----

  datatype Action = Occur(event: ConnEvent) | PollNow
  datatype Step = Step(at: nat, action: Action)

  function Do(m: Fsm, s: Step): Fsm {
    match s.action
    case Occur(e) => Handle(m, e, s.at % CLOCK)
    case PollNow => Poll(m, s.at % CLOCK)
  }

  function Run(m: Fsm, steps: seq<Step>): Fsm
    decreases |steps|
  {
    if steps == [] then m else Do(Run(m, steps[..|steps| - 1]), steps[|steps| - 1])
  }

  /** The time of the last step, and of the last poll, of a run; `start` if there is none. */
  function LastAt(start: nat, steps: seq<Step>): nat { if steps == [] then start else steps[|steps| - 1].at }

  function LastPoll(start: nat, steps: seq<Step>): nat {
    if steps == [] then start
    else if steps[|steps| - 1].action.PollNow? then steps[|steps| - 1].at
    else LastPoll(start, steps[..|steps| - 1])
  }

  /** Times never go back, and no step comes more than `d` after the last poll. */
  predicate PolledEvery(d: nat, start: nat, steps: seq<Step>)
    decreases |steps|
  {
    steps == [] ||
    var pre, at := steps[..|steps| - 1], steps[|steps| - 1].at;
    PolledEvery(d, start, pre) && LastAt(start, pre) <= at <= LastPoll(start, pre) + d
  }

  /**
   * On every run, Idle is entered only from Scanning, Disconnecting or Backoff, and a lost link leads there only from a
   * teardown.
   */
  lemma IdleEntered(m: Fsm, steps: seq<Step>)
    requires steps != []
    ensures var before, after := Run(m, steps[..|steps| - 1]), Run(m, steps);
      after.state.Idle? && !before.state.Idle? ==>
        && (before.state.Scanning? || before.state.Disconnecting? || before.state.Backoff?)
        && (steps[|steps| - 1].action == Occur(GapDisconnectEvt) ==> before.state.Disconnecting?)
  {
    hide Handle;
    var before, s := Run(m, steps[..|steps| - 1]), steps[|steps| - 1];
    if s.action.Occur? {
      EnteredExactly(before, s.action.event, s.at % CLOCK);
    } else {
      PollTimesOut(before, s.at);
    }
  }

  /** Ready is left only for Backoff, when the link is lost, or for Disconnecting, when that is asked for. */
  lemma ReadyLeft(m: Fsm, steps: seq<Step>)
    requires steps != [] && Run(m, steps[..|steps| - 1]).state.Ready?
    ensures var before, after := Run(m, steps[..|steps| - 1]), Run(m, steps);
      match steps[|steps| - 1].action
      case Occur(GapDisconnectEvt) => BacksOff(before, after)
      case Occur(DisconnectRequest) => after == before.(state := Disconnecting, deadlineMs := 0)
      case _ => after == before
  {
    hide Handle;
    var before, s := Run(m, steps[..|steps| - 1]), steps[|steps| - 1];
    if s.action.Occur? {
      FailuresBackOff(before, s.action.event, s.at % CLOCK);
      OnlyFailuresBackOff(before, s.action.event, s.at % CLOCK);
      EnteredExactly(before, s.action.event, s.at % CLOCK);
    }
  }

  predicate IsResolved(m: Fsm) { m.state.Ready? || m.state.Backoff? }

  /** The run has been in Ready or Backoff after some step. */
  predicate Resolved(m: Fsm, steps: seq<Step>)
    decreases |steps|
  {
    steps != [] && (Resolved(m, steps[..|steps| - 1]) || IsResolved(Run(m, steps)))
  }

  /** One more step. */
  lemma Extend(d: nat, start: nat, m: Fsm, steps: seq<Step>, s: Step)
    ensures var r := steps + [s];
      && Run(m, r) == Do(Run(m, steps), s)
      && LastAt(start, r) == s.at && LastPoll(start, r) == (if s.action.PollNow? then s.at else LastPoll(start, steps))
      && (PolledEvery(d, start, r) <==>
            PolledEvery(d, start, steps) && LastAt(start, steps) <= s.at <= LastPoll(start, steps) + d)
      && (Resolved(m, r) <==> Resolved(m, steps) || IsResolved(Do(Run(m, steps), s)))
  {
    assert (steps + [s])[..|steps|] == steps;
  }

  /** The clock does not read 0 at any of the true times from `lo` up to `hi`. */
  predicate NoZero(lo: nat, hi: nat)
    requires lo <= hi
  {
    lo == hi || (lo % CLOCK != 0 && lo % CLOCK + (hi - lo) <= CLOCK)
  }

  /**
   * Polled every `d` ms, neither deadline of an attempt begun at `start` can be missed: the connect deadline is due
   * at one time, the discovery deadline at any of several, and a poll comes within `d`.
   */
  predicate Unmissable(start: nat, d: nat) {
    && NoZero(start + CONNECT_MS, start + CONNECT_MS + d)
    && (d > 0 ==> NoZero(start + DISCOVER_MS, start + CONNECT_MS + DISCOVER_MS + 2 * d - 1))
  }

  /** The machine waits under a deadline due at true time `x`, which the last poll had not reached. */
  predicate Due(start: nat, d: nat, m: Fsm, lastPoll: nat, x: nat) {
    && HasDeadline(m) && m.deadlineMs == x % CLOCK && lastPoll < x
    && if m.state.Connecting? then x == start + CONNECT_MS
       else start + DISCOVER_MS <= x < start + CONNECT_MS + d + DISCOVER_MS
  }

  ghost predicate Waiting(start: nat, d: nat, m: Fsm, lastPoll: nat) { exists x :: Due(start, d, m, lastPoll, x) }

  lemma EntryDue(start: nat, d: nat, m: Fsm)
    ensures Due(start, d, Enter(m, Connecting, start % CLOCK, CONNECT_MS), start, start + CONNECT_MS)
  {
    AddMod(start, CONNECT_MS);
  }

  lemma AddMod(a: nat, b: nat)
    ensures (a % CLOCK + b) % CLOCK == (a + b) % CLOCK
  {
    var q, r := a / CLOCK, (a % CLOCK + b) / CLOCK;
    assert a + b == (q + r) * CLOCK + (a % CLOCK + b) % CLOCK;
  }

  /** A poll within `d` of the deadline sees it. */
  lemma SeenInTime(x: nat, at: nat, d: nat)
    requires NoZero(x, x + d) && x <= at < x + d
    ensures x % CLOCK != 0 && at % CLOCK >= x % CLOCK
  {
    WithinTurn(x, at);
  }

  lemma NoZeroWithin(lo: nat, hi: nat, x: nat, d: nat)
    requires lo <= hi && NoZero(lo, hi) && lo <= x && x + d <= hi
    ensures NoZero(x, x + d)
  {
    if d > 0 { WithinTurn(lo, x); }
  }

  /** Until it is resolved, an attempt waits under a live deadline that the last poll had not reached. */
  lemma {:induction false} StillWaiting(start: nat, d: nat, m: Fsm, steps: seq<Step>)
    requires m == Enter(m, Connecting, start % CLOCK, CONNECT_MS) && Unmissable(start, d)
    requires PolledEvery(d, start, steps) && !Resolved(m, steps)
    ensures Waiting(start, d, Run(m, steps), LastPoll(start, steps))
    ensures start <= LastPoll(start, steps) <= LastAt(start, steps)
    decreases |steps|
  {
    if steps == [] {
      EntryDue(start, d, m);
    } else {
      hide Resolved, PolledEvery, Unmissable, Waiting, Do, Enter;
      var pre, s := steps[..|steps| - 1], steps[|steps| - 1];
      assert steps == pre + [s];
      Extend(d, start, m, pre, s);
      StillWaiting(start, d, m, pre);
      WaitingStep(start, d, Run(m, pre), LastPoll(start, pre), s);
    }
  }

  lemma WaitingStep(start: nat, d: nat, m: Fsm, lastPoll: nat, s: Step)
    requires Waiting(start, d, m, lastPoll) && Unmissable(start, d)
    requires start <= lastPoll <= s.at <= lastPoll + d
    ensures var r := Do(m, s); IsResolved(r) || Waiting(start, d, r, if s.action.PollNow? then s.at else lastPoll)
  {
    hide Find;
    var x :| Due(start, d, m, lastPoll, x);
    if s.action.PollNow? {
      PollTimesOut(m, s.at);
      if s.at >= x {
        if m.state.Discovering? {
          NoZeroWithin(start + DISCOVER_MS, start + CONNECT_MS + DISCOVER_MS + 2 * d - 1, x, d);
        }
        SeenInTime(x, s.at, d);
      } else {
        assert Due(start, d, m, s.at, x);
      }
    } else {
      FromConnecting(s.action.event);
      FromDiscovering(s.action.event);
      AddMod(s.at, DISCOVER_MS);
      if m.state.Connecting? && s.action.event.GapConnectOk? {
        assert Due(start, d, Do(m, s), lastPoll, s.at + DISCOVER_MS);
      } else {
        assert IsResolved(Do(m, s)) || Due(start, d, Do(m, s), lastPoll, x);
      }
    }
  }

  /** An attempt begun in Idle at `start`. */
  function Attempt(idle: Fsm, start: nat): Fsm { Handle(idle, ConnectRequest, start % CLOCK) }

  lemma AttemptIsEntry(idle: Fsm, start: nat)
    requires idle.state.Idle?
    ensures var m := Attempt(idle, start);
      m == Enter(idle, Connecting, start % CLOCK, CONNECT_MS) && m == Enter(m, Connecting, start % CLOCK, CONNECT_MS)
  {
    FromIdle(ConnectRequest);
    hide Find;
  }

  /**
   * Bounded wait: from a connect request taken in Idle at `start`, with a poll at least every `d` ms and whatever
   * events, no step can come at `start + 13000 + 2 d` or later without the machine having been in Ready or Backoff.
   */
  lemma BoundedWait(start: nat, d: nat, idle: Fsm, steps: seq<Step>)
    requires idle.state.Idle? && Unmissable(start, d)
    requires PolledEvery(d, start, steps) && LastAt(start, steps) >= start + CONNECT_MS + DISCOVER_MS + 2 * d
    ensures Resolved(Attempt(idle, start), steps)
  {
    var m := Attempt(idle, start);
    AttemptIsEntry(idle, start);
    if steps != [] && !Resolved(m, steps) {
      var pre, s := steps[..|steps| - 1], steps[|steps| - 1];
      assert steps == pre + [s];
      Extend(d, start, m, pre, s);
      hide Resolved, Run, Attempt, Unmissable, Enter;
      StillWaiting(start, d, m, pre);
    }
  }

  // ---- ... and only then ----

  /** The run so far has been polled in time, last at `at`, is not resolved, and has taken the machine to `r`. */
  predicate Stuck(d: nat, start: nat, m: Fsm, steps: seq<Step>, at: nat, r: Fsm) {
    && PolledEvery(d, start, steps) && !Resolved(m, steps) && Run(m, steps) == r && !IsResolved(r)
    && LastAt(start, steps) == LastPoll(start, steps) == at
  }

  /** A poll that does not time the wait out leaves it as it was. */
  lemma PollInVain(d: nat, start: nat, m: Fsm, steps: seq<Step>, from: nat, r: Fsm, at: nat)
    requires Stuck(d, start, m, steps, from, r) && from <= at <= from + d && !TimesOut(r, at)
    ensures Stuck(d, start, m, steps + [Step(at, PollNow)], at, r)
  {
    Extend(d, start, m, steps, Step(at, PollNow));
    PollTimesOut(r, at);
    hide Run, Resolved, PolledEvery, Poll;
  }

  /** Polls every millisecond, none of which times the wait out. */
  lemma {:induction false} KeepPolling(d: nat, start: nat, m: Fsm, steps: seq<Step>, from: nat, r: Fsm, to: nat)
    returns (more: seq<Step>)
    requires d > 0 && Stuck(d, start, m, steps, from, r) && from <= to
    requires forall at :: from < at <= to ==> !TimesOut(r, at)
    ensures Stuck(d, start, m, more, to, r)
    decreases if from <= to then to - from else 0
  {
    hide Stuck, TimesOut;
    more := steps;
    if from < to {
      PollInVain(d, start, m, steps, from, r, from + 1);
      more := KeepPolling(d, start, m, steps + [Step(from + 1, PollNow)], from + 1, r, to);
    }
  }

  /** Polls that skip over the end of the clock's turn find it short of a deadline that lies before it. */
  lemma NotSeen(r: Fsm, x: nat, d: nat, at: nat)
    requires r.deadlineMs == x % CLOCK && !NoZero(x, x + d) && CONNECT_MS + 2 * DISCOVER_MS + 4 * d < CLOCK
    requires x <= at + DISCOVER_MS && (at < x || x + d - 1 <= at <= x + CONNECT_MS + DISCOVER_MS + 3 * d)
    ensures !TimesOut(r, at)
  {
    var D, q := x % CLOCK, x / CLOCK;
    assert x == q * CLOCK + D;
    if D != 0 && at < x {
      assert at == q * CLOCK + (D - (x - at));
    } else if D != 0 {
      assert at == (q + 1) * CLOCK + (D + (at - x) - CLOCK);
    }
  }

  /** A wait whose deadline the polls skip over goes on past `to`. */
  lemma SkipDeadline(d: nat, start: nat, m: Fsm, steps: seq<Step>, from: nat, r: Fsm, x: nat, to: nat)
    returns (more: seq<Step>)
    requires d > 0 && Stuck(d, start, m, steps, from, r) && from < x <= from + DISCOVER_MS
    requires r.deadlineMs == x % CLOCK && !NoZero(x, x + d) && CONNECT_MS + 2 * DISCOVER_MS + 4 * d < CLOCK
    requires x + d - 1 <= to <= x + CONNECT_MS + DISCOVER_MS + 3 * d
    ensures Stuck(d, start, m, more, to, r)
  {
    hide Stuck, TimesOut, NoZero;
    forall at | from < at <= to && (at < x || x + d - 1 <= at) ensures !TimesOut(r, at) { NotSeen(r, x, d, at); }
    more := KeepPolling(d, start, m, steps, from, r, x - 1);
    PollInVain(d, start, m, more, x - 1, r, x - 1 + d);
    more := KeepPolling(d, start, m, more + [Step(x - 1 + d, PollNow)], x - 1 + d, r, to);
  }

  /** The discovery deadline that can be missed, and the turn of the clock it lies in. */
  lemma MissableDeadline(start: nat, d: nat) returns (x: nat)
    requires d > 0 && !NoZero(start + DISCOVER_MS, start + CONNECT_MS + DISCOVER_MS + 2 * d - 1)
    requires CONNECT_MS + 2 * DISCOVER_MS + 4 * d < CLOCK
    ensures start + DISCOVER_MS <= x < start + CONNECT_MS + DISCOVER_MS + d && !NoZero(x, x + d)
    ensures start % CLOCK + CONNECT_MS < CLOCK
  {
    var lo := start + DISCOVER_MS;
    var a, q := lo % CLOCK, lo / CLOCK;
    assert lo == q * CLOCK + a;
    EarlierReading(start, q, a);
    x := lo;
    if a != 0 && a <= CLOCK - d {
      x := lo + (CLOCK - d + 1 - a);
      if d == 1 { Reading(x, q + 1, 0); } else { Reading(x, q, CLOCK - d + 1); }
    }
  }

  lemma Reading(x: nat, q: int, r: nat)
    requires r < CLOCK
    ensures x == q * CLOCK + r <==> x % CLOCK == r && x / CLOCK == q
  {
  }

  /** Eight seconds before the clock reads `a`. */
  lemma EarlierReading(start: nat, q: nat, a: nat)
    requires start + DISCOVER_MS == q * CLOCK + a && a < CLOCK
    ensures start % CLOCK == if a >= DISCOVER_MS then a - DISCOVER_MS else a + CLOCK - DISCOVER_MS
  {
    if a >= DISCOVER_MS {
      Reading(start, q, a - DISCOVER_MS);
    } else {
      Reading(start, q - 1, a + CLOCK - DISCOVER_MS);
    }
  }

  /** An attempt whose connect deadline the polls skip over. */
  lemma MissedConnect(start: nat, d: nat, idle: Fsm, to: nat) returns (steps: seq<Step>)
    requires idle.state.Idle? && d > 0 && !NoZero(start + CONNECT_MS, start + CONNECT_MS + d)
    requires CONNECT_MS + 2 * DISCOVER_MS + 4 * d < CLOCK && to == start + CONNECT_MS + DISCOVER_MS + 2 * d
    ensures PolledEvery(d, start, steps) && LastAt(start, steps) == to && !Resolved(Attempt(idle, start), steps)
  {
    var m := Attempt(idle, start);
    AttemptIsEntry(idle, start);
    AddMod(start, CONNECT_MS);
    hide Attempt, NoZero;
    steps := SkipDeadline(d, start, m, [], start, m, start + CONNECT_MS, to);
  }

  /** The polls up to the connection, and the one at it. */
  lemma Connected(start: nat, d: nat, m: Fsm, t: nat) returns (steps: seq<Step>)
    requires m == Enter(m, Connecting, start % CLOCK, CONNECT_MS) && start % CLOCK + CONNECT_MS < CLOCK
    requires d > 0 && start <= t < start + CONNECT_MS + d
    requires !TimesOut(Enter(m, Discovering, t % CLOCK, DISCOVER_MS), t)
    ensures Stuck(d, start, m, steps, t, Enter(m, Discovering, t % CLOCK, DISCOVER_MS))
  {
    var p := if t < start + CONNECT_MS then t else start + CONNECT_MS - 1;
    forall at | start < at <= p ensures !TimesOut(m, at) { WithinTurn(start, at); }
    steps := KeepPolling(d, start, m, [], start, m, p);
    FromConnecting(GapConnectOk);
    hide Find, TimesOut, PolledEvery, Resolved, Run, LastAt, LastPoll;
    Extend(d, start, m, steps, Step(t, Occur(GapConnectOk)));
    steps := steps + [Step(t, Occur(GapConnectOk))];
    var r := Enter(m, Discovering, t % CLOCK, DISCOVER_MS);
    PollTimesOut(r, t);
    Extend(d, start, m, steps, Step(t, PollNow));
    steps := steps + [Step(t, PollNow)];
  }

  /** An attempt that connects just when the polls will skip over its discovery deadline. */
  lemma MissedDiscover(start: nat, d: nat, idle: Fsm, to: nat) returns (steps: seq<Step>)
    requires idle.state.Idle? && d > 0 && CONNECT_MS + 2 * DISCOVER_MS + 4 * d < CLOCK
    requires !NoZero(start + DISCOVER_MS, start + CONNECT_MS + DISCOVER_MS + 2 * d - 1)
    requires to == start + CONNECT_MS + DISCOVER_MS + 2 * d
    ensures PolledEvery(d, start, steps) && LastAt(start, steps) == to && !Resolved(Attempt(idle, start), steps)
  {
    var m := Attempt(idle, start);
    AttemptIsEntry(idle, start);
    var x := MissableDeadline(start, d);
    var t := x - DISCOVER_MS;
    AddMod(t, DISCOVER_MS);
    var r := Enter(m, Discovering, t % CLOCK, DISCOVER_MS);
    hide Attempt, NoZero, TimesOut;
    NotSeen(r, x, d, t);
    steps := Connected(start, d, m, t);
    steps := SkipDeadline(d, start, m, steps, t, r, x, to);
  }

  /**
   * The comparison is not wrap-safe, so the bound is not kept at every start: it is kept by every run polled at least
   * every `d` ms if and only if no poll can skip over a deadline at the wrap of the clock.
   */
  lemma BoundedWaitExact(start: nat, d: nat, idle: Fsm)
    requires idle.state.Idle? && d > 0 && CONNECT_MS + 2 * DISCOVER_MS + 4 * d < CLOCK
    ensures Unmissable(start, d) <==>
      forall steps {:trigger PolledEvery(d, start, steps)} ::
        PolledEvery(d, start, steps) && LastAt(start, steps) >= start + CONNECT_MS + DISCOVER_MS + 2 * d
        ==> Resolved(Attempt(idle, start), steps)
  {
    hide PolledEvery, Resolved, NoZero, Attempt, LastAt;
    var to := start + CONNECT_MS + DISCOVER_MS + 2 * d;
    if Unmissable(start, d) {
      forall steps | PolledEvery(d, start, steps) && LastAt(start, steps) >= to
        ensures Resolved(Attempt(idle, start), steps)
      {
        BoundedWait(start, d, idle, steps);
      }
    } else if !NoZero(start + CONNECT_MS, start + CONNECT_MS + d) {
      var steps := MissedConnect(start, d, idle, to);
    } else {
      var steps := MissedDiscover(start, d, idle, to);
    }
  }

  /** A connect deadline that falls on the wrap reads as none at all: no poll ever ends the attempt. */
  lemma {:induction false} WaitsForEver(start: nat, idle: Fsm, steps: seq<Step>)
    requires idle.state.Idle? && start % CLOCK == CLOCK - CONNECT_MS && forall s <- steps :: s.action.PollNow?
    ensures Run(Attempt(idle, start), steps) == Attempt(idle, start) && !Resolved(Attempt(idle, start), steps)
    decreases |steps|
  {
    AttemptIsEntry(idle, start);
    hide Attempt;
    if steps != [] {
      var n := |steps| - 1;
      assert steps[n] in steps;
      WaitsForEver(start, idle, steps[..n]);
      PollTimesOut(Attempt(idle, start), steps[n].at);
    }
  }

  // ---- The failure counter ----

  /** The states entered by a run, in order: one for every step that matched a transition. */
  function Entered(m: Fsm, steps: seq<Step>): seq<ConnState>
    decreases |steps|
  {
    if steps == [] then []
    else
      var n := |steps| - 1;
      Entered(m, steps[..n])
        + (if Matches(Run(m, steps[..n]), steps[n]) then [Do(Run(m, steps[..n]), steps[n]).state] else [])
  }

  predicate Matches(m: Fsm, s: Step) {
    match s.action
    case Occur(e) => Find(0, m.state, e).Some?
    case PollNow => TimesOut(m, s.at)
  }

  /** Backoff entries after the last entry into Ready. */
  function FailuresSinceReady(entered: seq<ConnState>): nat {
    if entered == [] then 0
    else
      var s := entered[|entered| - 1];
      if s.Ready? then 0
      else FailuresSinceReady(entered[..|entered| - 1]) + if s.Backoff? then 1 else 0
  }

  lemma EnteredStep(m: Fsm, s: Step)
    ensures !Matches(m, s) ==> Do(m, s) == m
    ensures Matches(m, s) ==> var r := Do(m, s);
      r.backoffCount == if r.state.Backoff? then (m.backoffCount + 1) % 0x1_0000
                        else if r.state.Ready? then 0 else m.backoffCount
  {
    hide Find;
    FromConnecting(ConnectTimeout);
    FromDiscovering(DiscoverTimeout);
  }

  lemma NoneEntered()
    ensures FailuresSinceReady([]) == 0
  {
  }

  lemma EnteredGrows(entered: seq<ConnState>, s: ConnState)
    ensures FailuresSinceReady(entered + [s]) ==
      if s.Ready? then 0 else FailuresSinceReady(entered) + if s.Backoff? then 1 else 0
  {
    var e := entered + [s];
    assert e[..|e| - 1] == entered;
  }

  /** On every run, the counter is the number of failures since the last success, modulo its width. */
  lemma {:induction false} CounterCountsFailures(steps: seq<Step>)
    ensures var m := Fsm(Idle, 0, 0);
      Run(m, steps).backoffCount == FailuresSinceReady(Entered(m, steps)) % 0x1_0000
    decreases |steps|
  {
    hide Do, Matches, FailuresSinceReady;
    var m, n := Fsm(Idle, 0, 0), |steps| - 1;
    if steps == [] {
      NoneEntered();
    } else {
      CounterCountsFailures(steps[..n]);
      EnteredStep(Run(m, steps[..n]), steps[n]);
      var before := Entered(m, steps[..n]);
      EnteredGrows(before, Do(Run(m, steps[..n]), steps[n]).state);
      assert before + [] == before;
      assert Run(m, steps) == Do(Run(m, steps[..n]), steps[n]);
    }
  }

  class BleConnectionFsm {
    var state: ConnState
    var deadlineMs: nat
    var backoffCount: nat

    function M(): Fsm reads this { Fsm(state, deadlineMs, backoffCount) }

    constructor ()
      ensures M() == Fsm(Idle, 0, 0)
    {
      state, deadlineMs, backoffCount := Idle, 0, 0;
    }

    method Enter_(to: ConnState, now: nat, deadline: nat)
      modifies this
      ensures M() == Enter(old(M()), to, now, deadline)
    {
      if to.Backoff? {
        backoffCount := (backoffCount + 1) % 0x1_0000;
      } else if to.Ready? {
        backoffCount := 0;
      }
      state := to;
      deadlineMs := if deadline == 0 then 0 else (now + deadline) % CLOCK;
    }

    /** The generated switch agrees with the transition list on every state and event. */
    method HandleEvent(event: ConnEvent, now: nat) returns (matched: bool)
      modifies this
      ensures M() == Handle(old(M()), event, now)
      ensures matched <==> Find(0, old(state), event).Some?
    {
      hide Find;
      matched := true;
      match state
      case Idle =>
        FromIdle(event);
        match event {
          case ScanStart => Enter_(Scanning, now, 0);
          case ConnectRequest => Enter_(Connecting, now, 5000);
          case _ => matched := false;
        }
      case Scanning =>
        FromScanning(event);
        match event {
          case AdvMatched => Enter_(Idle, now, 0);
          case _ => matched := false;
        }
      case Connecting =>
        FromConnecting(event);
        match event {
          case GapConnectOk => Enter_(Discovering, now, 8000);
          case GapConnectFail => Enter_(Backoff, now, 0);
          case ConnectTimeout => Enter_(Backoff, now, 0);
          case DropUnsolicitedPairing => Enter_(Backoff, now, 0);
          case _ => matched := false;
        }
      case Discovering =>
        FromDiscovering(event);
        match event {
          case DiscoverDone => Enter_(Ready, now, 0);
          case DiscoverTimeout => Enter_(Backoff, now, 0);
          case GapDisconnectEvt => Enter_(Backoff, now, 0);
          case _ => matched := false;
        }
      case Ready =>
        FromReady(event);
        match event {
          case DisconnectRequest => Enter_(Disconnecting, now, 0);
          case GapDisconnectEvt => Enter_(Backoff, now, 0);
          case _ => matched := false;
        }
      case Disconnecting =>
        FromDisconnecting(event);
        match event {
          case GapDisconnectEvt => Enter_(Idle, now, 0);
          case _ => matched := false;
        }
      case Backoff =>
        FromBackoff(event);
        match event {
          case BackoffElapsed => Enter_(Idle, now, 0);
          case _ => matched := false;
        }
    }

    method PollTimeout(now: nat) returns (fired: bool)
      requires now < CLOCK
      modifies this
      ensures M() == Poll(old(M()), now)
      ensures fired <==> TimesOut(old(M()), now)
    {
      FromConnecting(ConnectTimeout);
      FromDiscovering(DiscoverTimeout);
      if !(state.Connecting? || state.Discovering?) || deadlineMs == 0 || now < deadlineMs { return false; }
      fired := HandleEvent(if state.Connecting? then ConnectTimeout else DiscoverTimeout, now);
    }
  }
}
