/**
 * One device as the proxy serves it: the connection slot that holds it and the service stream it sends the subscriber
 * (components/bluetooth_connection). At most one slot holds a device, and a freed slot keeps nothing of it, so the slot
 * that holds it next goes on where this one stops. The backend, the API socket and the clients are an environment:
 * every accepted or refused frame and every return code is an argument.
 */
module ServiceStream {
  import opened Basics
  import Gatt
  import opened ServiceBatch

  const DONE := -2
  const INIT := -3
  const PENDING := -4
  const DONE_RETRY_LIMIT := 30
  const ACK_RETRY_LIMIT := 250
  const NOT_CONNECTED := -1
  const UNLIKELY := 0x0E
  const MAX_CURSOR := 0x7FFF

  datatype ClientState = Init | Disconnecting | Idle | Connecting | Connected | Established
  datatype AckKind = WriteAck | NotifyAck | ErrorAck
  datatype Ack = NoAck | Ack(kind: AckKind, handle: nat, error: int)

  // ---- What the subscriber sees, and what it makes of it ----

  /**
   * The device's history as far as it concerns the subscriber: its own requests, requests of other API clients that
   * were answered or (re)started the stream, the frames it accepted, the end of a connection and whether the subscriber
   * was told of it, the end of its request, and the start of a new session. A request that was rejected by an error
   * frame the subscriber never got stays open while the stream is past `at` services. A services-done says whether the
   * connection's services had been discovered, and what the device's database is.
   */
  datatype Event =
    | Request
    | Unheard(at: nat)
    | OtherRequest
    | Batch(list: seq<WireSvc>)
    | ServicesDone(discovered: bool, full: seq<WireSvc>)
    | SlotFreed(reason: int, told: bool)
    | Raised
    | Session

  /**
   * The subscriber's open request: what it gathered, what of that predates the latest start of the stream, and how many
   * services had gone out before the request opened.
   */
  datatype Client = Client(gathered: Option<seq<WireSvc>>, stale: seq<WireSvc>, skipped: nat)

  const IDLE_CLIENT := Client(None, [], 0)

  /** Whatever comes next comes on top of what the open request has gathered. */
  function Restarted(c: Client): Client {
    if c.gathered.Some? then Client(c.gathered, c.gathered.value, 0) else IDLE_CLIENT
  }

  /**
   * A client gathers batches per request and takes the list when the services-done arrives. A disconnect or an error
   * that reaches it raises, and so does its own timeout.
   */
  function Observe(c: Client, e: Event): Client {
    match e
    case Request => Client(Some([]), [], 0)
    case Unheard(at) => Client(Some([]), [], at)
    case OtherRequest => Restarted(c)
    case Batch(list) => if c.gathered.Some? then c.(gathered := Some(c.gathered.value + list)) else c
    case ServicesDone(_, _) => IDLE_CLIENT
    case SlotFreed(_, told) => if told then IDLE_CLIENT else Restarted(c)
    case Raised => IDLE_CLIENT
    case Session => IDLE_CLIENT
  }

  function Replay(trace: seq<Event>): Client
    decreases |trace|
  {
    if trace == [] then IDLE_CLIENT else Observe(Replay(trace[..|trace| - 1]), trace[|trace| - 1])
  }

  /** What the open request had gathered when its connection ended untold; nothing if that did not happen. */
  function Outlived(trace: seq<Event>): seq<WireSvc>
    decreases |trace|
  {
    if trace == [] then []
    else
      var pre, e := trace[..|trace| - 1], trace[|trace| - 1];
      if e.SlotFreed? && !e.told then (if Replay(pre).gathered.Some? then Replay(pre).gathered.value else [])
      else if e.Batch? || e.OtherRequest? then Outlived(pre)
      else []
  }

  /** Somebody has asked for the services since the device was last connected. */
  predicate Asked(trace: seq<Event>)
    decreases |trace|
  {
    trace != [] &&
    var e := trace[|trace| - 1];
    e.Request? || e.OtherRequest? || (!e.SlotFreed? && Asked(trace[..|trace| - 1]))
  }

  lemma Append(trace: seq<Event>, e: Event)
    ensures Replay(trace + [e]) == Observe(Replay(trace), e)
    ensures Asked(trace + [e]) <==> e.Request? || e.OtherRequest? || (!e.SlotFreed? && Asked(trace))
    ensures Outlived(trace + [e]) ==
      if e.SlotFreed? && !e.told then (if Replay(trace).gathered.Some? then Replay(trace).gathered.value else [])
      else if e.Batch? || e.OtherRequest? then Outlived(trace)
      else []
  {
    var all := trace + [e];
    assert all[..|all| - 1] == trace;
  }

  /** Event `k` is a services-done that closes an open request: the client takes its list. */
  ghost predicate Caches(trace: seq<Event>, k: int) {
    0 <= k < |trace| && trace[k].ServicesDone? && Replay(trace[..k]).gathered.Some?
  }

  /**
   * What an open request holds when a services-done may go out: the database from where the request joined the stream,
   * behind what was gathered before the stream started; and only what it had outlived a connection with, if the
   * services of this one were never discovered.
   */
  ghost predicate Truthful(trace: seq<Event>, discovered: bool, full: seq<WireSvc>) {
    var c := Replay(trace);
    c.gathered.Some? ==>
      if discovered then c.skipped <= |full| && c.gathered.value == c.stale + full[c.skipped..]
      else c.gathered.value == Outlived(trace)
  }

  ghost predicate Faithful(trace: seq<Event>, k: int)
    requires Caches(trace, k)
  {
    Asked(trace[..k]) && Truthful(trace[..k], trace[k].discovered, trace[k].full)
  }

  ghost predicate Authentic(trace: seq<Event>) {
    forall k {:trigger Caches(trace, k)} :: Caches(trace, k) ==> Faithful(trace, k)
  }

  lemma AuthenticAppend(trace: seq<Event>, e: Event)
    requires Authentic(trace)
    requires e.ServicesDone? ==> Asked(trace) && Truthful(trace, e.discovered, e.full)
    ensures Authentic(trace + [e])
  {
    hide Replay, Asked, Outlived, Truthful;
    var all := trace + [e];
    forall k | Caches(all, k) ensures Faithful(all, k) {
      assert all[..k] == trace[..k];
      if k < |trace| {
        assert Caches(trace, k);
      } else {
        assert trace[..k] == trace;
      }
    }
  }

  // ---- When a list is complete ----

  /** The event leaves an open request open and starts the stream anew under it. */
  predicate Restarts(e: Event) { e.OtherRequest? || (e.SlotFreed? && !e.told) }

  /**
   * At event `j` another client's request, or an end of the connection that the subscriber was not told of, cut short
   * what it had begun to gather, and the request is open since.
   */
  ghost predicate DisturbedAt(trace: seq<Event>, j: int) {
    && 0 <= j < |trace| && Restarts(trace[j])
    && (var c := Replay(trace[..j]); c.gathered.Some? && c.gathered.value != [])
    && forall i :: j < i < |trace| ==> Restarts(trace[i]) || trace[i].Batch?
  }

  ghost predicate Disturbed(trace: seq<Event>) { exists j :: DisturbedAt(trace, j) }

  /** The open request was opened at event `j`, rejected unheard, when services had gone out already. */
  ghost predicate LateAt(trace: seq<Event>, j: int) {
    && 0 <= j < |trace| && trace[j].Unheard? && trace[j].at > 0
    && forall i :: j < i < |trace| ==> trace[i].Batch?
  }

  ghost predicate Late(trace: seq<Event>) { exists j :: LateAt(trace, j) }

  lemma DisturbedAppend(trace: seq<Event>, e: Event)
    ensures Disturbed(trace + [e]) <==>
      || (Restarts(e) && var c := Replay(trace); c.gathered.Some? && c.gathered.value != [])
      || ((Restarts(e) || e.Batch?) && Disturbed(trace))
  {
    hide Replay, Restarts;
    var all, n := trace + [e], |trace|;
    assert all[..n] == trace;
    forall j | 0 <= j < n ensures DisturbedAt(all, j) <==> (Restarts(e) || e.Batch?) && DisturbedAt(trace, j) {
      assert all[..j] == trace[..j] && all[n] == e && all[j] == trace[j];
      assert forall i :: j < i < n ==> all[i] == trace[i];
    }
    assert DisturbedAt(all, n) <==> Restarts(e) && Replay(trace).gathered.Some? && Replay(trace).gathered.value != [];
    if Disturbed(trace) {
      var j :| DisturbedAt(trace, j);
      assert DisturbedAt(all, j) <==> (Restarts(e) || e.Batch?);
    }
  }

  lemma LateAppend(trace: seq<Event>, e: Event)
    ensures Late(trace + [e]) <==> (e.Unheard? && e.at > 0) || (e.Batch? && Late(trace))
  {
    var all, n := trace + [e], |trace|;
    forall j | 0 <= j < n ensures LateAt(all, j) <==> e.Batch? && LateAt(trace, j) {
      assert all[n] == e && all[j] == trace[j];
      assert forall i :: j < i < n ==> all[i] == trace[i];
    }
    assert LateAt(all, n) <==> e.Unheard? && e.at > 0;
    if Late(trace) {
      var j :| LateAt(trace, j);
      assert LateAt(all, j) <==> e.Batch?;
    }
  }

  /**
   * What a client holds from before the stream last started is non-empty exactly when its open request was disturbed,
   * and it misses the beginning of the stream exactly when its request came late; never both.
   */
  lemma {:induction false} StaleMeansDisturbed(trace: seq<Event>)
    ensures var c := Replay(trace);
      && (c.stale != [] <==> c.gathered.Some? && Disturbed(trace))
      && (c.skipped > 0 <==> c.gathered.Some? && Late(trace))
      && (c.stale != [] ==> c.gathered.value != [] && c.skipped == 0)
    ensures Outlived(trace) != [] ==> Disturbed(trace)
    decreases |trace|
  {
    hide Disturbed, DisturbedAt, Late, LateAt;
    if trace != [] {
      var n := |trace| - 1;
      StaleMeansDisturbed(trace[..n]);
      DisturbedAppend(trace[..n], trace[n]);
      LateAppend(trace[..n], trace[n]);
      assert trace[..n] + [trace[n]] == trace;
    } else {
      NothingBefore();
    }
  }

  lemma NothingBefore()
    ensures !Disturbed([]) && !Late([])
  {
  }

  /**
   * The streaming rule, exactly. On a connection whose services had been discovered, the list a client takes is the
   * complete database if and only if its request was neither disturbed nor late. On one that was never discovered it
   * takes what its request outlived the last connection with: nothing, unless that ended untold.
   */
  ghost predicate TakesRightly(t: seq<Event>, done: Event, list: seq<WireSvc>)
    requires done.ServicesDone?
  {
    if done.discovered then list == done.full <==> !Disturbed(t) && !Late(t)
    else list == Outlived(t) && (!Disturbed(t) ==> list == [])
  }

  lemma CachedListIsComplete(trace: seq<Event>, k: int)
    requires Authentic(trace) && Caches(trace, k)
    ensures TakesRightly(trace[..k], trace[k], Replay(trace[..k]).gathered.value)
  {
    hide Disturbed, Late, Replay, Outlived;
    StaleMeansDisturbed(trace[..k]);
    assert Faithful(trace, k);
    var c, done := Replay(trace[..k]), trace[k];
    if done.discovered {
      assert |c.gathered.value| == |c.stale| + |done.full| - c.skipped;
      if c.stale == [] && c.skipped == 0 { assert [] + done.full[0..] == done.full; }
    }
  }

  /** A request opened after the connection came up, with nobody else asking, is neither disturbed nor late. */
  lemma {:induction false} SoleRequest(trace: seq<Event>)
    requires forall e <- trace :: !e.OtherRequest? && !e.Unheard?
    requires Asked(trace) && Replay(trace).gathered.Some?
    ensures Replay(trace).stale == [] && Replay(trace).skipped == 0 && Outlived(trace) == []
    decreases |trace|
  {
    var n := |trace| - 1;
    assert trace[n] in trace && forall e <- trace[..n] :: e in trace;
    if !trace[n].Request? { SoleRequest(trace[..n]); }
  }

  /**
   * With only the subscriber asking, and every rejection heard, a list is complete if the services were discovered and
   * empty if they were not, whether or not the subscriber is told when connections end.
   */
  lemma SoleClientTakes(trace: seq<Event>, k: int)
    requires Authentic(trace) && Caches(trace, k)
    requires forall j :: 0 <= j < k ==> !trace[j].OtherRequest? && !trace[j].Unheard?
    ensures Replay(trace[..k]).gathered == Some(if trace[k].discovered then trace[k].full else [])
  {
    assert Faithful(trace, k);
    hide Replay, Authentic, Outlived, Asked;
    SoleRequest(trace[..k]);
    assert [] + trace[k].full[0..] == trace[k].full;
  }

  // ---- What a slot owes, drained at the 100 ms cadence ----

  /** The owed replies: the connected reply, the services-done and an ack, the last two with their retries so far. */
  datatype Debts = Debts(connected: bool, done: Option<nat>, ack: Option<nat>)

  /** Which of the three frames the API would accept at one drain. */
  datatype Offer = Offer(connected: bool, done: bool, ack: bool)

  function Age(retries: nat, limit: nat): Option<nat> { if retries + 1 >= limit then None else Some(retries + 1) }

  function Retry(owed: Option<nat>, accepted: bool, limit: nat): Option<nat> {
    match owed case None => None case Some(r) => if accepted then None else Age(r, limit)
  }

  /** One drain: a connected reply that stays owed defers the other two, which age all the same. */
  function Drained(d: Debts, o: Offer): Debts {
    if d.connected && !o.connected then
      Debts(true, Retry(d.done, false, DONE_RETRY_LIMIT), Retry(d.ack, false, ACK_RETRY_LIMIT))
    else Debts(false, Retry(d.done, o.done, DONE_RETRY_LIMIT), Retry(d.ack, o.ack, ACK_RETRY_LIMIT))
  }

  function DrainedAll(d: Debts, offers: seq<Offer>): Debts
    decreases |offers|
  {
    if offers == [] then d else Drained(DrainedAll(d, offers[..|offers| - 1]), offers[|offers| - 1])
  }

  /** The counters of what is owed stay below their limits, and so within their five and eight bits. */
  predicate WithinLimits(d: Debts) {
    && (d.done.Some? ==> d.done.value < DONE_RETRY_LIMIT < 32)
    && (d.ack.Some? ==> d.ack.value < ACK_RETRY_LIMIT <= 0xFF)
  }

  /** After `n` drains a debt is settled or has aged by `n`, whatever was accepted or deferred. */
  lemma {:induction false} DebtsAge(d: Debts, offers: seq<Offer>)
    requires WithinLimits(d)
    ensures var r := DrainedAll(d, offers);
      && WithinLimits(r)
      && (r.done.Some? ==> d.done.Some? && r.done.value == d.done.value + |offers|)
      && (r.ack.Some? ==> d.ack.Some? && r.ack.value == d.ack.value + |offers|)
    decreases |offers|
  {
    if offers != [] { DebtsAge(d, offers[..|offers| - 1]); }
  }

  /**
   * An owed services-done is settled within 30 drains and an owed ack within 250, even behind a connected reply that
   * never lands.
   */
  lemma DebtsSettle(d: Debts, offers: seq<Offer>)
    requires WithinLimits(d)
    ensures |offers| >= DONE_RETRY_LIMIT ==> DrainedAll(d, offers).done.None?
    ensures |offers| >= ACK_RETRY_LIMIT ==> DrainedAll(d, offers).ack.None?
  {
    DebtsAge(d, offers);
  }

  /** The bounds are met: a debt that nothing accepts is still owed one drain before its limit. */
  lemma {:induction false} DebtsLast(d: Debts, offers: seq<Offer>)
    requires WithinLimits(d) && d.done == Some(0) && d.ack == Some(0)
    requires forall o <- offers :: o == Offer(false, false, false)
    ensures |offers| < DONE_RETRY_LIMIT ==> DrainedAll(d, offers).done == Some(|offers|)
    ensures |offers| < ACK_RETRY_LIMIT ==> DrainedAll(d, offers).ack == Some(|offers|)
    ensures DrainedAll(d, offers).connected == d.connected
    decreases |offers|
  {
    if offers != [] {
      var n := |offers| - 1;
      assert offers[n] in offers && forall o <- offers[..n] :: o in offers;
      DebtsLast(d, offers[..n]);
    }
  }

  // ---- The connection ----

  /** No service of the table makes the stream abort. */
  ghost predicate Streamable(t: Gatt.Table) {
    forall i :: 0 <= i < |t.services| ==> Packable(t, t.services[i])
  }

  /**
   * From the peer to the subscriber: a table within bounds that stands for the peer's tree, as a successful discovery
   * leaves it, never aborts the stream, and the complete database is that tree.
   */
  lemma DiscoveredTableStreams(t: Gatt.Table, p: Gatt.Peer)
    requires Gatt.InBounds(t) && Gatt.Unflatten(t) == Gatt.Tree(p)
    ensures Streamable(t)
    ensures var v := Gatt.Tree(p); Whole(t) == seq(|v|, i requires 0 <= i < |v| => OnWire(v[i]))
  {
    WholeIsTree(t);
  }

  // ---- What each step makes of the slot ----

  /** The fields of the slot, of the backend and of the proxy, and the history. */
  datatype View = View(
    state: ClientState, cursor: int, doneRetries: nat, discovered: bool, withCache: bool, pendingError: int,
    address: nat, connectedOwed: bool, ack: Ack, ackRetries: nat, subscribed: bool, table: Gatt.Table,
    linking: bool, discovering: bool, full: seq<WireSvc>, trace: seq<Event>)

  const FREE_SLOT :=
    View(Idle, INIT, 0, false, false, 0, 0, false, NoAck, 0, false, Gatt.EMPTY_TABLE, false, false, [], [])

  /** The slot is freed: the proxy sends the first cause latched, or the given reason. */
  function Gone(v: View, reason: int, told: bool): View {
    v.(state := Idle, address := 0, cursor := INIT, discovered := false, pendingError := 0, connectedOwed := false,
       ack := NoAck, table := Gatt.EMPTY_TABLE, linking := false, discovering := false,
       trace := v.trace + [SlotFreed(if v.pendingError != 0 then v.pendingError else reason, told)])
  }

  /** A teardown: nothing to do, a closing link, or a slot freed because the backend has nothing to tear down. */
  function TornDown(v: View, rc: int, told: bool): View {
    if v.state.Idle? || v.state.Disconnecting? then v
    else if rc == 0 then v.(state := Disconnecting)
    else Gone(v, rc, told)
  }

  /** A teardown for an error, which is the cause unless one is latched already. */
  function Failed(v: View, error: int, rc: int, told: bool): View {
    TornDown(if v.pendingError == 0 then v.(pendingError := error) else v, rc, told)
  }

  function ConnectedSent(v: View, accepted: bool): View { v.(connectedOwed := v.subscribed && !accepted) }

  function Connects(v: View, cached: bool, rc: int, told: bool): View {
    if rc == 0 then v.(withCache := cached, state := Connecting, linking := true)
    else Gone(v.(withCache := cached), rc, told)
  }

  function Linked(v: View, rcDiscover: int, rcDisconnect: int, accepted: bool, told: bool, full: seq<WireSvc>): View {
    var up := v.(linking := false, full := full);
    if v.withCache then ConnectedSent(up.(state := Established), accepted)
    else if rcDiscover != 0 then Failed(up.(state := Connected), rcDiscover, rcDisconnect, told)
    else up.(state := Connected, table := Gatt.EMPTY_TABLE, discovering := true)
  }

  function DoneAged(v: View): View {
    v.(doneRetries := v.doneRetries + 1, cursor := if v.doneRetries + 1 >= DONE_RETRY_LIMIT then DONE else v.cursor)
  }

  /** Services-done is offered: sent, owed with a fresh count, or aged. */
  function DoneSent(v: View, accepted: bool): View {
    if !v.subscribed then v.(cursor := DONE)
    else if accepted then v.(cursor := DONE, trace := v.trace + [ServicesDone(v.discovered, v.full)])
    else if v.cursor != PENDING then v.(cursor := PENDING, doneRetries := 0)
    else DoneAged(v)
  }

  /** How many services have gone out on this connection. */
  function Passed(v: View): nat {
    if v.cursor >= 0 then v.cursor else if v.cursor == PENDING && v.discovered then |v.full| else 0
  }

  /** A GetServices: rejected, answered at once, (re)starting the stream, or superseding a services-done. */
  function ServicesRequested(v: View, own: bool, accepted: bool): View {
    if !v.state.Established? then
      if own then v.(trace := v.trace + [if accepted then Raised else Unheard(Passed(v))]) else v
    else
      var asked := v.(trace := v.trace + [if own then Request else OtherRequest]);
      if !v.discovered then DoneSent(asked, accepted)
      else if v.cursor >= 0 || v.cursor == INIT then asked.(cursor := 0)
      else (if own then asked else v).(cursor := DONE)
  }

  function Parked(v: View): View {
    v.(cursor := if v.cursor >= 0 || v.cursor == PENDING then DONE else v.cursor,
       table := if v.cursor >= 0 then Gatt.EMPTY_TABLE else v.table)
  }

  function AckAged(v: View): View {
    v.(ackRetries := v.ackRetries + 1, ack := if v.ackRetries + 1 >= ACK_RETRY_LIMIT then NoAck else v.ack)
  }

  function AckOffered(v: View, accepted: bool): View {
    if v.ack.NoAck? then v else if accepted then v.(ack := NoAck) else AckAged(v)
  }

  /** The drain: connected first; while that stays owed the other debts only age. */
  function Flushed(v: View, o: Offer): View {
    var c := if v.connectedOwed then ConnectedSent(v, o.connected) else v;
    if c.connectedOwed then
      var d := if c.cursor == PENDING then DoneAged(c) else c;
      if d.ack.Ack? then AckAged(d) else d
    else AckOffered(if c.cursor == PENDING then DoneSent(c, o.done) else c, o.ack)
  }

  function DebtsOf(v: View): Debts {
    Debts(v.connectedOwed, if v.cursor == PENDING then Some(v.doneRetries) else None,
          if v.ack.Ack? then Some(v.ackRetries) else None)
  }

  /** On what the slot owes, the drain is one step of the debts. */
  lemma FlushedDebts(v: View, o: Offer)
    requires v.subscribed
    ensures DebtsOf(Flushed(v, o)) == Drained(DebtsOf(v), o)
  {
    ConnectedDebts(v, o.connected);
    var c := if v.connectedOwed then ConnectedSent(v, o.connected) else v;
    DoneDebts(c, o.done);
    var d := if c.cursor != PENDING then c else if c.connectedOwed then DoneAged(c) else DoneSent(c, o.done);
    AckDebts(d, o.ack);
    hide ConnectedSent, DoneSent, DoneAged, AckAged, AckOffered;
  }

  lemma ConnectedDebts(v: View, accepted: bool)
    requires v.subscribed
    ensures var c := ConnectedSent(v, accepted);
      c.subscribed && DebtsOf(c) == DebtsOf(v).(connected := !accepted) && c.cursor == v.cursor && c.ack == v.ack
  {
  }

  lemma DoneDebts(v: View, accepted: bool)
    requires v.subscribed
    ensures v.cursor == PENDING ==>
      && DebtsOf(DoneAged(v)) == DebtsOf(v).(done := Retry(DebtsOf(v).done, false, DONE_RETRY_LIMIT))
      && DebtsOf(DoneSent(v, accepted)) == DebtsOf(v).(done := Retry(DebtsOf(v).done, accepted, DONE_RETRY_LIMIT))
      && DoneAged(v).ack == DoneSent(v, accepted).ack == v.ack
  {
  }

  lemma AckDebts(v: View, accepted: bool)
    ensures v.ack.Ack? ==> DebtsOf(AckAged(v)) == DebtsOf(v).(ack := Retry(DebtsOf(v).ack, false, ACK_RETRY_LIMIT))
    ensures DebtsOf(AckOffered(v, accepted)) == DebtsOf(v).(ack := Retry(DebtsOf(v).ack, accepted, ACK_RETRY_LIMIT))
  {
  }

  function AckMatches(a: Ack, handle: nat, kind: Option<AckKind>): bool {
    a.Ack? && a.handle == handle && (a.kind.ErrorAck? || Some(a.kind) == kind)
  }

  /** One pass of the loop over the stream. */
  ghost predicate Streams(v: View, b: Budget, accepted: bool, rc: int, told: bool, w: View) {
    if v.cursor < 0 then w == v
    else if v.cursor >= |v.table.services| then w == DoneSent(v.(table := Gatt.EMPTY_TABLE), accepted)
    else if !v.subscribed then w == Parked(v)
    else if Aborts(v.table, b, v.cursor) then w == Failed(v.(cursor := DONE), UNLIKELY, rc, told)
    else if !accepted then w == v
    else
      && 0 <= v.cursor <= w.cursor <= |v.full| && Cut(v.table, b, v.cursor, w.cursor)
      && w == v.(cursor := w.cursor, trace := v.trace + [Batch(v.full[v.cursor..w.cursor])])
  }

  datatype Step =
    | Reserved
    | Wanted(hasType: bool, cached: bool, rc: int, accepted: bool, told: bool)
    | Dropped(rc: int, told: bool)
    | LinkReport(connected: bool, error: int, rcDiscover: int, rcDisconnect: int, accepted: bool, told: bool,
                 database: seq<WireSvc>)
    | DiscoveryReport(error: int, found: Gatt.Table, rc: int, accepted: bool, told: bool)
    | ServicesAsked(own: bool, accepted: bool)
    | Tick(b: Budget, accepted: bool, rc: int, told: bool)
    | Drain(offer: Offer)
    | Reply(a: Ack, accepted: bool)
    | Superseded(handle: nat, kind: Option<AckKind>)
    | NewSession(another: bool)
    | RequestEnds

  /**
   * Whether a step can happen: what the backend owes, and what the proxy asks only of a held slot or a subscriber. The
   * subscriber's request may end at any time, by its own timeout or by a frame that tells it of a disconnect.
   */
  predicate Possible(state: ClientState, address: nat, linking: bool, discovering: bool, subscribed: bool, s: Step) {
    match s
    case Reserved => state.Idle?
    case Wanted(_, _, _, _, _) => address != 0
    case Dropped(_, _) => address != 0
    case LinkReport(connected, _, _, _, _, _, _) => connected ==> linking || address == 0
    case DiscoveryReport(_, found, _, _, _) => discovering && |found.services| <= MAX_CURSOR
    case ServicesAsked(own, _) => own ==> subscribed
    case Tick(_, _, _, _) => true
    case Drain(_) => subscribed
    case Reply(a, _) => a.Ack?
    case Superseded(_, _) => true
    case NewSession(_) => true
    case RequestEnds => true
  }

  predicate CanTake(v: View, s: Step) { Possible(v.state, v.address, v.linking, v.discovering, v.subscribed, s) }

  /** What a possible step makes of the slot that serves `device`. */
  ghost predicate Does(device: nat, v: View, s: Step, w: View) {
    match s
    case Reserved => w == v.(state := Init, address := device, cursor := INIT, ack := NoAck, connectedOwed := false)
    case Wanted(hasType, cached, rc, accepted, told) =>
      w == if !hasType then (if v.subscribed && accepted then v.(trace := v.trace + [Raised]) else v)
           else if v.state.Connected? || v.state.Established? then ConnectedSent(v, accepted)
           else if v.state.Init? then Connects(v, cached, rc, told)
           else v
    case Dropped(rc, told) => w == TornDown(v, rc, told)
    case LinkReport(connected, error, rcDiscover, rcDisconnect, accepted, told, database) =>
      w == if v.address == 0 then v
           else if !connected then Gone(v, error, told)
           else if v.state.Connecting? then Linked(v, rcDiscover, rcDisconnect, accepted, told, database)
           else if rcDisconnect == 0 then v.(linking := false)
           else Gone(v, rcDisconnect, told)
    case DiscoveryReport(error, found, rc, accepted, told) =>
      w == if error != 0 then Failed(v.(discovering := false), error, rc, told)
           else ConnectedSent(v.(discovering := false, state := Established, discovered := true, table := found,
                                 full := Whole(found)), accepted)
    case ServicesAsked(own, accepted) => w == ServicesRequested(v, own, accepted)
    case Tick(b, accepted, rc, told) => Streams(v, b, accepted, rc, told, w)
    case Drain(offer) => w == Flushed(v, offer)
    case Reply(a, accepted) => w == if v.subscribed && !accepted then v.(ack := a, ackRetries := 0) else v
    case Superseded(handle, kind) => w == if AckMatches(v.ack, handle, kind) then v.(ack := NoAck) else v
    case NewSession(another) =>
      w == Parked(v).(ack := NoAck, connectedOwed := false, subscribed := another, trace := v.trace + [Session])
    case RequestEnds => w == v.(trace := v.trace + [Raised])
  }

  /** A step that cannot happen is passed over. */
  ghost predicate Follows(device: nat, v: View, s: Step, w: View) {
    if CanTake(v, s) then Does(device, v, s, w) else w == v
  }

  class BluetoothConnection {
    const device: nat
    var state: ClientState
    var cursor: int
    var doneRetries: nat
    var discovered: bool
    var withCache: bool
    var pendingError: int
    var address: nat
    var connectedOwed: bool
    var ack: Ack
    var ackRetries: nat
    /** The proxy's subscriber, and the backend's service table. */
    var subscribed: bool
    var table: Gatt.Table

    /** Of the backend: it owes a connection report, or a discovery report. */
    var linking: bool
    var discovering: bool
    /** The database of the connected device: what its discovery found, or what there is on a link that needs none. */
    ghost var full: seq<WireSvc>
    ghost var trace: seq<Event>

    ghost function Look(): View reads this {
      View(state, cursor, doneRetries, discovered, withCache, pendingError, address, connectedOwed, ack, ackRetries,
           subscribed, table, linking, discovering, full, trace)
    }

    /** A services-done would be the truth now. */
    ghost predicate Complete() reads `discovered, `full, `trace { Truthful(trace, discovered, full) }

    /** Where the cursor stands and what the subscriber has. */
    ghost predicate CursorValid()
      reads `cursor, `doneRetries, `table, `discovered, `full, `trace, `subscribed
    {
      && (cursor == DONE || cursor == INIT || cursor == PENDING || 0 <= cursor <= |table.services|)
      && (cursor >= 0 ==> discovered && cursor <= |full| && Gathered(cursor))
      && (cursor == PENDING ==> Complete() && subscribed && doneRetries < DONE_RETRY_LIMIT)
      && (!discovered ==> Complete())
      && (cursor != INIT ==> Asked(trace))
    }

    /** An open request has everything before service `at`, from where it joined the stream. */
    ghost predicate Gathered(at: int) reads `full, `trace {
      var c := Replay(trace);
      c.gathered.Some? ==> c.skipped <= at <= |full| && c.gathered.value == c.stale + full[c.skipped..at]
    }

    /** Until the stream ends, the backend still holds the database of the discovery. */
    ghost predicate TableValid() reads `cursor, `table, `discovered, `full {
      discovered && (cursor >= 0 || cursor == INIT) ==> Whole(table) == full && |table.services| <= MAX_CURSOR
    }

    /** Which states go with which outstanding backend operations. */
    ghost predicate PhaseValid()
      reads `state, `address, `linking, `discovering, `discovered, `cursor, `pendingError
    {
      && device != 0 && (address == 0 || address == device) && (state.Idle? <==> address == 0)
      && (linking ==> !discovering && (state.Connecting? || state.Disconnecting?))
      && (discovering ==> state.Connected? || state.Disconnecting?)
      && (linking || discovering || !(state.Established? || state.Disconnecting?) ==> cursor == INIT && !discovered)
      && (state.Init? || state.Idle? || state.Connecting? ==> pendingError == 0)
    }

    ghost predicate DebtsValid() reads this {
      && WithinLimits(Owed())
      && (!subscribed ==> Replay(trace).gathered.None? && !connectedOwed && ack.NoAck?)
    }

    ghost predicate Valid() reads this {
      CursorValid() && TableValid() && PhaseValid() && DebtsValid() && Authentic(trace)
    }

    function OwedDone(): Option<nat> reads `cursor, `doneRetries {
      if cursor == PENDING then Some(doneRetries) else None
    }

    function OwedAck(): Option<nat> reads `ack, `ackRetries { if ack.Ack? then Some(ackRetries) else None }

    function Owed(): Debts reads this { Debts(connectedOwed, OwedDone(), OwedAck()) }

    constructor (device: nat)
      requires device != 0
      ensures Valid() && this.device == device && Look() == FREE_SLOT
    {
      this.device := device;
      state, cursor, doneRetries, discovered, withCache := Idle, INIT, 0, false, false;
      pendingError, address, connectedOwed, ack, ackRetries := 0, 0, false, NoAck, 0;
      subscribed, table := false, Gatt.EMPTY_TABLE;
      linking, discovering, full, trace := false, false, [], [];
    }

    ghost method Log(e: Event)
      modifies `trace
      requires Authentic(trace)
      requires e.ServicesDone? ==> e == ServicesDone(discovered, full) && Complete() && Asked(trace)
      ensures trace == old(trace) + [e] && Authentic(trace) && Replay(trace) == Observe(Replay(old(trace)), e)
      ensures Asked(trace) <==> e.Request? || e.OtherRequest? || (!e.SlotFreed? && Asked(old(trace)))
      ensures Outlived(trace) ==
        if e.SlotFreed? && !e.told then
          (if Replay(old(trace)).gathered.Some? then Replay(old(trace)).gathered.value else [])
        else if e.Batch? || e.OtherRequest? then Outlived(old(trace))
        else []
    {
      Append(trace, e);
      AuthenticAppend(trace, e);
      trace := trace + [e];
    }

    // ---- The slot's life ----

    /** Whichever slot serves the device next, a free one holds nothing of it but what the subscriber was never told. */
    lemma FreeHoldsNothing()
      requires Valid() && state.Idle?
      ensures device != 0 && address == 0 && cursor == INIT && !discovered && !linking && !discovering
      ensures pendingError == 0
    {
      hide Replay, Authentic, Whole, Asked, Outlived;
    }

    /** A connect request takes a free slot for the device. */
    method Reserve()
      requires Valid() && state.Idle?
      modifies this
      ensures Valid() && Does(device, old(Look()), Reserved, Look())
    {
      hide Replay, Authentic, Whole, Asked, Outlived;
      cursor := INIT;
      ack, connectedOwed := NoAck, false;
      address := device;
      state := Init;
    }

    /** Starts connecting; a refused start frees the slot at once. */
    method InitiateConnection(cached: bool, rc: int, told: bool)
      requires Valid() && state.Init?
      modifies this
      ensures Valid() && Look() == Connects(old(Look()), cached, rc, told)
    {
      hide Replay, Authentic, Whole, Asked, Outlived;
      withCache := cached;
      state := Connecting;
      if rc != 0 {
        ResetConnection(rc, told);
      } else {
        linking := true;
      }
    }

    /** Frees the slot: the notice the proxy sends carries the first cause latched, or the given reason. */
    method ResetConnection(reason: int, told: bool)
      requires Authentic(trace) && DebtsValid() && device != 0
      modifies this
      ensures Valid() && Look() == Gone(old(Look()), reason, told)
    {
      hide Replay, Authentic, Whole, Asked, Outlived, Truthful, Valid, WithinLimits;
      var cause := TakeCause(reason);
      LogFreed(cause, told);
      ClearSlot();
      FreedIsValid();
    }

    /** The first cause latched, or the given reason. */
    method TakeCause(reason: int) returns (cause: int)
      modifies `pendingError
      ensures pendingError == 0 && cause == if old(pendingError) != 0 then old(pendingError) else reason
    {
      cause := reason;
      if pendingError != 0 {
        cause := pendingError;
        pendingError := 0;
      }
    }

    method ClearSlot()
      modifies `state, `address, `cursor, `discovered, `connectedOwed, `ack, `table, `linking, `discovering
      ensures state.Idle? && address == 0 && cursor == INIT && !discovered && !connectedOwed && ack.NoAck?
      ensures table == Gatt.EMPTY_TABLE && !linking && !discovering
    {
      state := Idle;
      discovered := false;
      ack, connectedOwed := NoAck, false;
      table := Gatt.EMPTY_TABLE;
      address := 0;
      cursor := INIT;
      linking, discovering := false, false;
    }

    lemma FreedIsValid()
      requires state.Idle? && address == 0 && device != 0 && cursor == INIT && !discovered && !linking && !discovering
      requires pendingError == 0 && !connectedOwed && ack.NoAck? && (!subscribed ==> Replay(trace).gathered.None?)
      requires Authentic(trace) && Truthful(trace, false, full)
      ensures Valid()
    {
      hide Replay, Authentic, Whole, Asked, Outlived, Truthful;
    }

    /** The request that stays open over an untold end holds what it outlived the connection with. */
    ghost method LogFreed(cause: int, told: bool)
      requires Authentic(trace)
      modifies `trace
      ensures trace == old(trace) + [SlotFreed(cause, told)] && Authentic(trace) && Truthful(trace, false, full)
      ensures Replay(old(trace)).gathered.None? ==> Replay(trace).gathered.None?
    {
      hide Replay, Authentic, Asked, Outlived;
      Log(SlotFreed(cause, told));
    }

    /** What a teardown needs of the slot: all but that the latched error belongs to its state. */
    ghost predicate Linkable() reads this {
      && CursorValid() && TableValid() && DebtsValid() && Authentic(trace)
      && device != 0 && (address == 0 || address == device) && (state.Idle? <==> address == 0)
      && (linking ==> !discovering && (state.Connecting? || state.Disconnecting?))
      && (discovering ==> state.Connected? || state.Disconnecting?)
      && (linking || discovering || state.Idle? ==> cursor == INIT && !discovered)
      && (state.Idle? ==> pendingError == 0)
    }

    /** Idempotent; `rc` is the backend's answer, nonzero meaning that there is nothing to tear down. */
    method Disconnect(rc: int, told: bool)
      requires Linkable()
      modifies this
      ensures Valid() && Look() == TornDown(old(Look()), rc, told)
    {
      hide Replay, Authentic, Whole, Asked, Outlived;
      if state.Idle? || state.Disconnecting? { return; }
      if rc != 0 {
        ResetConnection(rc, told);
        return;
      }
      state := Disconnecting;
    }

    method LatchPendingError(error: int)
      modifies `pendingError
      ensures pendingError == if old(pendingError) == 0 then error else old(pendingError)
    {
      if pendingError == 0 { pendingError := error; }
    }

    /** A device disconnect request for this slot; the branch for an idle slot that still has an address is dead. */
    method DisconnectRequest(rc: int, told: bool)
      requires Valid() && address != 0
      modifies this
      ensures Valid() && Does(device, old(Look()), Dropped(rc, told), Look())
    {
      hide Replay, Authentic, Whole, Asked, Outlived;
      assert !state.Idle?;
      Disconnect(rc, told);
    }

    /** What the proxy does with a connect request that found or reserved this slot; `rc` answers the open. */
    method ConnectRequest(hasType: bool, cached: bool, rc: int, accepted: bool, told: bool)
      requires Valid() && address != 0
      modifies this
      ensures Valid() && Does(device, old(Look()), Wanted(hasType, cached, rc, accepted, told), Look())
    {
      hide Replay, Authentic, Whole, Asked, Outlived;
      if !hasType {
        // Answered with connected=false, which raises whatever the subscriber has open.
        if subscribed && accepted { Log(Raised); }
        return;
      }
      if state.Connected? || state.Established? {
        SendConnectedReply(accepted);
        return;
      } else if !state.Init? {
        // A running teardown cannot be cancelled by this backend, and a repeat request is ignored.
        return;
      }
      InitiateConnection(cached, rc, told);
    }

    method SendConnectedReply(accepted: bool)
      modifies `connectedOwed
      ensures Look() == ConnectedSent(old(Look()), accepted)
      ensures old(Valid()) ==> Valid()
    {
      hide Replay, Authentic, Whole, Asked, Outlived, Truthful;
      if !subscribed || accepted {
        connectedOwed := false;
        return;
      }
      if !connectedOwed { connectedOwed := true; }
    }

    // ---- Backend reports ----

    /**
     * A link came up, which the backend reports only for a connect it still owes an answer or for a slot freed since,
     * or ended. `rcDiscover` and `rcDisconnect` answer the operations this starts; `database` is what the device has.
     */
    method OnConnectionState(connected: bool, error: int, rcDiscover: int, rcDisconnect: int, accepted: bool,
                             told: bool, ghost database: seq<WireSvc>)
      requires Valid() && (connected ==> linking || address == 0)
      modifies this
      ensures Valid()
      ensures Does(device, old(Look()),
                   LinkReport(connected, error, rcDiscover, rcDisconnect, accepted, told, database), Look())
    {
      hide Replay, Authentic, Whole, Asked, Outlived;
      if connected && address == 0 { return; }
      if connected && state.Disconnecting? {
        linking := false;
        if rcDisconnect != 0 { ResetConnection(rcDisconnect, told); }
        return;
      }
      if connected {
        LinkUp(rcDiscover, rcDisconnect, accepted, told, database);
        return;
      }
      if address == 0 { return; }
      ResetConnection(error, told);
    }

    /** The link of a connecting slot is up: cached services need no discovery. */
    method LinkUp(rcDiscover: int, rcDisconnect: int, accepted: bool, told: bool, ghost database: seq<WireSvc>)
      requires Valid() && linking && state.Connecting?
      modifies this
      ensures Valid() && Look() == Linked(old(Look()), rcDiscover, rcDisconnect, accepted, told, database)
    {
      hide Replay, Authentic, Whole, Asked, Outlived;
      linking := false;
      full := database;
      if withCache {
        state := Established;
        SendConnectedReply(accepted);
        return;
      }
      StartDiscovery(rcDiscover, rcDisconnect, told);
    }

    method StartDiscovery(rcDiscover: int, rcDisconnect: int, told: bool)
      requires Linkable() && state.Connecting? && !linking && !discovering && cursor == INIT && !discovered
      modifies this
      ensures Valid()
      ensures var up := old(Look()).(state := Connected);
        Look() == if rcDiscover != 0 then Failed(up, rcDiscover, rcDisconnect, told)
                  else up.(table := Gatt.EMPTY_TABLE, discovering := true)
    {
      hide Replay, Authentic, Whole, Asked, Outlived;
      state := Connected;
      if rcDiscover != 0 {
        LatchPendingError(rcDiscover);
        Disconnect(rcDisconnect, told);
        return;
      }
      table := Gatt.EMPTY_TABLE;
      discovering := true;
    }

    /** The discovery this connection started ended; on success `found` is what the backend holds now. */
    method OnServiceDiscoveryDone(error: int, found: Gatt.Table, rc: int, accepted: bool, told: bool)
      requires Valid() && discovering && |found.services| <= MAX_CURSOR
      modifies this
      ensures Valid() && Does(device, old(Look()), DiscoveryReport(error, found, rc, accepted, told), Look())
    {
      hide Replay, Authentic, Whole, Asked, Outlived, Truthful, WithinLimits, Failed, ConnectedSent;
      discovering := false;
      if error != 0 {
        FailDiscovery(error, rc, told);
        return;
      }
      Discovered(found);
      SendConnectedReply(accepted);
    }

    method FailDiscovery(error: int, rc: int, told: bool)
      requires Linkable() && !state.Idle?
      modifies this
      ensures Valid() && Look() == Failed(old(Look()), error, rc, told)
    {
      hide Replay, Authentic, Whole, Asked, Outlived;
      LatchPendingError(error);
      Disconnect(rc, told);
    }

    method Discovered(found: Gatt.Table)
      requires CursorValid() && DebtsValid() && Authentic(trace) && device != 0 && address == device
      requires cursor == INIT && !discovered && !linking && !discovering && |found.services| <= MAX_CURSOR
      modifies `table, `full, `state, `discovered
      ensures Valid() && table == found && full == Whole(found) && state.Established? && discovered
    {
      hide Replay, Authentic, Whole, Asked, Outlived, Truthful;
      table, full := found, Whole(found);
      state := Established;
      discovered := true;
    }

    // ---- Streaming ----

    /** Sends services-done, or owes it; with nobody subscribed nothing is owed. */
    method SendServicesDone(accepted: bool)
      requires Complete() && PhaseValid() && DebtsValid() && Authentic(trace) && Asked(trace)
      requires state.Established? || state.Disconnecting?
      requires !linking && !discovering
      modifies `cursor, `doneRetries, `trace
      ensures Valid() && Look() == DoneSent(old(Look()), accepted)
    {
      hide Replay, Authentic, Whole, Asked, Outlived;
      if !subscribed || accepted {
        if subscribed { Log(ServicesDone(discovered, full)); }
        cursor := DONE;
        return;
      }
      if cursor != PENDING {
        doneRetries := 0;
        cursor := PENDING;
      } else {
        AgeServicesDone();
      }
    }

    method AgeServicesDone()
      requires cursor == PENDING && doneRetries < DONE_RETRY_LIMIT
      modifies `cursor, `doneRetries
      ensures OwedDone() == Age(old(doneRetries), DONE_RETRY_LIMIT) && Look() == DoneAged(old(Look()))
    {
      doneRetries := doneRetries + 1;
      if doneRetries >= DONE_RETRY_LIMIT { cursor := DONE; }
    }

    /**
     * A GetServices for this device, from the subscriber (`own`) or from any other API client. `accepted` is for the
     * error frame of a rejected one, else for a services-done.
     */
    method GetServices(own: bool, accepted: bool) returns (rejected: bool)
      requires Valid() && (own ==> subscribed)
      modifies `cursor, `doneRetries, `trace
      ensures Valid() && (rejected <==> !old(state.Established?))
      ensures Does(device, old(Look()), ServicesAsked(own, accepted), Look())
      ensures state.Established? && discovered && (old(cursor) == INIT || old(cursor) >= 0) ==> cursor == 0
    {
      hide Replay, Authentic, Whole, Asked, Outlived;
      rejected := !state.Established?;
      if rejected {
        if own { RejectOwn(accepted); }
        return;
      }
      if !discovered {
        LogRequest(own);
        SendServicesDone(accepted);
        return;
      }
      StartStream(own);
    }

    /** A request restarts the stream, supersedes an owed services-done, or starts the stream if that has not been. */
    method StartStream(own: bool)
      requires Valid() && state.Established? && discovered && (own ==> subscribed)
      modifies `cursor, `trace
      ensures Valid() && Look() == ServicesRequested(old(Look()), own, false)
      ensures cursor == if old(cursor) == INIT || old(cursor) >= 0 then 0 else DONE
    {
      hide Replay, Authentic, Whole, Asked, Outlived, Truthful;
      if own || cursor == INIT || cursor >= 0 { LogRequest(own); }
      assert Replay(trace).stale + full[0..0] == Replay(trace).stale;
      if cursor > 0 {
        cursor := 0;
        return;
      }
      if cursor == PENDING {
        cursor := DONE;
        return;
      }
      if cursor == INIT { cursor := 0; }
    }

    ghost method LogRequest(own: bool)
      requires Authentic(trace) && (own ==> subscribed) && (!subscribed ==> Replay(trace).gathered.None?)
      modifies `trace
      ensures trace == old(trace) + [if own then Request else OtherRequest] && Authentic(trace) && Asked(trace)
      ensures !subscribed ==> Replay(trace).gathered.None?
      ensures var c := Replay(trace); c.gathered.Some? ==> c.skipped == 0 && c.gathered.value == c.stale
      ensures old(!discovered && Complete()) ==> Complete()
    {
      hide Replay, Authentic, Asked, Outlived;
      Log(if own then Request else OtherRequest);
    }

    /** An error frame rejects the subscriber's request; refused, it leaves the request open on the client. */
    ghost method RejectOwn(accepted: bool)
      requires Valid() && subscribed && !state.Established?
      modifies `trace
      ensures Valid() && trace == old(trace) + [if accepted then Raised else Unheard(Passed(old(Look())))]
    {
      hide Replay, Authentic, Whole, Asked, Outlived;
      Log(if accepted then Raised else Unheard(Passed(Look())));
    }

    /** Parks the stream without services-done; an owed done is dropped with it. */
    method ParkServiceStream()
      requires Valid()
      modifies `cursor, `table
      ensures Valid() && Look() == Parked(old(Look()))
    {
      hide Replay, Authentic, Whole, Asked, Outlived;
      if cursor >= 0 {
        table := Gatt.EMPTY_TABLE;
        cursor := DONE;
      } else if cursor == PENDING {
        cursor := DONE;
      }
    }

    /** The subscriber is replaced or leaves: nothing of its session reaches the next one. */
    method EndSession(another: bool)
      requires Valid()
      modifies this
      ensures Valid() && Owed() == Debts(false, None, None) && cursor < 0
      ensures Does(device, old(Look()), NewSession(another), Look())
    {
      hide Replay, Authentic, Whole, Asked, Outlived;
      ParkServiceStream();
      NextSubscriber(another);
    }

    method NextSubscriber(another: bool)
      requires Valid() && cursor < 0 && cursor != PENDING
      modifies `ack, `connectedOwed, `subscribed, `trace
      ensures Valid() && !connectedOwed && ack.NoAck? && subscribed == another && trace == old(trace) + [Session]
    {
      hide Replay, Authentic, Whole, Asked, Outlived;
      ack, connectedOwed := NoAck, false;
      subscribed := another;
      Log(Session);
    }

    method AbortServiceStream(error: int, rc: int, told: bool)
      requires PhaseValid() && DebtsValid() && Authentic(trace) && Asked(trace) && cursor >= 0 && discovered
      modifies this
      ensures Valid() && cursor < 0 && Look() == Failed(old(Look()).(cursor := DONE), error, rc, told)
    {
      hide Replay, Authentic, Whole, Asked, Outlived;
      LatchPendingError(error);
      cursor := DONE;
      Disconnect(rc, told);
    }

    /**
     * One pass of the proxy loop over the stream. A refused frame leaves the cursor; an accepted one passes exactly the
     * services it carried. Services-done goes out only behind the last of them.
     */
    method ProcessPendingServices(b: Budget, accepted: bool, rc: int, told: bool)
      requires Valid()
      modifies this
      ensures Valid() && Does(device, old(Look()), Tick(b, accepted, rc, told), Look())
    {
      hide Replay, Authentic, Whole, Asked, Outlived, Cut, Aborts;
      if cursor < 0 { return; }
      SendServiceForDiscovery(b, accepted, rc, told);
    }

    method SendServiceForDiscovery(b: Budget, accepted: bool, rc: int, told: bool)
      requires Valid() && cursor >= 0
      modifies this
      ensures Valid() && Streams(old(Look()), b, accepted, rc, told, Look())
    {
      hide Replay, Authentic, Whole, Asked, Outlived, Cut, Aborts;
      if cursor >= |table.services| {
        LastService();
        table := Gatt.EMPTY_TABLE;
        SendServicesDone(accepted);
        return;
      }
      if !subscribed {
        ParkServiceStream();
        return;
      }
      SendBatch(b, accepted, rc, told);
    }

    /** Behind the last service an open request has everything there is. */
    lemma LastService()
      requires Valid() && cursor >= |table.services|
      ensures Complete()
    {
      hide Replay, Authentic, Asked, Outlived;
    }

    /** The batch at the cursor: offered, and passed by the cursor if it is accepted. */
    method SendBatch(b: Budget, accepted: bool, rc: int, told: bool)
      requires Valid() && 0 <= cursor < |table.services| && subscribed
      modifies this
      ensures Valid() && Streams(old(Look()), b, accepted, rc, told, Look())
    {
      hide Replay, Authentic, Whole, Cut, Aborts, Packable, Weight, Asked, Outlived;
      var batchStart := cursor;
      var aborted, batch;
      aborted, batch, cursor := FillBatch(table, b, cursor);
      if aborted {
        AbortServiceStream(UNLIKELY, rc, told);
        return;
      }
      OfferBatch(batchStart, batch, accepted);
    }

    /** A refused batch rewinds the cursor to its start; an accepted one reaches the subscriber. */
    method OfferBatch(batchStart: int, batch: seq<WireSvc>, accepted: bool)
      requires PhaseValid() && DebtsValid() && TableValid() && Authentic(trace) && discovered && subscribed
      requires 0 <= batchStart < cursor <= |table.services| && cursor <= |full| && batch == full[batchStart..cursor]
      requires Gathered(batchStart) && Asked(trace)
      modifies `cursor, `trace
      ensures Valid() && cursor == if accepted then old(cursor) else batchStart
      ensures trace == if accepted then old(trace) + [Batch(batch)] else old(trace)
    {
      hide Replay, Authentic, Whole, Asked, Outlived;
      if !accepted {
        cursor := batchStart;
        return;
      }
      ghost var c := Replay(trace);
      Log(Batch(batch));
      if c.gathered.Some? {
        assert full[c.skipped..batchStart] + full[batchStart..cursor] == full[c.skipped..cursor];
        assert (c.stale + full[c.skipped..batchStart]) + batch == c.stale + full[c.skipped..cursor];
      }
    }

    // ---- Owed replies ----

    /** The first attempt of an ack; refused, it displaces whatever ack was owed. */
    method SendAck(a: Ack, accepted: bool)
      requires Valid() && a.Ack?
      modifies `ack, `ackRetries
      ensures Valid() && Does(device, old(Look()), Reply(a, accepted), Look())
    {
      hide Replay, Authentic, Whole, Asked, Outlived;
      if !subscribed || accepted { return; }
      ackRetries := 0;
      ack := a;
    }

    /** A new request for a handle drops the owed reply it makes stale. */
    method SupersedePendingAck(handle: nat, kind: Option<AckKind>)
      requires Valid()
      modifies `ack
      ensures Valid() && Does(device, old(Look()), Superseded(handle, kind), Look())
    {
      hide Replay, Authentic, Whole, Asked, Outlived;
      if ack.Ack? && ack.handle == handle && (ack.kind.ErrorAck? || Some(ack.kind) == kind) { ack := NoAck; }
    }

    method AgePendingAck()
      requires ack.Ack? && ackRetries < ACK_RETRY_LIMIT
      modifies `ack, `ackRetries
      ensures OwedAck() == Age(old(ackRetries), ACK_RETRY_LIMIT) && Look() == AckAged(old(Look()))
    {
      ackRetries := ackRetries + 1;
      if ackRetries >= ACK_RETRY_LIMIT { ack := NoAck; }
    }

    /** Re-offers the owed ack, and ages it when it is refused again. */
    method FlushPendingAck(accepted: bool)
      requires ack.Ack? && ackRetries < ACK_RETRY_LIMIT
      modifies `ack, `ackRetries
      ensures OwedAck() == Retry(old(OwedAck()), accepted, ACK_RETRY_LIMIT)
      ensures Look() == AckOffered(old(Look()), accepted)
    {
      if accepted {
        ack := NoAck;
        return;
      }
      AgePendingAck();
    }

    /** The part of a drain behind a connected reply that was refused again: the other debts only age. */
    method AgeDeferred()
      requires Valid() && subscribed
      modifies `cursor, `doneRetries, `ack, `ackRetries
      ensures Valid() && OwedDone() == Retry(old(OwedDone()), false, DONE_RETRY_LIMIT)
      ensures OwedAck() == Retry(old(OwedAck()), false, ACK_RETRY_LIMIT)
      ensures var v := old(Look());
        var d := if v.cursor == PENDING then DoneAged(v) else v;
        Look() == if v.ack.Ack? then AckAged(d) else d
    {
      hide Replay, Authentic, Whole, Asked, Outlived;
      if cursor == PENDING { AgeServicesDone(); }
      if ack.Ack? { AgePendingAck(); }
    }

    method FlushServicesDone(accepted: bool)
      requires Valid() && subscribed && !connectedOwed
      modifies `cursor, `doneRetries, `trace
      ensures Valid() && OwedDone() == Retry(old(OwedDone()), accepted, DONE_RETRY_LIMIT)
      ensures Look() == if old(cursor) == PENDING then DoneSent(old(Look()), accepted) else old(Look())
    {
      hide Replay, Authentic, Whole, Asked, Outlived;
      if cursor == PENDING { SendServicesDone(accepted); }
    }

    /** One drain, of a subscribed slot: connected first, and nothing else while that stays owed. */
    method FlushOwedReplies(o: Offer)
      requires Valid() && subscribed
      modifies `connectedOwed, `cursor, `doneRetries, `trace, `ack, `ackRetries
      ensures Valid() && Owed() == Drained(old(Owed()), o)
      ensures Does(device, old(Look()), Drain(o), Look())
    {
      FlushedDebts(Look(), o);
      OwedIs();
      hide Replay, Authentic, Whole, Asked, Outlived, Valid, Drained, Owed, OwedDone, OwedAck;
      hide ConnectedSent, DoneSent, DoneAged, AckAged, AckOffered, DebtsOf;
      if connectedOwed {
        SendConnectedReply(o.connected);
        if connectedOwed {
          AgeDeferred();
          return;
        }
      }
      FlushRest(o.done, o.ack);
    }

    method FlushRest(done: bool, acked: bool)
      requires Valid() && subscribed && !connectedOwed
      modifies `cursor, `doneRetries, `trace, `ack, `ackRetries
      ensures Valid()
      ensures var v := old(Look()); Look() == AckOffered(if v.cursor == PENDING then DoneSent(v, done) else v, acked)
    {
      hide Replay, Authentic, Whole, Asked, Outlived, Valid, DoneSent, AckOffered;
      FlushServicesDone(done);
      FlushAck(acked);
    }

    lemma OwedIs()
      ensures Owed() == DebtsOf(Look())
    {
    }

    method FlushAck(accepted: bool)
      requires Valid()
      modifies `ack, `ackRetries
      ensures Valid() && Look() == AckOffered(old(Look()), accepted)
    {
      hide Replay, Authentic, Whole, Asked, Outlived;
      if ack.Ack? { FlushPendingAck(accepted); }
    }

    /** The subscriber's request ends by itself, or by a frame that tells it of a disconnect. */
    ghost method EndRequest()
      requires Valid()
      modifies `trace
      ensures Valid() && Does(device, old(Look()), RequestEnds, Look())
    {
      hide Replay, Authentic, Whole, Asked, Outlived;
      Log(Raised);
    }
  }

  // ---- Runs: anything the backend, the clients and the API may do, in any order ----

  method Take(c: BluetoothConnection, s: Step)
    requires c.Valid() && CanTake(c.Look(), s)
    modifies c
    ensures c.Valid() && Does(c.device, old(c.Look()), s, c.Look())
  {
    hide BluetoothConnection.Valid, Replay, Authentic, Does;
    match s {
      case Reserved => c.Reserve();
      case Wanted(hasType, cached, rc, accepted, told) => c.ConnectRequest(hasType, cached, rc, accepted, told);
      case Dropped(rc, told) => c.DisconnectRequest(rc, told);
      case LinkReport(connected, error, rcDiscover, rcDisconnect, accepted, told, database) =>
        c.OnConnectionState(connected, error, rcDiscover, rcDisconnect, accepted, told, database);
      case DiscoveryReport(error, found, rc, accepted, told) =>
        c.OnServiceDiscoveryDone(error, found, rc, accepted, told);
      case ServicesAsked(own, accepted) => var rejected := c.GetServices(own, accepted);
      case Tick(b, accepted, rc, told) => c.ProcessPendingServices(b, accepted, rc, told);
      case Drain(offer) => c.FlushOwedReplies(offer);
      case Reply(a, accepted) => c.SendAck(a, accepted);
      case Superseded(handle, kind) => c.SupersedePendingAck(handle, kind);
      case NewSession(another) => c.EndSession(another);
      case RequestEnds => c.EndRequest();
    }
  }

  /** The states of a run of one device, one more than its steps. */
  ghost predicate History(device: nat, views: seq<View>, steps: seq<Step>) {
    && |views| == |steps| + 1 && views[0] == FREE_SLOT
    && forall t :: 0 <= t < |steps| ==> Follows(device, views[t], steps[t], views[t + 1])
  }

  lemma Lengthen(device: nat, views: seq<View>, steps: seq<Step>, i: nat, w: View)
    requires i < |steps| && History(device, views, steps[..i]) && Follows(device, views[i], steps[i], w)
    ensures History(device, views + [w], steps[..i + 1])
  {
    hide Follows;
  }

  /**
   * The streaming rule on every run: from an empty slot, whatever happens in whatever order (a step that cannot happen
   * is passed over), the subscriber takes what `TakesRightly` says. `views` is what the steps found.
   */
  method Run(device: nat, steps: seq<Step>) returns (c: BluetoothConnection, ghost views: seq<View>)
    requires device != 0
    ensures fresh(c) && c.Valid() && History(device, views, steps) && views[|steps|] == c.Look()
    ensures forall k {:trigger Caches(c.trace, k)} :: Caches(c.trace, k) ==>
      TakesRightly(c.trace[..k], c.trace[k], Replay(c.trace[..k]).gathered.value)
  {
    hide Replay, TakesRightly, Possible, Does;
    c := new BluetoothConnection(device);
    views := [c.Look()];
    var i := 0;
    assert steps[..0] == [];
    while i < |steps|
      invariant i <= |steps| && c.Valid() && fresh(c) && c.device == device
      invariant History(device, views, steps[..i]) && views[i] == c.Look()
    {
      hide BluetoothConnection.Valid, History;
      if Possible(c.state, c.address, c.linking, c.discovering, c.subscribed, steps[i]) { Take(c, steps[i]); }
      Lengthen(device, views, steps, i, c.Look());
      views := views + [c.Look()];
      i := i + 1;
    }
    assert steps[..i] == steps && Authentic(c.trace);
    forall k | Caches(c.trace, k) ensures TakesRightly(c.trace[..k], c.trace[k], Replay(c.trace[..k]).gathered.value) {
      CachedListIsComplete(c.trace, k);
    }
  }

  // ---- What the steps promise, whatever they are made of ----

  /** A freed slot: nothing is left of the connection, and the notice is in the history. */
  predicate FreedAs(v: View, w: View, reason: int, told: bool) {
    && w.state.Idle? && w.address == 0 && w.cursor == INIT && !w.discovered && !w.linking && !w.discovering
    && w.pendingError == 0 && !w.connectedOwed && w.ack.NoAck?
    && w.trace == v.trace + [SlotFreed(if v.pendingError != 0 then v.pendingError else reason, told)]
  }

  lemma GoneIs(v: View, reason: int, told: bool)
    ensures FreedAs(v, Gone(v, reason, told), reason, told)
  {
  }

  /** A teardown leaves a closing link that is otherwise the same, or a freed slot. */
  predicate TornAs(v: View, w: View, rc: int, told: bool) {
    if v.state.Idle? || v.state.Disconnecting? then w == v
    else if rc == 0 then
      && w.state.Disconnecting? && w.address == v.address && w.cursor == v.cursor && w.discovered == v.discovered
      && w.linking == v.linking && w.discovering == v.discovering && w.pendingError == v.pendingError
      && w.connectedOwed == v.connectedOwed && w.ack == v.ack && w.trace == v.trace && w.full == v.full
    else FreedAs(v, w, rc, told)
  }

  lemma TornDownIs(v: View, rc: int, told: bool)
    ensures TornAs(v, TornDown(v, rc, told), rc, told)
  {
    hide Gone;
    GoneIs(v, rc, told);
  }

  /** ... for an error: the first one latched. */
  predicate FailedAs(v: View, w: View, error: int, rc: int, told: bool) {
    var cause := if v.pendingError == 0 then error else v.pendingError;
    if v.state.Idle? || v.state.Disconnecting? || rc == 0 then
      && w.state == (if v.state.Idle? then Idle else Disconnecting) && w.address == v.address && w.cursor == v.cursor
      && w.discovered == v.discovered && w.linking == v.linking && w.discovering == v.discovering
      && w.pendingError == cause && w.trace == v.trace && w.full == v.full
    else FreedAs(v.(pendingError := cause), w, rc, told)
  }

  lemma FailedIs(v: View, error: int, rc: int, told: bool)
    ensures FailedAs(v, Failed(v, error, rc, told), error, rc, told)
  {
    hide TornDown;
    TornDownIs(if v.pendingError == 0 then v.(pendingError := error) else v, rc, told);
  }

  /** A free slot has nothing going on. */
  predicate FreeIsClean(v: View) {
    && (v.state.Idle? <==> v.address == 0)
    && (v.state.Idle? ==> v.cursor == INIT && !v.discovering && v.pendingError == 0)
  }

  /** The step sends the notice of a freed slot. */
  predicate Freed(v: View, w: View) { |w.trace| == |v.trace| + 1 && w.trace[|v.trace|].SlotFreed? }

  // What each step must do.

  lemma ReservedLaw(device: nat, v: View, w: View)
    requires Does(device, v, Reserved, w)
    ensures w.state.Init? && w.address == device && w.cursor == INIT && !w.connectedOwed && w.ack.NoAck?
    ensures w.trace == v.trace && w.subscribed == v.subscribed
  {
  }

  lemma WantedLaw(device: nat, v: View, s: Step, w: View)
    requires s.Wanted? && Does(device, v, s, w)
    ensures !s.hasType ==> w == v.(trace := w.trace) && (w.trace == v.trace || w.trace == v.trace + [Raised])
    ensures s.hasType && v.state.Init? && s.rc == 0 ==>
      && w.state.Connecting? && w.linking && w.withCache == s.cached && w.address == v.address && w.trace == v.trace
      && w.pendingError == v.pendingError
    ensures s.hasType && v.state.Init? && s.rc != 0 ==> FreedAs(v, w, s.rc, s.told)
    ensures s.hasType && (v.state.Connected? || v.state.Established?) ==>
      w == v.(connectedOwed := v.subscribed && !s.accepted)
    ensures s.hasType && (v.state.Connecting? || v.state.Disconnecting?) ==> w == v
  {
    hide Gone;
    GoneIs(v.(withCache := s.cached), s.rc, s.told);
  }

  lemma LinkUpLaw(device: nat, v: View, s: Step, w: View)
    requires s.LinkReport? && s.connected && v.address != 0 && v.state.Connecting? && Does(device, v, s, w)
    ensures v.withCache ==>
      && w.state.Established? && w.address == v.address && !w.linking && w.full == s.database
      && w.discovered == v.discovered && w.cursor == v.cursor && w.trace == v.trace
      && w.pendingError == v.pendingError && w.connectedOwed == (v.subscribed && !s.accepted)
    ensures !v.withCache && s.rcDiscover == 0 ==>
      && w.state.Connected? && w.address == v.address && !w.linking && w.discovering && w.full == s.database
      && w.trace == v.trace && w.pendingError == v.pendingError
    ensures !v.withCache && s.rcDiscover != 0 ==> FailedAs(
        v.(linking := false, full := s.database, state := Connected), w, s.rcDiscover, s.rcDisconnect, s.told)
  {
    hide Failed;
    FailedIs(v.(linking := false, full := s.database, state := Connected), s.rcDiscover, s.rcDisconnect, s.told);
  }

  lemma LinkDownLaw(device: nat, v: View, s: Step, w: View)
    requires s.LinkReport? && Does(device, v, s, w)
    ensures v.address == 0 ==> w == v
    ensures v.address != 0 && !s.connected ==> FreedAs(v, w, s.error, s.told)
    ensures v.address != 0 && s.connected && !v.state.Connecting? ==>
      if s.rcDisconnect == 0 then w == v.(linking := false) else FreedAs(v, w, s.rcDisconnect, s.told)
  {
    hide Gone, Linked;
    GoneIs(v, s.error, s.told);
    GoneIs(v, s.rcDisconnect, s.told);
  }

  lemma DiscoveryLaw(device: nat, v: View, s: Step, w: View)
    requires s.DiscoveryReport? && Does(device, v, s, w)
    ensures s.error == 0 ==>
      && w.state.Established? && w.address == v.address && w.discovered && !w.discovering
      && w.table == s.found && w.full == Whole(s.found)
      && w.cursor == v.cursor && w.trace == v.trace && w.pendingError == v.pendingError
      && w.connectedOwed == (v.subscribed && !s.accepted)
    ensures s.error != 0 ==> FailedAs(v.(discovering := false), w, s.error, s.rc, s.told)
  {
    hide Failed, Whole;
    FailedIs(v.(discovering := false), s.error, s.rc, s.told);
  }

  lemma DroppedLaw(device: nat, v: View, s: Step, w: View)
    requires s.Dropped? && Does(device, v, s, w)
    ensures TornAs(v, w, s.rc, s.told)
  {
    hide TornDown;
    TornDownIs(v, s.rc, s.told);
  }

  /** A services-done that is offered lands, or is owed with a fresh count. */
  predicate DoneOffered(v: View, w: View, accepted: bool) {
    && w.state == v.state && w.address == v.address && w.pendingError == v.pendingError && w.full == v.full
    && w.linking == v.linking && w.discovering == v.discovering && w.discovered == v.discovered
    && (!v.subscribed ==> w.cursor == DONE && w.trace == v.trace)
    && (v.subscribed && accepted ==> w.cursor == DONE && w.trace == v.trace + [ServicesDone(v.discovered, v.full)])
    && (v.subscribed && !accepted ==> w.trace == v.trace && (w.cursor == PENDING || w.cursor == DONE))
    && (v.subscribed && !accepted && v.cursor != PENDING ==> w.cursor == PENDING && w.doneRetries == 0)
  }

  lemma DoneSentIs(v: View, accepted: bool)
    ensures DoneOffered(v, DoneSent(v, accepted), accepted)
  {
  }

  /** A pass of the loop: nothing to do, the end of the stream, nobody to stream to, an abort, or a batch. */
  lemma PassLaw(device: nat, v: View, s: Step, w: View)
    requires s.Tick? && Does(device, v, s, w)
    ensures v.cursor < 0 ==> w == v
    ensures |v.table.services| <= v.cursor ==> DoneOffered(v, w, s.accepted)
    ensures 0 <= v.cursor < |v.table.services| && !v.subscribed ==>
      && w.cursor == DONE && w.trace == v.trace && w.state == v.state && w.address == v.address
      && w.pendingError == v.pendingError
    ensures 0 <= v.cursor < |v.table.services| && v.subscribed && Aborts(v.table, s.b, v.cursor) ==>
      FailedAs(v.(cursor := DONE), w, UNLIKELY, s.rc, s.told)
    ensures 0 <= v.cursor < |v.table.services| && v.subscribed && !Aborts(v.table, s.b, v.cursor) ==>
      if s.accepted then
        && Cut(v.table, s.b, v.cursor, w.cursor) && w.cursor <= |v.full|
        && w == v.(cursor := w.cursor, trace := v.trace + [Batch(v.full[v.cursor..w.cursor])])
      else w == v
  {
    hide DoneSent, Failed, Aborts, Cut;
    DoneSentIs(v.(table := Gatt.EMPTY_TABLE), s.accepted);
    FailedIs(v.(cursor := DONE), UNLIKELY, s.rc, s.told);
  }

  lemma AckLaw(device: nat, v: View, s: Step, w: View)
    requires s.Reply? && Does(device, v, s, w)
    ensures if v.subscribed && !s.accepted then w == v.(ack := s.a, ackRetries := 0) else w == v
  {
  }

  /** The slot's link and its errors are not touched. */
  predicate SameLink(v: View, w: View) {
    && w.state == v.state && w.address == v.address && w.pendingError == v.pendingError && w.full == v.full
    && w.linking == v.linking && w.discovering == v.discovering && w.discovered == v.discovered
    && w.subscribed == v.subscribed
  }

  /** Nothing overtakes a connected reply that is still owed; once it has landed, the others are offered. */
  lemma ConnectedFirst(device: nat, v: View, s: Step, w: View)
    requires v.subscribed && s.Drain? && Does(device, v, s, w)
    ensures SameLink(v, w) && w.connectedOwed == (v.connectedOwed && !s.offer.connected)
    ensures w.connectedOwed ==> w.trace == v.trace
    ensures !w.connectedOwed && v.cursor == PENDING && s.offer.done ==>
      w.cursor == DONE && w.trace == v.trace + [ServicesDone(v.discovered, v.full)]
    ensures !w.connectedOwed && s.offer.ack ==> w.ack.NoAck?
    ensures w.ack == v.ack || w.ack.NoAck?
    ensures v.cursor != PENDING ==> w.cursor == v.cursor && w.trace == v.trace
    ensures w.trace == v.trace || w.trace == v.trace + [ServicesDone(v.discovered, v.full)]
  {
    hide ConnectedSent, DoneSent, DoneAged, AckAged, AckOffered, SameLink;
    var c := if v.connectedOwed then ConnectedSent(v, s.offer.connected) else v;
    ConnectedIs(v, s.offer.connected);
    var d := if c.cursor != PENDING then c else if c.connectedOwed then DoneAged(c) else DoneSent(c, s.offer.done);
    DoneIs(c, s.offer.done);
    AckIs(d, s.offer.ack);
    assert w == if c.connectedOwed then (if d.ack.Ack? then AckAged(d) else d) else AckOffered(d, s.offer.ack);
    hide Does, Flushed;
    SameLinkTrans(v, c, d);
    SameLinkTrans(v, d, w);
  }

  lemma SameLinkTrans(a: View, b: View, c: View)
    ensures SameLink(a, a)
    ensures SameLink(a, b) && SameLink(b, c) ==> SameLink(a, c)
    ensures SameLink(a, b) ==> a.full == b.full && a.discovered == b.discovered && a.subscribed == b.subscribed
  {
  }

  lemma ConnectedIs(v: View, accepted: bool)
    ensures var c := ConnectedSent(v, accepted);
      && SameLink(v, c) && SameLink(v, v) && c.connectedOwed == (v.subscribed && !accepted)
      && c.cursor == v.cursor && c.trace == v.trace && c.ack == v.ack
  {
  }

  lemma DoneIs(v: View, accepted: bool)
    requires v.subscribed
    ensures SameLink(v, v)
    ensures var d := DoneAged(v);
      && SameLink(v, d) && d.trace == v.trace && d.ack == v.ack && d.connectedOwed == v.connectedOwed
    ensures var d := DoneSent(v, accepted);
      && SameLink(v, d) && d.ack == v.ack && d.connectedOwed == v.connectedOwed
      && d.trace == (if accepted then v.trace + [ServicesDone(v.discovered, v.full)] else v.trace)
      && (accepted ==> d.cursor == DONE)
  {
  }

  lemma AckIs(v: View, accepted: bool)
    ensures SameLink(v, v)
    ensures var a := AckAged(v);
      && SameLink(v, a) && a.trace == v.trace && a.connectedOwed == v.connectedOwed && a.cursor == v.cursor
      && (a.ack == v.ack || a.ack.NoAck?)
    ensures var a := AckOffered(v, accepted);
      && SameLink(v, a) && a.trace == v.trace && a.connectedOwed == v.connectedOwed && a.cursor == v.cursor
      && (a.ack == v.ack || a.ack.NoAck?) && (accepted ==> a.ack.NoAck?)
  {
  }

  /** A new request makes an owed error for its handle, and an owed ack of its kind for it, stale, and no other. */
  lemma StaleAckDropped(device: nat, v: View, s: Step, w: View)
    requires CanTake(v, s) && Does(device, v, s, w) && s.Superseded?
    ensures w.ack == v.ack || w.ack.NoAck?
    ensures v.ack.Ack? ==>
      (w.ack.NoAck? <==> v.ack.handle == s.handle && (v.ack.kind.ErrorAck? || Some(v.ack.kind) == s.kind))
    ensures w == v.(ack := w.ack)
  {
  }

  /** A new subscriber finds nothing of the old one's, on a connection that goes on. */
  lemma SessionStartsClean(device: nat, v: View, s: Step, w: View)
    requires CanTake(v, s) && Does(device, v, s, w) && s.NewSession?
    ensures DebtsOf(w) == Debts(false, None, None) && w.cursor < 0 && Replay(w.trace) == IDLE_CLIENT
    ensures w.subscribed == s.another && (v.cursor == INIT || v.cursor == DONE ==> w.cursor == v.cursor)
    ensures w == v.(cursor := w.cursor, table := w.table, connectedOwed := false, ack := NoAck,
                    subscribed := w.subscribed, trace := v.trace + [Session])
  {
    hide Outlived, Asked;
    Append(v.trace, Session);
  }

  /** A rejected GetServices changes nothing but what the subscriber may think. */
  lemma RejectedLeavesAlone(device: nat, v: View, s: Step, w: View)
    requires CanTake(v, s) && Does(device, v, s, w) && s.ServicesAsked? && !v.state.Established?
    ensures w == v.(trace := w.trace) && (!s.own ==> w == v)
    ensures s.own && s.accepted ==> w.trace == v.trace + [Raised]
  {
  }

  /** When nothing was discovered, a GetServices is answered by a services-done at once. */
  lemma AnsweredAtOnce(device: nat, v: View, s: Step, w: View)
    requires Does(device, v, s, w) && s.ServicesAsked? && v.state.Established? && !v.discovered
    ensures DoneOffered(v.(trace := v.trace + [if s.own then Request else OtherRequest]), w, s.accepted)
  {
    hide DoneSent;
    DoneSentIs(v.(trace := v.trace + [if s.own then Request else OtherRequest]), s.accepted);
  }

  /** Every GetServices restarts a stream that is under way, or starts one that has not been, and nothing else. */
  lemma RestartsStream(device: nat, v: View, s: Step, w: View)
    requires Does(device, v, s, w) && s.ServicesAsked? && v.state.Established? && v.discovered
    ensures v.cursor == INIT || v.cursor >= 0 ==>
      w == v.(cursor := 0, trace := v.trace + [if s.own then Request else OtherRequest])
    ensures v.cursor == PENDING || v.cursor == DONE ==>
      w == v.(cursor := DONE, trace := if s.own then v.trace + [Request] else v.trace)
  {
  }

  /** Nothing of a stream is sent or restarted. */
  predicate StaysOver(v: View, w: View) {
    && ((w.state.Idle? && Freed(v, w)) || w.cursor == DONE)
    && (forall k :: |v.trace| <= k < |w.trace| ==>
          !w.trace[k].Batch? && !w.trace[k].ServicesDone? && !w.trace[k].OtherRequest?)
  }

  /** Once the stream of a connection is over, no step but a new connection's sends anything of it. */
  lemma OverStaysOver(device: nat, v: View, s: Step, w: View)
    requires CanTake(v, s) && Does(device, v, s, w) && v.discovered && v.cursor == DONE
    requires v.state.Established? || v.state.Disconnecting?
    requires !s.DiscoveryReport?
    ensures StaysOver(v, w)
  {
    hide Does, CanTake, StaysOver;
    match s
    case Wanted(_, _, _, _, _) => WantedStaysOver(device, v, s, w);
    case Dropped(_, _) => DroppedStaysOver(device, v, s, w);
    case LinkReport(_, _, _, _, _, _, _) => LinkStaysOver(device, v, s, w);
    case ServicesAsked(_, _) => AskedStaysOver(device, v, s, w);
    case Tick(_, _, _, _) => PassStaysOver(device, v, s, w);
    case Drain(_) => DrainStaysOver(device, v, s, w);
    case NewSession(_) => SessionStaysOver(device, v, s, w);
    case _ => QuietStaysOver(device, v, s, w);
  }

  lemma WantedStaysOver(device: nat, v: View, s: Step, w: View)
    requires CanTake(v, s) && Does(device, v, s, w) && v.discovered && v.cursor == DONE && s.Wanted?
    requires v.state.Established? || v.state.Disconnecting?
    ensures StaysOver(v, w)
  {
    WantedLaw(device, v, s, w);
    hide Does, CanTake;
  }

  lemma DroppedStaysOver(device: nat, v: View, s: Step, w: View)
    requires CanTake(v, s) && Does(device, v, s, w) && v.discovered && v.cursor == DONE && s.Dropped?
    requires v.state.Established? || v.state.Disconnecting?
    ensures StaysOver(v, w)
  {
    DroppedLaw(device, v, s, w);
    hide Does, CanTake;
  }

  lemma LinkStaysOver(device: nat, v: View, s: Step, w: View)
    requires CanTake(v, s) && Does(device, v, s, w) && v.discovered && v.cursor == DONE && s.LinkReport?
    requires v.state.Established? || v.state.Disconnecting?
    ensures StaysOver(v, w)
  {
    LinkDownLaw(device, v, s, w);
    hide Does, CanTake;
  }

  lemma AskedStaysOver(device: nat, v: View, s: Step, w: View)
    requires CanTake(v, s) && Does(device, v, s, w) && v.discovered && v.cursor == DONE && s.ServicesAsked?
    requires v.state.Established? || v.state.Disconnecting?
    ensures StaysOver(v, w)
  {
    if v.state.Established? { RestartsStream(device, v, s, w); } else { RejectedLeavesAlone(device, v, s, w); }
    hide Does, CanTake;
  }

  lemma PassStaysOver(device: nat, v: View, s: Step, w: View)
    requires CanTake(v, s) && Does(device, v, s, w) && v.discovered && v.cursor == DONE && s.Tick?
    requires v.state.Established? || v.state.Disconnecting?
    ensures StaysOver(v, w)
  {
    PassLaw(device, v, s, w);
    hide Does, CanTake;
  }

  lemma DrainStaysOver(device: nat, v: View, s: Step, w: View)
    requires CanTake(v, s) && Does(device, v, s, w) && v.discovered && v.cursor == DONE && s.Drain?
    requires v.state.Established? || v.state.Disconnecting?
    ensures StaysOver(v, w)
  {
    ConnectedFirst(device, v, s, w);
    hide Does, CanTake;
  }

  lemma SessionStaysOver(device: nat, v: View, s: Step, w: View)
    requires CanTake(v, s) && Does(device, v, s, w) && v.discovered && v.cursor == DONE && s.NewSession?
    requires v.state.Established? || v.state.Disconnecting?
    ensures StaysOver(v, w)
  {
    SessionStartsClean(device, v, s, w);
    hide Does, CanTake;
  }

  lemma QuietStaysOver(device: nat, v: View, s: Step, w: View)
    requires CanTake(v, s) && Does(device, v, s, w) && v.cursor == DONE && !v.state.Idle?
    requires s.Reserved? || s.Reply? || s.Superseded? || s.RequestEnds?
    ensures StaysOver(v, w)
  {
    if s.Reserved? { assert false; }
  }

  // ---- The cause of a teardown ----

  /** The error a step tells of the device's connection. */
  ghost function ErrorTold(v: View, s: Step): int {
    match s
    case LinkReport(connected, _, rcDiscover, _, _, _, _) =>
      if connected && v.address != 0 && v.state.Connecting? && !v.withCache then rcDiscover else 0
    case DiscoveryReport(error, _, _, _, _) => error
    case Tick(b, _, _, _) =>
      if 0 <= v.cursor < |v.table.services| && v.subscribed && Aborts(v.table, b, v.cursor) then UNLIKELY else 0
    case _ => 0
  }

  /** The first error told since the slot was taken, by state `t` of a run. */
  ghost function FirstError(views: seq<View>, steps: seq<Step>, t: nat): int
    requires t < |views| == |steps| + 1
  {
    if t == 0 || views[t].state.Idle? then 0
    else
      var e := FirstError(views, steps, t - 1);
      if e != 0 || !CanTake(views[t - 1], steps[t - 1]) then e else ErrorTold(views[t - 1], steps[t - 1])
  }

  /** What the notice of a freed slot gives if no error was told: the reason the step itself has. */
  function OwnReason(s: Step): int {
    match s
    case Wanted(_, _, rc, _, _) => rc
    case Dropped(rc, _) => rc
    case LinkReport(connected, error, _, rcDisconnect, _, _, _) => if connected then rcDisconnect else error
    case DiscoveryReport(_, _, rc, _, _) => rc
    case Tick(_, _, rc, _) => rc
    case _ => 0
  }

  /** What a step does to the latched error, and what a freed slot reports. */
  ghost predicate Caused(v: View, s: Step, w: View) {
    var e := if v.pendingError != 0 then v.pendingError else ErrorTold(v, s);
    && (!w.state.Idle? ==> w.pendingError == e)
    && (Freed(v, w) ==> w.trace[|v.trace|].reason == if e != 0 then e else OwnReason(s))
  }

  /** How a slot gets into each state. */
  predicate Entered(v: View, s: Step, w: View) {
    w.state != v.state ==>
      && (w.state.Idle? <==> Freed(v, w))
      && (w.state.Init? <==> s.Reserved?)
      && (w.state.Connecting? <==> s.Wanted? && s.hasType && v.state.Init? && s.rc == 0)
      && (w.state.Connected? <==>
            s.LinkReport? && s.connected && v.state.Connecting? && !v.withCache && s.rcDiscover == 0)
      && (w.state.Established? <==>
            || (s.LinkReport? && s.connected && v.state.Connecting? && v.withCache)
            || (s.DiscoveryReport? && s.error == 0))
      && (w.state.Disconnecting? ==>
            || (s.Dropped? && s.rc == 0) || (s.DiscoveryReport? && s.error != 0 && s.rc == 0) || (s.Tick? && s.rc == 0)
            || (s.LinkReport? && s.connected && s.rcDiscover != 0 && s.rcDisconnect == 0))
  }

  ghost predicate Lawful(v: View, s: Step, w: View) {
    && FreeIsClean(w) && Caused(v, s, w) && Entered(v, s, w)
    && (Freed(v, w) ==> w.state.Idle? && !v.state.Idle?)
  }

  lemma ReservedLawful(device: nat, v: View, s: Step, w: View)
    requires device != 0 && FreeIsClean(v) && CanTake(v, s) && s.Reserved? && Does(device, v, s, w)
    ensures Lawful(v, s, w)
  {
  }

  lemma WantedLawful(device: nat, v: View, s: Step, w: View)
    requires FreeIsClean(v) && CanTake(v, s) && s.Wanted? && Does(device, v, s, w)
    ensures Lawful(v, s, w)
  {
    WantedLaw(device, v, s, w);
    hide Does;
  }

  lemma DroppedLawful(device: nat, v: View, s: Step, w: View)
    requires FreeIsClean(v) && CanTake(v, s) && s.Dropped? && Does(device, v, s, w)
    ensures Lawful(v, s, w)
  {
    DroppedLaw(device, v, s, w);
    hide Does;
  }

  lemma LinkUpLawful(device: nat, v: View, s: Step, w: View)
    requires FreeIsClean(v) && CanTake(v, s) && s.LinkReport? && Does(device, v, s, w)
    requires s.connected && v.address != 0 && v.state.Connecting?
    ensures Lawful(v, s, w)
  {
    LinkUpLaw(device, v, s, w);
    hide Does;
  }

  lemma LinkDownLawful(device: nat, v: View, s: Step, w: View)
    requires FreeIsClean(v) && CanTake(v, s) && s.LinkReport? && Does(device, v, s, w)
    requires !(s.connected && v.address != 0 && v.state.Connecting?)
    ensures Lawful(v, s, w)
  {
    LinkDownLaw(device, v, s, w);
    hide Does;
  }

  lemma DiscoveryLawful(device: nat, v: View, s: Step, w: View)
    requires FreeIsClean(v) && CanTake(v, s) && s.DiscoveryReport? && Does(device, v, s, w)
    ensures Lawful(v, s, w)
  {
    hide Whole;
    DiscoveryLaw(device, v, s, w);
    hide Does;
  }

  lemma AskedLawful(device: nat, v: View, s: Step, w: View)
    requires FreeIsClean(v) && CanTake(v, s) && s.ServicesAsked? && Does(device, v, s, w)
    ensures Lawful(v, s, w)
  {
    if !v.state.Established? {
      RejectedLeavesAlone(device, v, s, w);
    } else if v.discovered {
      RestartsStream(device, v, s, w);
    } else {
      AnsweredAtOnce(device, v, s, w);
    }
    hide Does;
  }

  lemma PassLawful(device: nat, v: View, s: Step, w: View)
    requires FreeIsClean(v) && CanTake(v, s) && s.Tick? && Does(device, v, s, w)
    ensures Lawful(v, s, w)
  {
    hide Aborts, Cut;
    PassLaw(device, v, s, w);
    hide Does;
  }

  lemma DrainLawful(device: nat, v: View, s: Step, w: View)
    requires FreeIsClean(v) && CanTake(v, s) && s.Drain? && Does(device, v, s, w)
    ensures Lawful(v, s, w)
  {
    ConnectedFirst(device, v, s, w);
    hide Does;
  }

  lemma OtherLawful(device: nat, v: View, s: Step, w: View)
    requires FreeIsClean(v) && CanTake(v, s) && Does(device, v, s, w)
    requires s.Reply? || s.Superseded? || s.NewSession? || s.RequestEnds?
    ensures Lawful(v, s, w)
  {
    QuietLaw(device, v, s, w);
    hide Does;
  }

  lemma QuietLaw(device: nat, v: View, s: Step, w: View)
    requires CanTake(v, s) && Does(device, v, s, w)
    requires s.Reply? || s.Superseded? || s.NewSession? || s.RequestEnds?
    ensures w.state == v.state && w.address == v.address && w.pendingError == v.pendingError
    ensures w.discovering == v.discovering && (v.cursor == INIT ==> w.cursor == INIT)
    ensures w.trace == v.trace || (|w.trace| == |v.trace| + 1 && !w.trace[|v.trace|].SlotFreed?)
  {
    hide Asked;
  }

  /** The laws of every step. */
  lemma StepIsLawful(device: nat, v: View, s: Step, w: View)
    requires device != 0 && FreeIsClean(v) && CanTake(v, s) && Does(device, v, s, w)
    ensures Lawful(v, s, w)
  {
    hide Does, Lawful, FreeIsClean;
    match s
    case Reserved => ReservedLawful(device, v, s, w);
    case Wanted(_, _, _, _, _) => WantedLawful(device, v, s, w);
    case Dropped(_, _) => DroppedLawful(device, v, s, w);
    case LinkReport(connected, _, _, _, _, _, _) =>
      if connected && v.address != 0 && v.state.Connecting? {
        LinkUpLawful(device, v, s, w);
      } else {
        LinkDownLawful(device, v, s, w);
      }
    case DiscoveryReport(_, _, _, _, _) => DiscoveryLawful(device, v, s, w);
    case ServicesAsked(_, _) => AskedLawful(device, v, s, w);
    case Tick(_, _, _, _) => PassLawful(device, v, s, w);
    case Drain(_) => DrainLawful(device, v, s, w);
    case _ => OtherLawful(device, v, s, w);
  }

  /** The error latched is the first one told; every step of every run is lawful. */
  lemma {:induction false} FirstErrorLatched(device: nat, views: seq<View>, steps: seq<Step>, t: nat)
    requires device != 0 && History(device, views, steps) && t <= |steps|
    ensures FreeIsClean(views[t]) && views[t].pendingError == FirstError(views, steps, t)
    ensures t < |steps| && CanTake(views[t], steps[t]) ==> Lawful(views[t], steps[t], views[t + 1])
  {
    hide Does, ErrorTold, Freed, Entered;
    if t > 0 { FirstErrorLatched(device, views, steps, t - 1); }
    if t < |steps| {
      assert Follows(device, views[t], steps[t], views[t + 1]);
      if CanTake(views[t], steps[t]) { StepIsLawful(device, views[t], steps[t], views[t + 1]); }
    }
  }

  /**
   * On every run, a slot enters each state as `Entered` says, is freed exactly with its notice, and the notice gives
   * the first error since the slot was taken, if there was one.
   */
  lemma FirstErrorIsReported(device: nat, views: seq<View>, steps: seq<Step>, t: nat)
    requires device != 0 && History(device, views, steps) && t < |steps| && CanTake(views[t], steps[t])
    ensures var v, s, w := views[t], steps[t], views[t + 1];
      && Entered(v, s, w) && (Freed(v, w) <==> w.state.Idle? && !v.state.Idle?)
      && (Freed(v, w) ==>
            var first := FirstError(views, steps, t);
            var e := if first != 0 then first else ErrorTold(v, s);
            w.trace[|v.trace|].reason == if e != 0 then e else OwnReason(s))
  {
    hide Does, ErrorTold;
    FirstErrorLatched(device, views, steps, t);
  }

  // ---- An undisturbed stream gets through ----

  /**
   * How far a stream has come: the subscriber has everything before the cursor, after as many services as accepted
   * frames.
   */
  ghost predicate Reached(c: BluetoothConnection, frames: nat) reads c {
    && c.Valid() && c.subscribed && c.discovered && c.full == Whole(c.table) && 0 <= c.cursor <= |c.full|
    && Replay(c.trace) == Client(Some(c.full[..c.cursor]), [], 0) && (frames <= c.cursor || c.cursor == |c.full|)
  }

  lemma ReplayBatch(trace: seq<Event>, full: seq<WireSvc>, from: nat, to: nat)
    requires from <= to <= |full| && Replay(trace) == Client(Some(full[..from]), [], 0)
    ensures Replay(trace + [Batch(full[from..to])]) == Client(Some(full[..to]), [], 0)
  {
    hide Replay, Outlived, Asked;
    Append(trace, Batch(full[from..to]));
    assert full[..from] + full[from..to] == full[..to];
  }

  lemma NeverAborts(t: Gatt.Table, b: Budget, start: nat)
    requires Streamable(t)
    ensures !Aborts(t, b, start)
  {
    hide Packable, Reaches;
  }

  /** A pass inside a stream that does not abort is one tick of it. */
  lemma PassIsTick(v: View, b: Budget, accepted: bool, rc: int, told: bool, w: View)
    requires Streams(v, b, accepted, rc, told, w) && 0 <= v.cursor < |v.table.services| && v.subscribed
    requires !Aborts(v.table, b, v.cursor) && v.full == Whole(v.table)
    ensures w.cursor >= v.cursor
    ensures Ticks(v.table, b, Progress(v.cursor, v.full[..v.cursor]), accepted, Progress(w.cursor, v.full[..w.cursor]))
  {
    hide Whole, Cut, Aborts;
    if accepted { assert v.full[..v.cursor] + v.full[v.cursor..w.cursor] == v.full[..w.cursor]; }
  }

  /**
   * One pass over an undisturbed stream: refused it stays where it is, accepted it comes at least one service
   * further.
   */
  method StreamOnce(c: BluetoothConnection, b: Budget, accepted: bool, ghost frames: nat)
    requires Reached(c, frames) && Streamable(c.table) && c.cursor < |c.table.services|
    modifies c
    ensures Reached(c, if accepted then frames + 1 else frames) && c.table == old(c.table) && c.full == old(c.full)
    ensures !accepted ==> c.cursor == old(c.cursor) && c.trace == old(c.trace)
  {
    hide Packable, Whole, BluetoothConnection.Valid, Replay, Authentic, Streamable, Weight, Estimate, Aborts;
    ghost var start, before := c.cursor, c.trace;
    NeverAborts(c.table, b, start);
    c.ProcessPendingServices(b, accepted, 0, true);
    if accepted { ReplayBatch(before, c.full, start, c.cursor); }
  }

  /**
   * A stream left to itself gets through: whatever frames are refused in between, once as many were accepted as there
   * are services the subscriber has the whole database, and the next pass offers services-done.
   */
  method StreamAll(c: BluetoothConnection, b: Budget, accepted: seq<bool>)
    requires Reached(c, 0) && Streamable(c.table)
    modifies c
    ensures c.Valid() && c.full == old(c.full) && c.table == old(c.table) && c.subscribed && c.discovered
    ensures Accepted(accepted) >= |c.full| ==> c.cursor == |c.full| && Replay(c.trace) == Client(Some(c.full), [], 0)
  {
    hide Replay, Whole, Streamable, BluetoothConnection.Valid;
    var i := 0;
    while i < |accepted| && c.cursor < |c.table.services|
      invariant i <= |accepted| && Reached(c, Accepted(accepted[..i])) && Streamable(c.table)
      invariant c.full == old(c.full) && c.table == old(c.table)
    {
      assert accepted[..i + 1][..i] == accepted[..i];
      StreamOnce(c, b, accepted[i], Accepted(accepted[..i]));
      i := i + 1;
    }
    assert accepted[..|accepted|] == accepted && c.full[..|c.full|] == c.full;
  }

  // ---- Runs that break the rule ----

  /** Two services that one frame cannot hold together go out one at a time. */
  lemma TooBigTogether(t: Gatt.Table, b: Budget, start: nat, end: nat)
    requires |t.services| == 2 && b.header + Weight(b.size, Whole(t)[0..2]) > MAX_PACKET_SIZE && Cut(t, b, start, end)
    ensures end == start + 1
  {
  }

  /** A connection that has just been discovered, its services requested by the subscriber. */
  method Requested(t: Gatt.Table) returns (c: BluetoothConnection)
    requires |t.services| <= MAX_CURSOR
    ensures fresh(c) && c.Valid() && c.trace == [Session, Request] && c.cursor == 0 && c.state.Established?
    ensures c.subscribed && c.discovered && c.table == t && c.full == Whole(t)
    ensures c.address != 0 && c.pendingError == 0
    ensures Replay(c.trace) == Client(Some([]), [], 0)
  {
    hide Packable, Whole, Cut, BluetoothConnection.Valid, Authentic, Outlived;
    c := new BluetoothConnection(1);
    c.EndSession(true);
    c.Reserve();
    c.InitiateConnection(false, 0, true);
    c.OnConnectionState(true, 0, 0, 0, true, true, Whole(t));
    c.OnServiceDiscoveryDone(0, t, 0, true, true);
    var rejected := c.GetServices(true, true);
    assert c.trace[..1] == [Session];
  }

  /** One accepted frame of two services that do not fit together. */
  method OneBatch(c: BluetoothConnection, b: Budget)
    requires c.Valid() && c.subscribed && c.discovered && Streamable(c.table)
    requires 0 <= c.cursor < |c.table.services| == 2 && c.full == Whole(c.table)
    requires b.header + Weight(b.size, Whole(c.table)[0..2]) > MAX_PACKET_SIZE
    modifies c
    ensures c.Valid()
    ensures var v, next := old(c.Look()), old(c.cursor) + 1;
      c.Look() == v.(cursor := next, trace := v.trace + [Batch(v.full[old(c.cursor)..next])])
    ensures Replay(c.trace) == Observe(Replay(old(c.trace)), Batch(c.full[old(c.cursor)..c.cursor]))
  {
    hide Packable, Whole, Cut, BluetoothConnection.Valid, Replay, Authentic, Streamable, Aborts, Outlived, Asked;
    ghost var start, before := c.cursor, c.trace;
    NeverAborts(c.table, b, start);
    c.ProcessPendingServices(b, true, 0, true);
    TooBigTogether(c.table, b, start, c.cursor);
    Append(before, Batch(c.full[start..c.cursor]));
  }

  /** The next pass behind the last service sends services-done, which the open request takes. */
  method LastPass(c: BluetoothConnection, b: Budget) returns (ghost k: int)
    requires c.Valid() && c.subscribed && c.discovered && c.cursor == |c.table.services|
    requires Replay(c.trace).gathered.Some?
    modifies c
    ensures c.Valid() && k == |old(c.trace)| && Caches(c.trace, k) && c.trace[..k] == old(c.trace)
    ensures c.trace[k] == ServicesDone(true, c.full) && c.full == old(c.full)
  {
    hide BluetoothConnection.Valid, Replay, Authentic, Outlived, Asked;
    k := |c.trace|;
    ghost var before := c.trace;
    c.ProcessPendingServices(b, true, 0, true);
    assert c.trace[..k] == before;
  }

  // ---- A request is answered ----

  /** The subscriber's own GetServices starts the stream over, wherever it stands, with an empty client. */
  method OwnRequestStreams(c: BluetoothConnection, accepted: bool)
    requires c.Valid() && c.subscribed && c.state.Established? && c.discovered && (c.cursor == INIT || c.cursor >= 0)
    modifies c
    ensures c.Valid() && c.cursor == 0 && c.full == Whole(c.table) && Replay(c.trace) == Client(Some([]), [], 0)
    ensures c.subscribed && c.discovered && c.table == old(c.table) && c.full == old(c.full)
  {
    ghost var before := c.trace;
    Append(before, Request);
    hide Replay, Authentic, Whole, Outlived, Asked;
    var rejected := c.GetServices(true, accepted);
  }

  /**
   * ... and is answered with the complete database: once as many frames were accepted as there are services, the next
   * accepted one is the services-done that closes the request.
   */
  method RequestIsAnswered(c: BluetoothConnection, b: Budget, accepted: seq<bool>) returns (ghost k: int)
    requires c.Valid() && c.subscribed && c.state.Established? && c.discovered && (c.cursor == INIT || c.cursor >= 0)
    requires Streamable(c.table) && Accepted(accepted) >= |c.table.services|
    modifies c
    ensures c.Valid() && Caches(c.trace, k) && c.trace[k] == ServicesDone(true, old(c.full))
    ensures Replay(c.trace[..k]).gathered == Some(old(c.full)) && old(c.full) == Whole(old(c.table))
  {
    hide Replay, Authentic, Streamable, BluetoothConnection.Valid, Outlived, Asked;
    OwnRequestStreams(c, true);
    assert c.full[..0] == [];
    StreamAll(c, b, accepted);
    k := LastPass(c, b);
  }

  /** Another API client's GetServices restarts the stream. */
  method OtherAsks(c: BluetoothConnection)
    requires c.Valid() && c.state.Established? && c.discovered && c.cursor > 0
    modifies c
    ensures c.Valid() && var v := old(c.Look()); c.Look() == v.(cursor := 0, trace := v.trace + [OtherRequest])
    ensures Replay(c.trace) == Restarted(Replay(old(c.trace)))
  {
    hide BluetoothConnection.Valid, Replay, Authentic, Outlived, Asked;
    Append(c.trace, OtherRequest);
    var rejected := c.GetServices(false, true);
  }

  lemma Twice(w: seq<WireSvc>)
    requires |w| == 2
    ensures [] + w[0..1] == w[..1] && w[..1] + w[0..1] + w[1..2] == w[..1] + w
  {
  }

  /** Another API client's GetServices arrives mid-stream, and the subscriber takes the first service twice. */
  method OtherClientMidStream(t: Gatt.Table, b: Budget) returns (c: BluetoothConnection, ghost k: int)
    requires |t.services| == 2 && Streamable(t) && b.header + Weight(b.size, Whole(t)[0..2]) > MAX_PACKET_SIZE
    ensures c.Valid() && Caches(c.trace, k) && c.trace[k] == ServicesDone(true, Whole(t))
    ensures Replay(c.trace[..k]).gathered == Some(Whole(t)[..1] + Whole(t))
  {
    hide Packable, Whole, Cut, BluetoothConnection.Valid, Replay, Authentic, Streamable, Outlived, Asked;
    c := Requested(t);
    OneBatch(c, b);
    ghost var w := Whole(t);
    OtherAsks(c);
    OneBatch(c, b);
    OneBatch(c, b);
    Twice(w);
    k := LastPass(c, b);
  }

  /**
   * A run on a connection opened with cached services, with no other client and no stream: the subscriber's own
   * GetServices is answered with services-done at once, and it takes an empty list, whatever the device has.
   */
  method CachedConnectionTakesNothing(ghost database: seq<WireSvc>) returns (c: BluetoothConnection, ghost k: int)
    ensures c.Valid() && Caches(c.trace, k) && c.trace[k] == ServicesDone(false, database)
    ensures Replay(c.trace[..k]).gathered == Some([])
    ensures forall j :: 0 <= j < k ==> !c.trace[j].OtherRequest? && !c.trace[j].Batch?
  {
    hide Whole, BluetoothConnection.Valid, Authentic, Outlived;
    c := new BluetoothConnection(1);
    c.EndSession(true);
    Cached(c, database);
    var rejected := c.GetServices(true, true);
    k := 2;
    assert c.trace[..2][..1] == c.trace[..1];
  }

  /** The device is connected with cached services. */
  method Cached(c: BluetoothConnection, ghost database: seq<WireSvc>)
    requires c.Valid() && c.state.Idle?
    modifies c
    ensures c.Valid() && c.state.Established? && !c.discovered && c.full == database && c.trace == old(c.trace)
    ensures c.subscribed == old(c.subscribed)
  {
    hide Whole, BluetoothConnection.Valid, Authentic, Outlived, Replay, Asked;
    c.FreeHoldsNothing();
    c.Reserve();
    c.InitiateConnection(true, 0, true);
    c.OnConnectionState(true, 0, 0, 0, true, true, database);
  }

  /**
   * The connection ends mid-stream and the subscriber is not told. Another API client connects the device again, with
   * cached services, and asks for them: the subscriber takes the part it had gathered.
   */
  method UntoldEndMidStream(t: Gatt.Table, b: Budget) returns (c: BluetoothConnection, ghost k: int)
    requires |t.services| == 2 && Streamable(t) && b.header + Weight(b.size, Whole(t)[0..2]) > MAX_PACKET_SIZE
    ensures c.Valid() && Caches(c.trace, k) && c.trace[k] == ServicesDone(false, Whole(t))
    ensures Replay(c.trace[..k]).gathered == Some(Whole(t)[..1])
  {
    hide Packable, Whole, Cut, BluetoothConnection.Valid, Replay, Authentic, Streamable, Outlived, Asked;
    c := Requested(t);
    OneBatch(c, b);
    ghost var w, before := Whole(t), c.trace;
    assert [] + w[0..1] == w[..1];
    EndUntold(c);
    before := c.trace;
    Cached(c, w);
    var rejected := c.GetServices(false, true);
    Append(before, OtherRequest);
    k := |before| + 1;
    assert c.trace[..k] == before + [OtherRequest];
  }

  /** The link drops, and the notice of it is refused. */
  method EndUntold(c: BluetoothConnection)
    requires c.Valid() && c.address != 0
    modifies c
    ensures c.Valid() && c.state.Idle? && c.subscribed == old(c.subscribed)
    ensures Replay(c.trace) == Restarted(Replay(old(c.trace)))
  {
    hide BluetoothConnection.Valid, Replay, Authentic, Outlived, Asked;
    Append(c.trace, SlotFreed(if c.pendingError != 0 then c.pendingError else 0, false));
    c.OnConnectionState(false, 0, 0, 0, true, false, []);
  }

  /**
   * A teardown is under way mid-stream, and the error frame that rejects the subscriber's next request is refused: the
   * stream runs on, and the request takes what was left of it.
   */
  method UnheardRejection(t: Gatt.Table, b: Budget) returns (c: BluetoothConnection, ghost k: int)
    requires |t.services| == 2 && Streamable(t) && b.header + Weight(b.size, Whole(t)[0..2]) > MAX_PACKET_SIZE
    ensures c.Valid() && Caches(c.trace, k) && c.trace[k] == ServicesDone(true, Whole(t))
    ensures Replay(c.trace[..k]).gathered == Some(Whole(t)[1..])
  {
    hide Packable, Whole, Cut, BluetoothConnection.Valid, Replay, Authentic, Streamable, Outlived, Asked;
    c := Requested(t);
    OneBatch(c, b);
    c.DisconnectRequest(0, true);
    ghost var w, before := Whole(t), c.trace;
    var rejected := c.GetServices(true, false);
    Append(before, Unheard(1));
    OneBatch(c, b);
    assert [] + w[1..2] == w[1..];
    k := LastPass(c, b);
  }
}
