/**
 * The proxy's slot accounting and the replies it owes by address (components/bluetooth_proxy). Which frames the API
 * accepts is an argument.
 */
module Proxy {

  // ---- One owed reply in a 64-bit word: the address in the low 48 bits, a signed 16-bit error above ----

  const ADDRESSES := 0x1_0000_0000_0000
  const ERRORS := 0x1_0000

  function PackReply(address: nat, error: int): nat { address % ADDRESSES + (error % ERRORS) * ADDRESSES }

  function AddressOf(word: nat): nat { word % ADDRESSES }

  function ErrorOf(word: nat): int {
    var high := word / ADDRESSES % ERRORS;
    if high < ERRORS / 2 then high else high - ERRORS
  }

  predicate Matches(word: nat, address: nat) { AddressOf(word) == address % ADDRESSES }

  predicate IsError(error: int) { -0x8000 <= error < 0x8000 }

  predicate IsAddress(address: nat) { 0 < address < ADDRESSES }

  lemma PackParts(address: nat, error: int)
    ensures var w := PackReply(address, error);
      w < 0x1_0000_0000_0000_0000 && w % ADDRESSES == address % ADDRESSES && w / ADDRESSES == error % ERRORS
  {
    var low, high := address % ADDRESSES, error % ERRORS;
    assert (low + high * ADDRESSES) / ADDRESSES == high;
  }

  /** Any address and any 16-bit error round-trip; bits of the address above the 48th cannot reach the error. */
  lemma PackRoundTrip(address: nat, error: int)
    requires IsError(error)
    ensures var w := PackReply(address, error);
      && w < 0x1_0000_0000_0000_0000 && AddressOf(w) == address % ADDRESSES && ErrorOf(w) == error
      && (w == 0 <==> address % ADDRESSES == 0 && error == 0)
      && forall other: nat :: Matches(w, other) <==> other % ADDRESSES == address % ADDRESSES
  {
    PackParts(address, error);
    assert error % ERRORS == if error >= 0 then error else error + ERRORS;
  }

  /** A word is what packing its parts gives, so re-latching an entry it came from changes nothing. */
  lemma Repack(word: nat)
    requires word < 0x1_0000_0000_0000_0000
    ensures IsError(ErrorOf(word)) && PackReply(AddressOf(word), ErrorOf(word)) == word
  {
    var high := word / ADDRESSES;
    assert word == word % ADDRESSES + high * ADDRESSES;
    assert high < ERRORS;
    assert ErrorOf(word) % ERRORS == high;
  }

  // ---- Slots ----

  /** No two slots hold the same device; 0 marks a free slot. */
  ghost predicate OnePerDevice(slots: seq<nat>) {
    forall i, j :: 0 <= i < j < |slots| ==> slots[i] == 0 || slots[i] != slots[j]
  }

  /** The message kept ready for the clients lists the slots in some order, and counts the free ones. */
  ghost predicate Accounted(slots: seq<nat>, listed: seq<nat>, free: nat) {
    |listed| == |slots| && multiset(listed) == multiset(slots) && free == multiset(slots)[0]
  }

  lemma {:induction false} CountAtMost(s: seq<nat>, x: nat)
    ensures multiset(s)[x] <= |s|
    ensures (exists i :: 0 <= i < |s| && s[i] != x) ==> multiset(s)[x] < |s|
    decreases |s|
  {
    if s != [] {
      var n := |s| - 1;
      CountAtMost(s[..n], x);
      assert s == s[..n] + [s[n]];
      assert forall i :: 0 <= i < n ==> s[..n][i] == s[i];
    }
  }

  ghost predicate SlotsOk(slots: seq<nat>, listed: seq<nat>, free: nat) {
    OnePerDevice(slots) && Accounted(slots, listed, free) && forall i :: 0 <= i < |slots| ==> slots[i] < ADDRESSES
  }

  lemma SlotFacts(slots: seq<nat>, listed: seq<nat>, free: nat, i: nat)
    requires Accounted(slots, listed, free) && i < |slots|
    ensures slots[i] in listed && (slots[i] == 0 ==> free > 0) && (slots[i] != 0 ==> free < |slots|)
  {
    assert slots[i] in multiset(slots) && slots[i] in multiset(listed);
    CountAtMost(slots, 0);
  }

  lemma OnePerDeviceAfter(slots: seq<nat>, i: nat, a: nat)
    requires OnePerDevice(slots) && i < |slots| && (a != 0 ==> a !in slots)
    ensures OnePerDevice(slots[i := a])
  {
  }

  /** One slot changes hands, and one matching place of the message with it. */
  lemma SlotMoves(slots: seq<nat>, listed: seq<nat>, free: nat, i: nat, a: nat, k: nat)
    requires SlotsOk(slots, listed, free) && i < |slots| && k < |listed| && listed[k] == slots[i]
    requires (slots[i] == 0 <==> a != 0) && a < ADDRESSES && (a != 0 ==> a !in slots)
    ensures SlotsOk(slots[i := a], listed[k := a], if a == 0 then free + 1 else free - 1)
  {
    OnePerDeviceAfter(slots, i, a);
    hide OnePerDevice;
    assert multiset(slots[i := a]) == multiset(slots) - multiset{slots[i]} + multiset{a};
    assert multiset(listed[k := a]) == multiset(listed) - multiset{listed[k]} + multiset{a};
    assert slots[i] in multiset(slots);
  }

  // ---- The pool of owed disconnect notices ----

  /** What became of the notice of a freed slot. */
  datatype Fate =
    | Pooled        // refused, and owed
    | Delivered
    | Satisfied     // a later disconnect frame for the device landed
    | Replaced      // a later disconnect of the device took its place in the pool
    | Superseded    // the device was asked for again
    | Displaced     // the pool was full of other devices
    | Dropped       // its subscriber left, or nobody was subscribed

  datatype Notice = Notice(address: nat, error: int, fate: Fate)

  ghost predicate PoolValid(pool: seq<nat>) {
    && (forall i :: 0 <= i < |pool| ==> pool[i] < 0x1_0000_0000_0000_0000 && (pool[i] != 0 ==> AddressOf(pool[i]) != 0))
    && (forall i, j :: 0 <= i < j < |pool| && pool[i] != 0 && pool[j] != 0 ==> AddressOf(pool[i]) != AddressOf(pool[j]))
  }

  ghost predicate Owes(pool: seq<nat>, address: nat) {
    exists i :: 0 <= i < |pool| && pool[i] != 0 && AddressOf(pool[i]) == address
  }

  /** No owed disconnect for a device that a slot holds. */
  ghost predicate Apart(pool: seq<nat>, slots: seq<nat>) {
    forall i :: 0 <= i < |slots| && slots[i] != 0 ==> !Owes(pool, slots[i])
  }

  /** `held` names the notice each entry of the pool stands for. */
  ghost predicate Holds(pool: seq<nat>, held: seq<int>, notices: seq<Notice>) {
    && |held| == |pool|
    && forall i :: 0 <= i < |pool| && pool[i] != 0 ==>
         0 <= held[i] < |notices| && notices[held[i]] == Notice(AddressOf(pool[i]), ErrorOf(pool[i]), Pooled)
  }

  ghost predicate InPool(pool: seq<nat>, held: seq<int>, k: int)
    requires |held| == |pool|
  {
    exists i :: 0 <= i < |pool| && pool[i] != 0 && held[i] == k
  }

  /** Every notice still owed is in the pool, but for `except`. */
  ghost predicate NoneLost(pool: seq<nat>, held: seq<int>, notices: seq<Notice>, except: int)
    requires |held| == |pool|
  {
    forall k :: 0 <= k < |notices| && notices[k].fate.Pooled? && k != except ==> InPool(pool, held, k)
  }

  /** Where a refused notice goes: the device's own entry, else the first free one, else the first. */
  function Matching(pool: seq<nat>, address: nat, i: nat): (r: nat)
    requires i <= |pool|
    ensures i <= r <= |pool|
    ensures r < |pool| ==> Matches(pool[r], address)
    ensures forall j :: i <= j < r ==> !Matches(pool[j], address)
    decreases |pool| - i
  {
    if i == |pool| || Matches(pool[i], address) then i else Matching(pool, address, i + 1)
  }

  function Vacant(pool: seq<nat>, i: nat): (r: nat)
    requires i <= |pool|
    ensures i <= r <= |pool|
    ensures r < |pool| ==> pool[r] == 0
    ensures forall j :: i <= j < r ==> pool[j] != 0
    decreases |pool| - i
  {
    if i == |pool| || pool[i] == 0 then i else Vacant(pool, i + 1)
  }

  function Place(pool: seq<nat>, address: nat): (r: nat)
    requires pool != []
    ensures r < |pool|
  {
    var m, v := Matching(pool, address, 0), Vacant(pool, 0);
    if m < |pool| then m else if v < |pool| then v else 0
  }

  /** What latching a notice makes of the one whose entry it takes. */
  function Evicted(pool: seq<nat>, held: seq<int>, notices: seq<Notice>, address: nat, id: nat): seq<Notice>
    requires pool != [] && |held| == |pool|
  {
    var r := Place(pool, address);
    if pool[r] == 0 || held[r] == id || !(0 <= held[r] < |notices|) then notices
    else notices[held[r] := notices[held[r]].(fate := if Matches(pool[r], address) then Replaced else Displaced)]
  }

  /** Latching keeps at most one entry per device and loses no other notice than the one whose entry it takes. */
  lemma LatchKeeps(pool: seq<nat>, held: seq<int>, notices: seq<Notice>, address: nat, error: int, id: nat)
    requires pool != [] && PoolValid(pool) && Holds(pool, held, notices) && NoneLost(pool, held, notices, id)
    requires IsAddress(address) && IsError(error) && id < |notices| && notices[id] == Notice(address, error, Pooled)
    ensures var r := Place(pool, address);
      var p, h, n := pool[r := PackReply(address, error)], held[r := id], Evicted(pool, held, notices, address, id);
      && PoolValid(p) && Holds(p, h, n) && NoneLost(p, h, n, -1)
      && (forall a :: Owes(p, a) ==> a == address || Owes(pool, a))
  {
    hide PackReply, AddressOf, ErrorOf;
    PackRoundTrip(address, error);
    var r := Place(pool, address);
    var p, h, n := pool[r := PackReply(address, error)], held[r := id], Evicted(pool, held, notices, address, id);
    LatchUnique(pool, address, error);
    forall i | 0 <= i < |pool| && pool[i] != 0 && held[i] == id ensures i == r {
      HeldWhere(pool, held, notices, address, id, i);
    }
    LatchHolds(pool, held, notices, address, error, id);
    hide PoolValid, Place, Holds;
    forall k | 0 <= k < |n| && n[k].fate.Pooled? ensures InPool(p, h, k) {
      if k == id {
        assert p[r] != 0 && h[r] == k;
      } else {
        assert InPool(pool, held, k);
        var i :| 0 <= i < |pool| && pool[i] != 0 && held[i] == k;
        assert p[i] != 0 && h[i] == k;
      }
    }
    forall a | Owes(p, a) ensures a == address || Owes(pool, a) {
      var i :| 0 <= i < |p| && p[i] != 0 && AddressOf(p[i]) == a;
      if i != r { assert pool[i] != 0 && AddressOf(pool[i]) == a; }
    }
  }

  lemma LatchHolds(pool: seq<nat>, held: seq<int>, notices: seq<Notice>, address: nat, error: int, id: nat)
    requires pool != [] && PoolValid(pool) && Holds(pool, held, notices)
    requires IsAddress(address) && IsError(error) && id < |notices| && notices[id] == Notice(address, error, Pooled)
    requires forall i :: 0 <= i < |pool| && pool[i] != 0 && held[i] == id ==> i == Place(pool, address)
    ensures var r := Place(pool, address);
      Holds(pool[r := PackReply(address, error)], held[r := id], Evicted(pool, held, notices, address, id))
  {
    hide PackReply, AddressOf, ErrorOf, Place;
    PackRoundTrip(address, error);
    var r := Place(pool, address);
    var p, h, n := pool[r := PackReply(address, error)], held[r := id], Evicted(pool, held, notices, address, id);
    forall i | 0 <= i < |p| && p[i] != 0
      ensures 0 <= h[i] < |n| && n[h[i]] == Notice(AddressOf(p[i]), ErrorOf(p[i]), Pooled)
    {
      if i != r && pool[r] != 0 { assert notices[held[i]].address != notices[held[r]].address; }
    }
  }

  lemma LatchUnique(pool: seq<nat>, address: nat, error: int)
    requires pool != [] && PoolValid(pool) && IsAddress(address) && IsError(error)
    ensures PoolValid(pool[Place(pool, address) := PackReply(address, error)])
  {
    hide PackReply, AddressOf, ErrorOf;
    PackRoundTrip(address, error);
    var r := Place(pool, address);
    assert address % ADDRESSES == address;
    forall i | 0 <= i < |pool| && i != r && pool[i] != 0 ensures AddressOf(pool[i]) != address {
      if Matching(pool, address, 0) < |pool| {
        if pool[r] == 0 { ZeroWord(); }
      } else {
        assert !Matches(pool[i], address);
      }
    }
  }

  lemma ZeroWord()
    ensures AddressOf(0) == 0
  {
  }

  /** The first entry of a device, emptied; its notice ends with the given fate. */
  function ClearedPool(pool: seq<nat>, address: nat): seq<nat> {
    var m := Matching(pool, address, 0);
    if m == |pool| then pool else pool[m := 0]
  }

  function ClearedNotices(pool: seq<nat>, held: seq<int>, notices: seq<Notice>, address: nat, fate: Fate): seq<Notice>
    requires |held| == |pool|
  {
    var m := Matching(pool, address, 0);
    if m == |pool| || pool[m] == 0 || !(0 <= held[m] < |notices|) then notices
    else notices[held[m] := notices[held[m]].(fate := fate)]
  }

  /** The cleared entry, if there is one, was the device's only one. */
  lemma ClearedWhere(pool: seq<nat>, address: nat)
    requires PoolValid(pool) && IsAddress(address)
    ensures var m := Matching(pool, address, 0);
      && (m < |pool| ==> pool[m] != 0 && AddressOf(pool[m]) == address)
      && forall i :: 0 <= i < |pool| && i != m && pool[i] != 0 ==> AddressOf(pool[i]) != address
  {
    hide PackReply, AddressOf, ErrorOf;
    var m := Matching(pool, address, 0);
    assert address % ADDRESSES == address;
    ZeroWord();
    forall i | 0 <= i < |pool| && i != m && pool[i] != 0 ensures AddressOf(pool[i]) != address {
      if m == |pool| { assert !Matches(pool[i], address); }
    }
  }

  lemma ClearOwes(pool: seq<nat>, address: nat)
    requires PoolValid(pool) && IsAddress(address)
    ensures var p := ClearedPool(pool, address);
      PoolValid(p) && !Owes(p, address) && (forall a :: a != address ==> (Owes(p, a) <==> Owes(pool, a)))
  {
    hide PackReply, AddressOf, ErrorOf, Matching;
    var p, m := ClearedPool(pool, address), Matching(pool, address, 0);
    ClearedWhere(pool, address);
    forall a | a != address ensures Owes(p, a) <==> Owes(pool, a) {
      if Owes(pool, a) {
        var i :| 0 <= i < |pool| && pool[i] != 0 && AddressOf(pool[i]) == a;
        assert p[i] != 0 && AddressOf(p[i]) == a;
      }
    }
  }

  /** Clearing leaves every other notice where it was. */
  lemma ClearKeeps(pool: seq<nat>, held: seq<int>, notices: seq<Notice>, address: nat, fate: Fate, except: int)
    requires PoolValid(pool) && Holds(pool, held, notices) && NoneLost(pool, held, notices, except) && !fate.Pooled?
    requires IsAddress(address)
    ensures var p, n := ClearedPool(pool, address), ClearedNotices(pool, held, notices, address, fate);
      Holds(p, held, n) && NoneLost(p, held, n, except)
  {
    hide PackReply, AddressOf, ErrorOf, PoolValid, Matching;
    var p, n := ClearedPool(pool, address), ClearedNotices(pool, held, notices, address, fate);
    var m := Matching(pool, address, 0);
    ClearedWhere(pool, address);
    forall i | 0 <= i < |p| && p[i] != 0
      ensures 0 <= held[i] < |n| && n[held[i]] == Notice(AddressOf(p[i]), ErrorOf(p[i]), Pooled)
    {
      if m < |pool| { assert notices[held[i]].address != notices[held[m]].address; }
    }
    forall k | 0 <= k < |n| && n[k].fate.Pooled? && k != except ensures InPool(p, held, k) {
      assert InPool(pool, held, k);
      var i :| 0 <= i < |pool| && pool[i] != 0 && held[i] == k;
      assert p[i] != 0 && held[i] == k;
    }
  }

  /** Notices are only ever settled, once, and never forgotten. */
  ghost predicate Continues(before: seq<Notice>, after: seq<Notice>) {
    |before| <= |after| && forall k :: 0 <= k < |before| ==>
      && after[k].address == before[k].address && after[k].error == before[k].error
      && (!before[k].fate.Pooled? ==> after[k] == before[k])
  }

  lemma ContinuesRefl(a: seq<Notice>)
    ensures Continues(a, a)
  {
  }

  lemma ContinuesTrans(a: seq<Notice>, b: seq<Notice>, c: seq<Notice>)
    requires Continues(a, b) && Continues(b, c)
    ensures Continues(a, c)
  {
  }

  /** The entry that stands for a notice is the one a later latch or clear of its device finds. */
  lemma HeldWhere(pool: seq<nat>, held: seq<int>, notices: seq<Notice>, address: nat, id: nat, i: nat)
    requires PoolValid(pool) && Holds(pool, held, notices) && IsAddress(address)
    requires id < |notices| && notices[id].address == address
    requires i < |pool| && pool[i] != 0 && held[i] == id
    ensures Matching(pool, address, 0) == i && Place(pool, address) == i
  {
    hide AddressOf, ErrorOf, PackReply, PoolValid, Matching, Vacant;
    ClearedWhere(pool, address);
  }

  /** A notice that stays refused keeps its word and its place. */
  lemma RelatchSame(pool: seq<nat>, i: nat)
    requires PoolValid(pool) && i < |pool| && pool[i] != 0
    ensures var a := AddressOf(pool[i]);
      && IsAddress(a) && IsError(ErrorOf(pool[i])) && Place(pool, a) == i == Matching(pool, a, 0)
      && PackReply(a, ErrorOf(pool[i])) == pool[i]
  {
    var a := AddressOf(pool[i]);
    Repack(pool[i]);
    ClearedWhere(pool, a);
  }

  /** Once its device is cleared, a notice may be settled. */
  lemma SettleKeeps(pool: seq<nat>, held: seq<int>, notices: seq<Notice>, address: nat, id: nat, fate: Fate)
    requires PoolValid(pool) && Holds(pool, held, notices) && NoneLost(pool, held, notices, id) && !Owes(pool, address)
    requires id < |notices| && notices[id].address == address && !fate.Pooled?
    ensures var n := notices[id := notices[id].(fate := fate)];
      Holds(pool, held, n) && NoneLost(pool, held, n, -1)
  {
    hide AddressOf, ErrorOf, PoolValid;
    var n := notices[id := notices[id].(fate := fate)];
    forall i | 0 <= i < |pool| && pool[i] != 0 ensures held[i] != id {
      assert !(AddressOf(pool[i]) == address);
    }
    forall k | 0 <= k < |n| && n[k].fate.Pooled? ensures InPool(pool, held, k) {
      assert notices[k].fate.Pooled? && k != id;
    }
  }

  /** How the notice of a freed slot starts out. */
  function FirstFate(subscribed: bool, accepted: bool): Fate {
    if !subscribed then Dropped else if accepted then Delivered else Pooled
  }

  /** One of the first `n` entries stands for notice `k`, and its frame was accepted. */
  ghost predicate Landed(pool: seq<nat>, held: seq<int>, accepted: seq<bool>, n: nat, k: int)
    requires n <= |pool| == |held| == |accepted|
  {
    exists i :: 0 <= i < n && pool[i] != 0 && accepted[i] && held[i] == k
  }

  lemma LandedNext(pool: seq<nat>, held: seq<int>, accepted: seq<bool>, n: nat, k: int)
    requires n < |pool| == |held| == |accepted|
    ensures Landed(pool, held, accepted, n + 1, k) <==>
            Landed(pool, held, accepted, n, k) || (pool[n] != 0 && accepted[n] && held[n] == k)
  {
  }

  lemma NoneLanded(pool: seq<nat>, held: seq<int>, accepted: seq<bool>)
    requires |pool| == |held| == |accepted|
    ensures forall k :: !Landed(pool, held, accepted, 0, k)
  {
  }

  /** A notice after a drain has offered the first `n` entries. */
  ghost function AfterDrain(pool: seq<nat>, held: seq<int>, accepted: seq<bool>, n: nat, x: Notice, k: int): Notice
    requires n <= |pool| == |held| == |accepted|
  {
    if Landed(pool, held, accepted, n, k) then x.(fate := Delivered) else x
  }

  /** A notice after a refused one has been latched for a device that is owed nothing: a full pool loses its first. */
  function AfterLatch(pool: seq<nat>, held: seq<int>, notices: seq<Notice>, k: nat): Notice
    requires pool != [] && |held| == |pool| && k < |notices|
  {
    if 0 !in pool && held[0] == k then notices[k].(fate := Displaced) else notices[k]
  }

  /** A device that is owed nothing has no notice to clear, and takes a free entry or the first. */
  lemma FreedNotices(pool: seq<nat>, held: seq<int>, notices: seq<Notice>, address: nat, id: nat)
    requires pool != [] && PoolValid(pool) && Holds(pool, held, notices) && IsAddress(address) && !Owes(pool, address)
    requires id + 1 == |notices| && notices[id] == Notice(address, notices[id].error, Pooled)
    ensures ClearedNotices(pool, held, notices, address, Satisfied) == notices
    ensures var n := Evicted(pool, held, notices, address, id);
      |n| == |notices| && forall k :: 0 <= k < id ==> n[k] == AfterLatch(pool, held, notices[..id], k)
  {
    hide AddressOf, ErrorOf;
    ClearedWhere(pool, address);
    assert Matching(pool, address, 0) == |pool|;
    var v := Vacant(pool, 0);
    if v < |pool| {
      assert pool[v] in pool;
    } else {
      assert notices[held[0]].address != address;
    }
  }

  /** Clearing a device settles exactly its owed notice. */
  lemma ClearedFates(pool: seq<nat>, held: seq<int>, notices: seq<Notice>, address: nat, fate: Fate, k: nat)
    requires PoolValid(pool) && Holds(pool, held, notices) && NoneLost(pool, held, notices, -1) && IsAddress(address)
    requires k < |notices|
    ensures ClearedNotices(pool, held, notices, address, fate)[k] ==
            if notices[k].fate.Pooled? && notices[k].address == address then notices[k].(fate := fate) else notices[k]
  {
    hide AddressOf, ErrorOf;
    ClearedWhere(pool, address);
    if notices[k].fate.Pooled? { assert InPool(pool, held, k); }
  }

  /** No notice is lost: one that is still owed is in the pool under its device, with its reason, exactly once. */
  lemma OwedIsPooled(pool: seq<nat>, held: seq<int>, notices: seq<Notice>, k: nat) returns (i: nat)
    requires PoolValid(pool) && Holds(pool, held, notices) && NoneLost(pool, held, notices, -1)
    requires k < |notices| && notices[k].fate.Pooled?
    ensures i < |pool| && AddressOf(pool[i]) == notices[k].address && ErrorOf(pool[i]) == notices[k].error
    ensures forall j :: 0 <= j < |pool| && pool[j] != 0 && AddressOf(pool[j]) == notices[k].address ==> j == i
  {
    hide AddressOf, ErrorOf;
    assert InPool(pool, held, k);
    i :| 0 <= i < |pool| && pool[i] != 0 && held[i] == k;
  }

  /** Some entry of the pool owes this notice, with its reason. */
  ghost predicate OwedAs(pool: seq<nat>, n: Notice) {
    exists i :: 0 <= i < |pool| && pool[i] != 0 && AddressOf(pool[i]) == n.address && ErrorOf(pool[i]) == n.error
  }

  // ---- The owed unpair reply ----

  /** One attempt to report an unpair: from a request, or from the drain with what is owed. */
  datatype Attempt = Attempt(address: nat, error: int, accepted: bool)

  /** The error the frame carries: an owed success stands against a later failure for the same device. */
  function Reported(owed: nat, t: Attempt): int {
    if owed != 0 && Matches(owed, t.address) && ErrorOf(owed) == 0 then 0 else t.error
  }

  function AfterAttempt(owed: nat, t: Attempt): nat {
    if !t.accepted then PackReply(t.address, Reported(owed, t)) else if Matches(owed, t.address) then 0 else owed
  }

  /** With no success owed to its device, a frame reports the attempt's own error. */
  lemma OwnErrorReported(owed: nat, t: Attempt)
    requires IsAddress(t.address)
    requires owed == 0 || AddressOf(owed) != t.address || ErrorOf(owed) != 0
    ensures Reported(owed, t) == t.error
  {
  }

  /** A refused reply is owed to its device with what it reported; one that lands settles its own device only. */
  lemma AttemptLeaves(owed: nat, t: Attempt)
    requires IsAddress(t.address) && IsError(t.error)
    ensures !t.accepted ==>
      AddressOf(AfterAttempt(owed, t)) == t.address && ErrorOf(AfterAttempt(owed, t)) == Reported(owed, t)
    ensures t.accepted ==> AfterAttempt(owed, t) == if owed != 0 && AddressOf(owed) == t.address then 0 else owed
  {
    hide PackReply, AddressOf, ErrorOf;
    PackRoundTrip(t.address, Reported(owed, t));
  }

  function OwedAfter(owed: nat, ts: seq<Attempt>): nat
    decreases |ts|
  {
    if ts == [] then owed else AfterAttempt(OwedAfter(owed, ts[..|ts| - 1]), ts[|ts| - 1])
  }

  /**
   * A bond that was removed is reported as removed: after a refused success for a device, every attempt for it
   * reports success until one lands.
   */
  lemma {:induction false} SuccessStands(address: nat, ts: seq<Attempt>, t: Attempt)
    requires IsAddress(address) && t.address == address
    requires forall k :: 0 <= k < |ts| ==> ts[k].address == address && !ts[k].accepted
    ensures OwedAfter(PackReply(address, 0), ts) == PackReply(address, 0)
    ensures Reported(OwedAfter(PackReply(address, 0), ts), t) == 0
    ensures t.accepted ==> AfterAttempt(OwedAfter(PackReply(address, 0), ts), t) == 0
    decreases |ts|
  {
    hide PackReply, AddressOf, ErrorOf, Matches;
    PackRoundTrip(address, 0);
    assert address % ADDRESSES == address;
    if ts != [] {
      SuccessStands(address, ts[..|ts| - 1], ts[|ts| - 1]);
    }
  }

  class BluetoothProxy {
    /** The addresses of the connections, the message kept for the clients, and the pool. */
    const slots: array<nat>
    const listed: array<nat>
    const pool: array<nat>
    var free: nat
    var subscribed: bool
    var pendingUnpairing: nat
    ghost var held: seq<int>
    ghost var notices: seq<Notice>

    ghost predicate Arrays() {
      && 0 < slots.Length == listed.Length == pool.Length
      && slots != listed && listed != pool && slots != pool
    }

    ghost predicate SlotsValid() reads `free, slots, listed { SlotsOk(slots[..], listed[..], free) }

    /** The pool, and what it owes; `except` is a notice on its way. */
    ghost predicate Ledger(except: int) reads `subscribed, `held, `notices, pool {
      && |held| == pool.Length && PoolValid(pool[..]) && Holds(pool[..], held, notices)
        && NoneLost(pool[..], held, notices, except)
      && (!subscribed ==> forall i :: 0 <= i < pool.Length ==> pool[i] == 0)
    }

    ghost predicate Valid() reads this, slots, listed, pool {
      Arrays() && SlotsValid() && Ledger(-1) && Apart(pool[..], slots[..])
    }

    constructor (count: nat)
      requires count > 0
      ensures Valid() && fresh(slots) && fresh(listed) && fresh(pool) && slots.Length == count
      ensures !subscribed && pendingUnpairing == 0 && notices == [] && forall i :: 0 <= i < count ==> slots[i] == 0
    {
      slots := new nat[count](_ => 0);
      listed := new nat[count](_ => 0);
      pool := new nat[count](_ => 0);
      free, subscribed, pendingUnpairing, notices := count, false, 0, [];
      held := seq(count, _ => 0);
      new;
      assert slots[..] == listed[..];
      AllZero(slots[..]);
      hide PoolValid, Holds, NoneLost;
      EmptyPool(pool[..], held, notices, slots[..]);
    }

    // ---- Slot accounting ----

    method ReplaceAllocatedSlot(find: nat, value: nat) returns (found: bool, ghost k: nat)
      requires Arrays()
      modifies listed
      ensures found <==> find in old(listed[..])
      ensures found ==> k < listed.Length && old(listed[..])[k] == find && listed[..] == old(listed[..])[k := value]
      ensures !found ==> listed[..] == old(listed[..])
    {
      var i := 0;
      while i < listed.Length
        invariant i <= listed.Length && forall j :: 0 <= j < i ==> listed[j] != find
        invariant listed[..] == old(listed[..])
      {
        if listed[i] == find {
          listed[i] := value;
          k := i;
          return true, i;
        }
        i := i + 1;
      }
      found, k := false, 0;
    }

    /** A slot takes or gives up an address; neither accounting mismatch can happen. */
    method SetAddress(i: nat, a: nat) returns (mismatch: bool)
      requires Arrays() && SlotsValid() && i < slots.Length && (slots[i] == 0 || a == 0)
      requires a < ADDRESSES && (a != 0 ==> a !in slots[..])
      modifies slots, listed, `free
      ensures SlotsValid() && !mismatch && slots[..] == old(slots[..])[i := a]
    {
      mismatch := false;
      ghost var before, was := slots[..], listed[..];
      var address := slots[i];
      if address == 0 && a == 0 { return; }
      SlotFacts(before, was, free, i);
      hide SlotsOk;
      var found: bool;
      ghost var k;
      if a == 0 {
        if free < slots.Length { free := free + 1; } else { mismatch := true; }
        found, k := ReplaceAllocatedSlot(address, 0);
      } else {
        if free > 0 { free := free - 1; } else { mismatch := true; }
        found, k := ReplaceAllocatedSlot(0, a);
      }
      mismatch := mismatch || !found;
      slots[i] := a;
      SlotMoves(before, was, old(free), i, a, k);
      assert slots[..] == before[i := a];
    }

    /** The slot that holds the device, else, when reserving, the first free one, which then holds it. */
    method GetConnection(address: nat, reserve: bool) returns (found: bool, index: nat)
      requires Valid() && IsAddress(address)
      modifies slots, listed, pool, `free, `notices
      ensures Valid() && Continues(old(notices), notices)
      ensures address in old(slots[..]) ==>
        found && index < slots.Length && slots[index] == address && slots[..] == old(slots[..])
      ensures address !in old(slots[..]) ==>
        if reserve && 0 in old(slots[..]) then
          && found && index < slots.Length && slots[..] == old(slots[..])[index := address]
          && old(slots[..])[index] == 0 && 0 !in old(slots[..])[..index]
        else !found && slots[..] == old(slots[..])
      ensures if reserve && found then
          && pool[..] == ClearedPool(old(pool[..]), address) && !Owes(pool[..], address)
          && notices == ClearedNotices(old(pool[..]), held, old(notices), address, Superseded)
        else pool[..] == old(pool[..]) && notices == old(notices)
    {
      hide PoolValid, Holds, NoneLost, Owes, Accounted, OnePerDevice, Matching, ClearedNotices;
      var free_: nat;
      found, index, free_ := FindSlot(address);
      if found {
        assert slots[index] in slots[..];
        if reserve { ClearPendingDisconnection(address, Superseded, -1); }
        return;
      }
      if !reserve || free_ == slots.Length { return; }
      ghost var before := slots[..];
      assert before[free_] == 0;
      ClearPendingDisconnection(address, Superseded, -1);
      var mismatch := SetAddress(free_, address);
      found, index := true, free_;
      assert forall i :: 0 <= i < slots.Length && i != free_ ==> slots[..][i] == before[i];
    }

    /** The scan is finished before a free slot wins. */
    method FindSlot(address: nat) returns (found: bool, index: nat, free_: nat)
      requires address != 0
      ensures found <==> address in slots[..]
      ensures found ==> index < slots.Length && slots[index] == address
      ensures !found ==> free_ <= slots.Length && 0 !in slots[..free_] && (free_ < slots.Length ==> slots[free_] == 0)
    {
      found, index, free_ := false, 0, slots.Length;
      var i := 0;
      while i < slots.Length
        invariant i <= slots.Length && address !in slots[..i]
        invariant free_ == slots.Length ==> 0 !in slots[..i]
        invariant free_ != slots.Length ==> free_ < i && slots[free_] == 0 && 0 !in slots[..free_]
      {
        if slots[i] == address { return true, i, free_; }
        if free_ == slots.Length && slots[i] == 0 { free_ := i; }
        i := i + 1;
      }
    }

    // ---- The pool ----

    method ClearPendingDisconnection(address: nat, ghost fate: Fate, ghost except: int)
      requires Arrays() && Ledger(except) && IsAddress(address) && !fate.Pooled?
      modifies pool, `notices
      ensures Ledger(except) && pool[..] == ClearedPool(old(pool[..]), address) && Continues(old(notices), notices)
      ensures notices == ClearedNotices(old(pool[..]), held, old(notices), address, fate) && !Owes(pool[..], address)
      ensures forall a :: a != address ==> (Owes(pool[..], a) <==> Owes(old(pool[..]), a))
    {
      hide PoolValid, Holds, NoneLost, Owes;
      ghost var before := pool[..];
      ClearKeeps(before, held, notices, address, fate, except);
      ClearOwes(before, address);
      ClearContinues(before, held, notices, address, fate);
      var i := 0;
      while i < pool.Length
        invariant i <= pool.Length && pool[..] == before && Matching(before, address, 0) == Matching(before, address, i)
      {
        assert pool[i] == before[i];
        if Matches(pool[i], address) {
          pool[i] := 0;
          assert pool[..] == before[i := 0];
          notices := ClearedNotices(before, held, notices, address, fate);
          return;
        }
        i := i + 1;
      }
    }

    /** Pools a refused notice: in its device's entry, in a free one, or by displacing the first. */
    method LatchPendingDisconnection(address: nat, error: int, ghost id: nat)
      requires Arrays() && Ledger(id) && subscribed && IsAddress(address) && IsError(error)
      requires id < |notices| && notices[id] == Notice(address, error, Pooled)
      modifies pool, `held, `notices
      ensures Ledger(-1) && Continues(old(notices), notices)
      ensures var r := Place(old(pool[..]), address);
        pool[..] == old(pool[..])[r := PackReply(address, error)] && held == old(held)[r := id]
      ensures notices == Evicted(old(pool[..]), old(held), old(notices), address, id)
      ensures forall a :: Owes(pool[..], a) ==> a == address || Owes(old(pool[..]), a)
    {
      hide PoolValid, Holds, NoneLost, Owes, PackReply;
      ghost var before := pool[..];
      LatchKeeps(before, held, notices, address, error, id);
      EvictContinues(before, held, notices, address, id);
      var r := FindPlace(address);
      pool[r] := PackReply(address, error);
      assert pool[..] == before[r := PackReply(address, error)];
      notices := Evicted(before, held, notices, address, id);
      held := held[r := id];
    }

    method FindPlace(address: nat) returns (r: nat)
      requires Arrays()
      ensures r == Place(pool[..], address)
    {
      ghost var p := pool[..];
      var vacant := pool.Length;
      var i := 0;
      while i < pool.Length
        invariant i <= pool.Length && pool[..] == p && Matching(p, address, 0) == Matching(p, address, i)
        invariant vacant <= pool.Length && (vacant < pool.Length ==> vacant < i && vacant == Vacant(p, 0))
        invariant vacant == pool.Length ==> Vacant(p, 0) == Vacant(p, i)
      {
        if Matches(pool[i], address) { return i; }
        if vacant == pool.Length && pool[i] == 0 { vacant := i; }
        i := i + 1;
      }
      r := if vacant != pool.Length then vacant else 0;
    }

    /**
     * Sends connected=false for notice `id`, and pools it if the API refuses; with nobody subscribed nothing is owed.
     */
    method SendDeviceDisconnected(address: nat, error: int, accepted: bool, ghost id: nat)
      requires Arrays() && Ledger(id) && IsAddress(address) && IsError(error)
      requires id < |notices| && notices[id] == Notice(address, error, Pooled)
      modifies pool, `held, `notices
      ensures Ledger(-1) && Continues(old(notices), notices) && |notices| == |old(notices)|
      ensures forall a :: a != address ==> Owes(pool[..], a) ==> Owes(old(pool[..]), a)
      ensures !subscribed || accepted ==>
        && notices[id].fate == (if subscribed then Delivered else Dropped) && !Owes(pool[..], address)
        && pool[..] == ClearedPool(old(pool[..]), address) && held == old(held)
        && notices == ClearedNotices(old(pool[..]), held, old(notices), address, Satisfied)[id := notices[id]]
      ensures subscribed && !accepted ==>
        var r := Place(old(pool[..]), address);
        && notices == Evicted(old(pool[..]), old(held), old(notices), address, id)
        && pool[..] == old(pool[..])[r := PackReply(address, error)] && held == old(held)[r := id]
    {
      hide PoolValid, Holds, NoneLost, Owes, PackReply, ClearedPool, Place;
      if !subscribed || accepted {
        ghost var was := notices;
        ClearPendingDisconnection(address, Satisfied, id);
        ghost var fate := if subscribed then Delivered else Dropped;
        SettleKeeps(pool[..], held, notices, address, id, fate);
        notices := notices[id := notices[id].(fate := fate)];
        return;
      }
      LatchPendingDisconnection(address, error, id);
    }

    /** Answers a request with connected=false: a landed answer settles what is owed, a refused one is not pooled. */
    method AnswerDeviceDisconnected(address: nat, accepted: bool)
      requires Valid() && IsAddress(address)
      modifies pool, `notices
      ensures Valid() && Continues(old(notices), notices)
      ensures if !subscribed || accepted then
          && pool[..] == ClearedPool(old(pool[..]), address) && !Owes(pool[..], address)
          && notices == ClearedNotices(old(pool[..]), held, old(notices), address, Satisfied)
        else pool[..] == old(pool[..]) && notices == old(notices)
    {
      hide PoolValid, Holds, NoneLost, Owes, ClearedPool, ClearedNotices;
      if !subscribed || accepted { ClearPendingDisconnection(address, Satisfied, -1); }
    }

    /**
     * A slot is freed: exactly one notice is issued for its device, and delivered, pooled or, with nobody subscribed,
     * dropped.
     */
    method ResetConnectionSlot(i: nat, reason: int, accepted: bool)
      requires Valid() && i < slots.Length && slots[i] != 0 && IsError(reason)
      modifies slots, listed, pool, `free, `held, `notices
      ensures Valid() && slots[..] == old(slots[..])[i := 0] && Continues(old(notices), notices)
      ensures |notices| == |old(notices)| + 1
      ensures notices[|old(notices)|] == Notice(old(slots[i]), reason, FirstFate(subscribed, accepted))
      ensures forall k :: 0 <= k < |old(notices)| ==> (notices[k] ==
          if subscribed && !accepted then AfterLatch(old(pool[..]), old(held), old(notices), k) else old(notices)[k])
    {
      hide PoolValid, Owes, Accounted, OnePerDevice;
      assert !Owes(pool[..], slots[i]) by { assert slots[..][i] == slots[i]; }
      ghost var id, before, pooled := |notices|, slots[..], pool[..];
      var address := slots[i];
      notices := notices + [Notice(address, reason, Pooled)];
      assert Ledger(id);
      ghost var was := notices;
      FreedNotices(pooled, held, was, address, id);
      SendDeviceDisconnected(address, reason, accepted, id);
      hide Ledger, Evicted, ClearedNotices, AfterLatch, Place, PackReply, ClearedPool;
      var mismatch := SetAddress(i, 0);
      FreedApart(before, i, pooled, pool[..]);
    }

    /** The paced drain: every owed notice is offered once; accepted it leaves the pool, refused it stays as it was. */
    method DrainPendingDisconnections(accepted: seq<bool>)
      requires Valid() && subscribed && |accepted| == pool.Length
      modifies pool, `held, `notices
      ensures Valid() && Continues(old(notices), notices) && held == old(held)
      ensures forall i :: 0 <= i < pool.Length ==> pool[i] == if accepted[i] then 0 else old(pool[..])[i]
      ensures |notices| == |old(notices)|
      ensures forall k :: 0 <= k < |notices| ==>
          notices[k] == AfterDrain(old(pool[..]), held, accepted, pool.Length, old(notices)[k], k)
    {
      hide PoolValid, Holds, NoneLost, SlotsOk, Apart, Continues, Landed;
      ghost var before := pool[..];
      assert forall k :: !Landed(before, held, accepted, 0, k) by { NoneLanded(before, held, accepted); }
      ContinuesRefl(notices);
      var i := 0;
      while i < pool.Length
        invariant i <= pool.Length && Valid() && Continues(old(notices), notices) && held == old(held)
        invariant forall j :: 0 <= j < pool.Length ==> pool[j] == if j < i && accepted[j] then 0 else before[j]
        invariant |notices| == |old(notices)|
        invariant forall k :: 0 <= k < |notices| ==>
            notices[k] == AfterDrain(before, held, accepted, i, old(notices)[k], k)
      {
        if pool[i] != 0 {
          ghost var was := notices;
          DrainOne(i, accepted[i]);
          ContinuesTrans(old(notices), was, notices);
        }
        forall k ensures Landed(before, held, accepted, i + 1, k) <==>
            Landed(before, held, accepted, i, k) || (before[i] != 0 && accepted[i] && held[i] == k) {
          LandedNext(before, held, accepted, i, k);
        }
        i := i + 1;
      }
    }

    method DrainOne(i: nat, accepted: bool)
      requires Valid() && subscribed && i < pool.Length && pool[i] != 0
      modifies pool, `held, `notices
      ensures Valid() && Continues(old(notices), notices) && |notices| == |old(notices)| && held == old(held)
      ensures 0 <= held[i] < |notices|
      ensures notices == if accepted then old(notices)[held[i] := old(notices)[held[i]].(fate := Delivered)]
        else old(notices)
      ensures pool[..] == if accepted then old(pool[..])[i := 0] else old(pool[..])
    {
      hide Owes, SlotsOk, PackReply, Matching, Place, PoolValid, NoneLost, AddressOf, ErrorOf;
      ghost var before, id := pool[..], held[i];
      var address, error := AddressOf(pool[i]), ErrorOf(pool[i]);
      RelatchSame(before, i);
      assert Ledger(id) by { LessLost(before, held, notices, id); }
      SendDeviceDisconnected(address, error, accepted, id);
      if !accepted { assert before[i := before[i]] == before && held[i := held[i]] == held; }
    }

    /** The subscriber leaves or is replaced: everything its session was owed is dropped. */
    method EndSession(another: bool)
      requires Valid()
      modifies pool, `subscribed, `pendingUnpairing, `notices
      ensures Valid() && subscribed == another && pendingUnpairing == 0 && Continues(old(notices), notices)
      ensures |notices| == |old(notices)|
      ensures forall i :: 0 <= i < pool.Length ==> pool[i] == 0
      ensures forall k :: 0 <= k < |notices| && old(notices)[k].fate.Pooled? ==> notices[k].fate == Dropped
    {
      hide Accounted, OnePerDevice;
      subscribed, pendingUnpairing := another, 0;
      ghost var was := notices;
      notices := seq(|was|, k requires 0 <= k < |was| =>
        if was[k].fate.Pooled? then was[k].(fate := Dropped) else was[k]);
      forall i | 0 <= i < pool.Length { pool[i] := 0; }
      EmptyPool(pool[..], held, notices, slots[..]);
      assert SlotsValid();
    }

    /**
     * Sends the reply; `success` and `error` are what the frame says. A landed reply settles what is owed for the
     * device.
     */
    method SendDeviceUnpairing(t: Attempt) returns (sent: bool, success: bool, error: int)
      requires Valid()
      modifies `pendingUnpairing
      ensures Valid() && sent == subscribed
      ensures sent ==> error == Reported(old(pendingUnpairing), t) && success == (error == 0)
      ensures pendingUnpairing == if sent then AfterAttempt(old(pendingUnpairing), t) else old(pendingUnpairing)
    {
      sent, success, error := subscribed, t.error == 0, t.error;
      if !subscribed { return; }
      if pendingUnpairing != 0 && Matches(pendingUnpairing, t.address) && ErrorOf(pendingUnpairing) == 0 {
        success, error := true, 0;
      }
      if t.accepted {
        if Matches(pendingUnpairing, t.address) { pendingUnpairing := 0; }
        return;
      }
      pendingUnpairing := PackReply(t.address, error);
    }
  }

  // ---- Runs ----

  /** A connect request, a freed slot, a refused request, a drain, a change of subscriber, an unpair attempt. */
  datatype Step =
    | Connect(address: nat)
    | Release(slot: nat, reason: int, accepted: bool)
    | Answer(address: nat, accepted: bool)
    | Drain(each: seq<bool>)
    | Session(another: bool)
    | Unpair(attempt: Attempt)

  /** What a step finds: the slots, the pool with the notices it owes, and whether somebody is subscribed. */
  datatype View = View(slots: seq<nat>, pool: seq<nat>, held: seq<int>, subscribed: bool, notices: seq<Notice>)

  ghost function Look(p: BluetoothProxy): View reads p, p.slots, p.pool {
    View(p.slots[..], p.pool[..], p.held, p.subscribed, p.notices)
  }

  ghost predicate Sound(v: View) {
    && 0 < |v.slots| == |v.pool| == |v.held| && PoolValid(v.pool) && Apart(v.pool, v.slots)
    && Holds(v.pool, v.held, v.notices) && NoneLost(v.pool, v.held, v.notices, -1)
    && (!v.subscribed ==> forall i :: 0 <= i < |v.pool| ==> v.pool[i] == 0)
  }

  predicate Possible(slots: seq<nat>, poolSize: nat, subscribed: bool, s: Step) {
    match s
    case Connect(a) => IsAddress(a)
    case Release(i, reason, _) => i < |slots| && slots[i] != 0 && IsError(reason)
    case Answer(a, _) => IsAddress(a)
    case Drain(each) => subscribed && |each| == poolSize
    case Session(_) => true
    case Unpair(_) => true
  }

  ghost predicate CanTake(v: View, s: Step) { Possible(v.slots, |v.pool|, v.subscribed, s) }

  /** What a possible step makes of the owed notice `k`. */
  ghost function FateAfter(v: View, s: Step, k: nat): Fate
    requires Sound(v) && CanTake(v, s) && k < |v.notices|
  {
    var n := v.notices[k];
    match s
    case Connect(a) => if a == n.address && (a in v.slots || 0 in v.slots) then Superseded else Pooled
    case Release(_, _, accepted) =>
      if v.subscribed && !accepted && 0 !in v.pool && v.held[0] == k then Displaced else Pooled
    case Answer(a, accepted) => if accepted && a == n.address then Satisfied else Pooled
    case Drain(each) => if Landed(v.pool, v.held, each, |v.pool|, k) then Delivered else Pooled
    case Session(_) => Dropped
    case Unpair(_) => Pooled
  }

  /** One step issues the notice of the slot it frees, and takes each owed notice to its fate; settled ones stay. */
  ghost predicate Accounts(v: View, s: Step, after: seq<Notice>)
    requires Sound(v) && CanTake(v, s)
  {
    var n := |v.notices|;
    && (forall k :: 0 <= k < n && k < |after| ==> (after[k] ==
          var x := v.notices[k]; if x.fate.Pooled? then x.(fate := FateAfter(v, s, k)) else x))
    && match s
       case Release(i, reason, accepted) =>
         |after| == n + 1 && after[n] == Notice(v.slots[i], reason, FirstFate(v.subscribed, accepted))
       case _ => |after| == n
  }

  /** A connect takes the first free slot, unless the device holds one or none is free; a release frees its slot. */
  function SlotsAfter(slots: seq<nat>, s: Step): seq<nat> {
    match s
    case Connect(a) => if a in slots || 0 !in slots then slots else slots[Vacant(slots, 0) := a]
    case Release(i, _, _) => if i < |slots| then slots[i := 0] else slots
    case _ => slots
  }

  /** A step that cannot happen is passed over. */
  ghost predicate Follows(v: View, s: Step, w: View)
    requires Sound(v)
  {
    if CanTake(v, s) then
      && Accounts(v, s, w.notices)
      && w.subscribed == (if s.Session? then s.another else v.subscribed)
      && w.slots == SlotsAfter(v.slots, s)
    else w == v
  }

  /** With nobody subscribed, nothing is owed. */
  lemma NobodyOwed(v: View)
    requires Sound(v) && !v.subscribed
    ensures forall k :: 0 <= k < |v.notices| ==> !v.notices[k].fate.Pooled?
  {
    assert forall k :: !InPool(v.pool, v.held, k);
  }

  /** A connect that finds a slot, or a landed answer, settles what its device is owed. */
  lemma ClearAccounts(v: View, s: Step, a: nat, fate: Fate)
    requires Sound(v) && CanTake(v, s) && fate == if s.Connect? then Superseded else Satisfied
    requires match s
             case Connect(x) => x == a && (a in v.slots || 0 in v.slots)
             case Answer(x, accepted) => x == a && (!v.subscribed || accepted)
             case _ => false
    ensures Accounts(v, s, ClearedNotices(v.pool, v.held, v.notices, a, fate))
  {
    if !v.subscribed { NobodyOwed(v); }
    ghost var after := ClearedNotices(v.pool, v.held, v.notices, a, fate);
    forall k | 0 <= k < |v.notices|
      ensures after[k] == (var x := v.notices[k]; if x.fate.Pooled? && x.address == a then x.(fate := fate) else x)
    {
      ClearedFates(v.pool, v.held, v.notices, a, fate, k);
    }
    hide PoolValid, Holds, NoneLost, Apart, Matching;
  }

  lemma ReleaseAccounts(v: View, s: Step, after: seq<Notice>)
    requires Sound(v) && CanTake(v, s) && s.Release?
    requires |after| == |v.notices| + 1
    requires after[|v.notices|] == Notice(v.slots[s.slot], s.reason, FirstFate(v.subscribed, s.accepted))
    requires forall k :: 0 <= k < |v.notices| ==> (after[k] ==
        if v.subscribed && !s.accepted then AfterLatch(v.pool, v.held, v.notices, k) else v.notices[k])
    ensures Accounts(v, s, after)
  {
    assert 0 !in v.pool ==> v.pool[0] in v.pool;
  }

  lemma DrainAccounts(v: View, s: Step, after: seq<Notice>)
    requires Sound(v) && CanTake(v, s) && s.Drain? && |after| == |v.notices|
    requires forall k :: 0 <= k < |after| ==> after[k] == AfterDrain(v.pool, v.held, s.each, |v.pool|, v.notices[k], k)
    ensures Accounts(v, s, after)
  {
    assert forall k :: 0 <= k < |after| && Landed(v.pool, v.held, s.each, |v.pool|, k) ==> v.notices[k].fate.Pooled?;
  }

  /** The steps that settle nothing. */
  lemma IdleAccounts(v: View, s: Step)
    requires Sound(v) && CanTake(v, s)
    requires match s
             case Connect(a) => a !in v.slots && 0 !in v.slots
             case Answer(_, accepted) => v.subscribed && !accepted
             case Unpair(_) => true
             case _ => false
    ensures Accounts(v, s, v.notices)
  {
  }

  method Take(p: BluetoothProxy, s: Step)
    requires p.Valid() && CanTake(Look(p), s)
    modifies p, p.slots, p.listed, p.pool
    ensures p.Valid() && Sound(old(Look(p))) && Follows(old(Look(p)), s, Look(p))
  {
    SoundNow(p);
    assert p.Arrays();
    hide BluetoothProxy.Valid, Sound, Accounts, Continues, Landed;
    match s {
      case Connect(a) => TakeConnect(p, s);
      case Release(i, reason, accepted) => TakeRelease(p, s);
      case Answer(a, accepted) => TakeAnswer(p, s);
      case Drain(each) =>
        p.DrainPendingDisconnections(each);
        DrainAccounts(old(Look(p)), s, p.notices);
      case Session(another) =>
        p.EndSession(another);
        SessionAccounts(old(Look(p)), s, p.notices);
      case Unpair(t) =>
        IdleAccounts(old(Look(p)), s);
        var sent, success, error := p.SendDeviceUnpairing(t);
    }
  }

  method TakeConnect(p: BluetoothProxy, s: Step)
    requires p.Valid() && Sound(Look(p)) && s.Connect? && IsAddress(s.address)
    modifies p, p.slots, p.listed, p.pool
    ensures p.Valid() && Follows(old(Look(p)), s, Look(p))
  {
    ghost var v := Look(p);
    hide BluetoothProxy.Valid, Sound, Accounts, ClearedNotices, ClearedPool, Continues;
    if s.address in v.slots || 0 in v.slots { ClearAccounts(v, s, s.address, Superseded); } else { IdleAccounts(v, s); }
    var found, index := p.GetConnection(s.address, true);
    assert s.address !in v.slots && 0 in v.slots ==> index == Vacant(v.slots, 0);
  }

  method TakeRelease(p: BluetoothProxy, s: Step)
    requires p.Valid() && Sound(Look(p)) && s.Release? && CanTake(Look(p), s)
    modifies p, p.slots, p.listed, p.pool
    ensures p.Valid() && Follows(old(Look(p)), s, Look(p))
  {
    ghost var v := Look(p);
    hide BluetoothProxy.Valid, Sound, Accounts, Continues, AfterLatch;
    p.ResetConnectionSlot(s.slot, s.reason, s.accepted);
    ReleaseAccounts(v, s, p.notices);
  }

  method TakeAnswer(p: BluetoothProxy, s: Step)
    requires p.Valid() && Sound(Look(p)) && s.Answer? && IsAddress(s.address)
    modifies p, p.slots, p.listed, p.pool
    ensures p.Valid() && Follows(old(Look(p)), s, Look(p))
  {
    ghost var v := Look(p);
    assert p.Arrays();
    hide BluetoothProxy.Valid, Sound, Accounts, ClearedNotices, ClearedPool, Continues;
    if v.subscribed && !s.accepted { IdleAccounts(v, s); } else { ClearAccounts(v, s, s.address, Satisfied); }
    p.AnswerDeviceDisconnected(s.address, s.accepted);
  }

  lemma SessionAccounts(v: View, s: Step, after: seq<Notice>)
    requires Sound(v) && s.Session? && Continues(v.notices, after) && |after| == |v.notices|
    requires forall k :: 0 <= k < |after| && v.notices[k].fate.Pooled? ==> after[k].fate == Dropped
    ensures Accounts(v, s, after)
  {
  }

  // ---- What became of a notice ----

  /** Step `s` gave notice `k` the end `n` tells of. */
  ghost predicate Cause(v: View, s: Step, k: nat, n: Notice)
    requires Sound(v) && CanTake(v, s)
  {
    var freed := s.Release? && k == |v.notices| && v.slots[s.slot] == n.address && s.reason == n.error;
    var owed := k < |v.notices| && v.notices[k] == n.(fate := Pooled);
    match n.fate
    case Delivered => v.subscribed && ((freed && s.accepted) || (owed && s.Drain? && OfferedAs(v, s.each, n)))
    case Dropped => (freed && !v.subscribed) || (owed && s.Session?)
    case Superseded => owed && s.Connect? && s.address == n.address && (n.address in v.slots || 0 in v.slots)
    case Satisfied => owed && s.Answer? && s.accepted && v.subscribed && s.address == n.address
    case Displaced =>
      && owed && s.Release? && !s.accepted && v.subscribed && 0 !in v.pool
      && v.slots[s.slot] != n.address && v.held[0] == k
    case _ => false
  }

  /** A drain sent this notice from an entry that carries its device and its reason, and the frame was accepted. */
  ghost predicate OfferedAs(v: View, each: seq<bool>, n: Notice)
    requires |each| == |v.pool|
  {
    exists i :: 0 <= i < |v.pool| && each[i] && v.pool[i] != 0 && Carries(v.pool[i], n)
  }

  predicate Carries(word: nat, n: Notice) { AddressOf(word) == n.address && ErrorOf(word) == n.error }

  ghost predicate Ended(notices: seq<Notice>, k: nat, n: Notice) { k < |notices| && notices[k] == n && !n.fate.Pooled? }

  /** A notice that ends in a step ends for the cause its fate names. */
  lemma EndedByCause(v: View, s: Step, w: View, k: nat, n: Notice)
    requires Sound(v) && Follows(v, s, w) && Ended(w.notices, k, n) && !Ended(v.notices, k, n)
    ensures CanTake(v, s) && Cause(v, s, k, n)
  {
    hide AddressOf, ErrorOf;
    if k < |v.notices| {
      assert v.notices[k].fate.Pooled?;
      assert InPool(v.pool, v.held, k);
      if s.Release? { assert v.slots[s.slot] in v.slots; }
    }
  }

  ghost predicate StillOwed(after: seq<Notice>, address: nat) {
    exists k :: 0 <= k < |after| && after[k].fate.Pooled? && after[k].address == address
  }

  /** A freed slot's notice is delivered, owed, or dropped with nobody subscribed. */
  lemma NoticeIssued(v: View, s: Step, w: View)
    requires Sound(v) && CanTake(v, s) && Follows(v, s, w) && s.Release?
    ensures |w.notices| == |v.notices| + 1
    ensures var n := w.notices[|v.notices|];
      && n.address == v.slots[s.slot] && n.error == s.reason
      && (n.fate.Delivered? <==> v.subscribed && s.accepted) && (n.fate.Pooled? <==> v.subscribed && !s.accepted)
      && (n.fate.Dropped? <==> !v.subscribed)
  {
    hide Sound;
  }

  /** A device that gets a slot or a landed answer is owed nothing; an ended session or a landed drain owes none. */
  lemma NothingLeftOwed(v: View, s: Step, w: View)
    requires Sound(v) && CanTake(v, s) && Follows(v, s, w)
    ensures s.Connect? && (s.address in v.slots || 0 in v.slots) ==> !StillOwed(w.notices, s.address)
    ensures s.Answer? && s.accepted ==> !StillOwed(w.notices, s.address)
    ensures s.Session? || (s.Drain? && forall a <- s.each :: a) ==> forall n <- w.notices :: !n.fate.Pooled?
  {
    hide AddressOf, ErrorOf, Apart, PoolValid, Holds;
    if s.Drain? {
      forall k | 0 <= k < |v.notices| && v.notices[k].fate.Pooled?
        ensures Landed(v.pool, v.held, s.each, |v.pool|, k) <== forall a <- s.each :: a
      {
        assert InPool(v.pool, v.held, k);
        var i :| 0 <= i < |v.pool| && v.pool[i] != 0 && v.held[i] == k;
        assert s.each[i] in s.each;
      }
    }
  }

  /** The states of a run, one more than its steps. */
  ghost predicate History(views: seq<View>, steps: seq<Step>) {
    && |views| == |steps| + 1
    && (forall t :: 0 <= t < |views| ==> Sound(views[t]))
    && views[0].notices == []
    && forall t :: 0 <= t < |steps| ==> Follows(views[t], steps[t], views[t + 1])
  }

  /** Every notice that ended did so at some step of the run, and for the cause its fate names. */
  lemma {:induction false} EveryEndHasItsCause(views: seq<View>, steps: seq<Step>, k: nat, n: Notice) returns (t: nat)
    requires History(views, steps) && Ended(views[|steps|].notices, k, n)
    ensures t < |steps| && CanTake(views[t], steps[t]) && Cause(views[t], steps[t], k, n)
    decreases |steps|
  {
    hide Sound, CanTake, Follows, Cause;
    var m := |steps| - 1;
    if Ended(views[m].notices, k, n) {
      t := EveryEndHasItsCause(views[..m + 1], steps[..m], k, n);
    } else {
      t := m;
      EndedByCause(views[m], steps[m], views[m + 1], k, n);
    }
  }

  /**
   * Every run from an empty proxy, a step that cannot happen being passed over: no device has two slots, the message
   * lists the slots and counts the free ones, the pool owes at most one disconnect per device and none to a device
   * that holds a slot, and a notice not settled yet is in the pool under its device with its reason. `views` is what
   * the steps found, and each step accounts for every notice.
   */
  method Run(count: nat, steps: seq<Step>) returns (p: BluetoothProxy, ghost views: seq<View>)
    requires count > 0
    ensures fresh(p) && p.slots.Length == count
    ensures OnePerDevice(p.slots[..]) && Accounted(p.slots[..], p.listed[..], p.free)
    ensures PoolValid(p.pool[..]) && Apart(p.pool[..], p.slots[..])
    ensures forall n <- p.notices :: n.fate.Pooled? ==> OwedAs(p.pool[..], n)
    ensures History(views, steps) && views[|steps|] == Look(p)
  {
    p := new BluetoothProxy(count);
    SoundNow(p);
    assert Look(p).notices == [];
    hide BluetoothProxy.Valid, Sound, Follows, OnePerDevice, Accounted, PoolValid, Apart;
    views := TakeAll(p, steps);
    SoundNow(p);
    SoundFacts(p);
    EveryOwedIsPooled(Look(p));
  }

  method TakeAll(p: BluetoothProxy, steps: seq<Step>) returns (ghost views: seq<View>)
    requires p.Valid() && Sound(Look(p)) && p.notices == []
    modifies p, p.slots, p.listed, p.pool
    ensures p.Valid() && History(views, steps) && views[|steps|] == Look(p)
  {
    hide BluetoothProxy.Valid, Sound, Follows;
    views := [Look(p)];
    var i := 0;
    assert steps[..0] == [];
    while i < |steps|
      invariant i <= |steps| && p.Valid() && History(views, steps[..i]) && views[i] == Look(p)
    {
      hide History;
      TakeOrPass(p, steps[i]);
      SoundNow(p);
      Lengthen(views, steps, i, Look(p));
      views := views + [Look(p)];
      i := i + 1;
    }
    assert steps[..i] == steps;
  }

  lemma SoundFacts(p: BluetoothProxy)
    requires p.Valid()
    ensures OnePerDevice(p.slots[..]) && Accounted(p.slots[..], p.listed[..], p.free)
    ensures PoolValid(p.pool[..]) && Apart(p.pool[..], p.slots[..])
  {
  }

  lemma EveryOwedIsPooled(v: View)
    requires Sound(v)
    ensures forall n <- v.notices :: n.fate.Pooled? ==> OwedAs(v.pool, n)
  {
    hide PoolValid, Apart, AddressOf, ErrorOf;
    forall n <- v.notices | n.fate.Pooled? ensures OwedAs(v.pool, n) {
      var k :| 0 <= k < |v.notices| && v.notices[k] == n;
      assert InPool(v.pool, v.held, k);
    }
  }

  method TakeOrPass(p: BluetoothProxy, s: Step)
    requires p.Valid()
    modifies p, p.slots, p.listed, p.pool
    ensures p.Valid() && Sound(old(Look(p))) && Follows(old(Look(p)), s, Look(p))
  {
    SoundNow(p);
    if Possible(p.slots[..], p.pool.Length, p.subscribed, s) { Take(p, s); }
  }

  lemma SoundNow(p: BluetoothProxy)
    requires p.Valid()
    ensures Sound(Look(p))
  {
  }

  lemma Lengthen(views: seq<View>, steps: seq<Step>, i: nat, w: View)
    requires i < |steps| && History(views, steps[..i]) && Sound(w) && Follows(views[i], steps[i], w)
    ensures History(views + [w], steps[..i + 1])
  {
    hide Sound, Follows;
  }

  lemma EmptyPool(pool: seq<nat>, held: seq<int>, notices: seq<Notice>, slots: seq<nat>)
    requires |held| == |pool| && forall i :: 0 <= i < |pool| ==> pool[i] == 0
    requires forall k :: 0 <= k < |notices| ==> !notices[k].fate.Pooled?
    ensures PoolValid(pool) && Holds(pool, held, notices) && NoneLost(pool, held, notices, -1) && Apart(pool, slots)
  {
  }

  lemma LessLost(pool: seq<nat>, held: seq<int>, notices: seq<Notice>, id: int)
    requires |held| == |pool| && NoneLost(pool, held, notices, -1)
    ensures NoneLost(pool, held, notices, id)
  {
    hide InPool;
  }

  /** Freeing a slot leaves the pool apart from the slots, though it may now owe the freed device. */
  lemma FreedApart(slots: seq<nat>, i: nat, before: seq<nat>, after: seq<nat>)
    requires i < |slots| && slots[i] != 0 && OnePerDevice(slots) && Apart(before, slots)
    requires forall a :: a != slots[i] ==> Owes(after, a) ==> Owes(before, a)
    ensures Apart(after, slots[i := 0])
  {
    hide Owes;
  }

  lemma ClearContinues(pool: seq<nat>, held: seq<int>, notices: seq<Notice>, address: nat, fate: Fate)
    requires Holds(pool, held, notices)
    ensures Continues(notices, ClearedNotices(pool, held, notices, address, fate))
  {
    hide AddressOf, ErrorOf, Matching;
  }

  lemma EvictContinues(pool: seq<nat>, held: seq<int>, notices: seq<Notice>, address: nat, id: nat)
    requires pool != [] && Holds(pool, held, notices)
    ensures Continues(notices, Evicted(pool, held, notices, address, id))
  {
    hide AddressOf, ErrorOf, Place;
  }

  lemma {:induction false} AllZero(s: seq<nat>)
    requires forall i :: 0 <= i < |s| ==> s[i] == 0
    ensures multiset(s)[0] == |s|
    decreases |s|
  {
    if s != [] {
      AllZero(s[..|s| - 1]);
      assert s == s[..|s| - 1] + [s[|s| - 1]];
    }
  }
}
