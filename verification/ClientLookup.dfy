/**
 * How the stand-alone client finds a characteristic in a discovered table
 * (components/esp32_ble_client/ble_client_base.cpp).
 */
module ClientLookup {
  import Gatt
  import opened Uuid

  datatype Found = NotFound | At(valueHandle: nat, properties: nat)

  /** The first characteristic of a service, from number `k` on, with the given UUID. */
  function InService(cs: seq<Gatt.ChrView>, chr: Gatt.Uuid, k: nat): Found
    requires k <= |cs|
    decreases |cs| - k
  {
    if k == |cs| then NotFound
    else if Equal(cs[k].uuid, chr) then At(cs[k].valueHandle, cs[k].properties)
    else InService(cs, chr, k + 1)
  }

  /** The same over all services with the service's UUID, in the order of the tree. */
  function InTree(v: seq<Gatt.SvcView>, svc: Gatt.Uuid, chr: Gatt.Uuid, i: nat): Found
    requires i <= |v|
    decreases |v| - i
  {
    if i == |v| then NotFound
    else
      var here := if Equal(v[i].uuid, svc) then InService(v[i].characteristics, chr, 0) else NotFound;
      if here.At? then here else InTree(v, svc, chr, i + 1)
  }

  ghost predicate Has(v: seq<Gatt.SvcView>, svc: Gatt.Uuid, chr: Gatt.Uuid, i: int, k: int) {
    0 <= i < |v| && Equal(v[i].uuid, svc) && 0 <= k < |v[i].characteristics| && Equal(v[i].characteristics[k].uuid, chr)
  }

  lemma {:induction false} InServiceFinds(cs: seq<Gatt.ChrView>, chr: Gatt.Uuid, k: nat) returns (j: nat)
    requires k <= |cs|
    ensures k <= j <= |cs| && forall x :: k <= x < j ==> !Equal(cs[x].uuid, chr)
    ensures if j < |cs| then Equal(cs[j].uuid, chr) && InService(cs, chr, k) == At(cs[j].valueHandle, cs[j].properties)
      else InService(cs, chr, k) == NotFound
    decreases |cs| - k
  {
    if k == |cs| || Equal(cs[k].uuid, chr) { j := k; } else { j := InServiceFinds(cs, chr, k + 1); }
  }

  /** Something is found exactly when the tree has it, and then it is the first such characteristic of the tree. */
  lemma {:induction false} InTreeFinds(v: seq<Gatt.SvcView>, svc: Gatt.Uuid, chr: Gatt.Uuid, i: nat)
    returns (a: int, k: int)
    requires i <= |v|
    ensures InTree(v, svc, chr, i).At? ==>
      && a >= i && Has(v, svc, chr, a, k)
      && InTree(v, svc, chr, i) == At(v[a].characteristics[k].valueHandle, v[a].characteristics[k].properties)
      && forall x, y {:trigger Has(v, svc, chr, x, y)} ::
           x >= i && Has(v, svc, chr, x, y) ==> a < x || (a == x && k <= y)
    ensures InTree(v, svc, chr, i).NotFound? ==>
      forall x, y {:trigger Has(v, svc, chr, x, y)} :: x >= i ==> !Has(v, svc, chr, x, y)
    decreases |v| - i
  {
    a, k := i, 0;
    if i < |v| {
      var j := InServiceFinds(v[i].characteristics, chr, 0);
      if Equal(v[i].uuid, svc) && j < |v[i].characteristics| {
        k := j;
      } else {
        a, k := InTreeFinds(v, svc, chr, i + 1);
      }
    }
  }

  lemma ViewAt(t: Gatt.Table, s: nat, k: nat)
    requires Gatt.InBounds(t) && s < |t.services| && k < t.services[s].characteristicCount
    ensures var service, v := t.services[s], Gatt.Unflatten(t);
      && service.firstCharacteristic + k < |t.characteristics|
      && |v[s].characteristics| == service.characteristicCount
      && var c := t.characteristics[service.firstCharacteristic + k];
         v[s].characteristics[k].uuid == c.uuid && v[s].characteristics[k].valueHandle == c.valueHandle
         && v[s].characteristics[k].properties == c.properties
  {
    var service := t.services[s];
    assert Gatt.ServiceInBounds(t, service);
    assert Gatt.Slice(t.characteristics, service.firstCharacteristic, service.characteristicCount)[k]
        == t.characteristics[service.firstCharacteristic + k];
  }

  lemma ViewOf(t: Gatt.Table, s: nat)
    requires Gatt.InBounds(t) && s < |t.services|
    ensures var v := Gatt.Unflatten(t)[s];
      v.uuid == t.services[s].uuid && |v.characteristics| == t.services[s].characteristicCount
  {
    assert Gatt.ServiceInBounds(t, t.services[s]);
  }

  /** The scan of one service's index range. */
  method FindInService(t: Gatt.Table, s: nat, chr: Gatt.Uuid) returns (r: Found)
    requires Gatt.InBounds(t) && s < |t.services| && s < |Gatt.Unflatten(t)|
    ensures r == InService(Gatt.Unflatten(t)[s].characteristics, chr, 0)
  {
    hide Gatt.Unflatten, Gatt.InBounds, Equal;
    ghost var own := Gatt.Unflatten(t)[s].characteristics;
    ViewOf(t, s);
    var service := t.services[s];
    var c := service.firstCharacteristic;
    while c < service.firstCharacteristic + service.characteristicCount
      invariant service.firstCharacteristic <= c <= service.firstCharacteristic + service.characteristicCount
      invariant InService(own, chr, 0) == InService(own, chr, c - service.firstCharacteristic)
    {
      ViewAt(t, s, c - service.firstCharacteristic);
      var found := t.characteristics[c];
      if Equal(found.uuid, chr) { return At(found.valueHandle, found.properties); }
      c := c + 1;
    }
    r := NotFound;
  }

  /** The lookup in the flat table is the lookup in the tree it stands for, and never leaves the table. */
  method GetCharacteristic(t: Gatt.Table, svc: Gatt.Uuid, chr: Gatt.Uuid) returns (r: Found)
    requires Gatt.InBounds(t)
    ensures r == InTree(Gatt.Unflatten(t), svc, chr, 0)
  {
    ghost var v := Gatt.Unflatten(t);
    assert |v| == |t.services|;
    hide Gatt.Unflatten, Gatt.InBounds, Equal, InService;
    for s := 0 to |t.services|
      invariant InTree(v, svc, chr, 0) == InTree(v, svc, chr, s)
    {
      var service := t.services[s];
      ViewOf(t, s);
      if !Equal(service.uuid, svc) { continue; }
      r := FindInService(t, s, chr);
      if r.At? { return; }
    }
    r := NotFound;
  }
}
