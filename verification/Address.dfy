/**
 * Device addresses: six octets in either order, and the 48-bit number the API speaks (ble_device.h, ble_device.cpp,
 * nimble_gattc.cpp).
 */
module Address {
  import opened Basics
  import opened Uuid

  type Mac = m: seq<Byte> | |m| == 6 witness seq(6, _ => 0)

  function Reversed(m: Mac): Mac { [m[5], m[4], m[3], m[2], m[1], m[0]] }

  lemma ReversedAt(m: Mac, k: nat)
    requires k < 6
    ensures Reversed(m)[k] == m[5 - k]
  {
  }

  lemma {:induction false} PackSnoc(b: seq<Byte>, x: Byte)
    ensures Pack(b + [x]) == Pack(b) + x as int * Pow256(|b|)
  {
    if b == [] {
      assert [] + [x] == [x] && [x][1..] == [];
    } else {
      PackSnoc(b[1..], x);
      assert (b + [x])[1..] == b[1..] + [x] && (b + [x])[0] == b[0];
      Distribute(Pack(b[1..]), x, Pow256(|b| - 1));
    }
  }

  lemma Distribute(p: nat, x: nat, w: nat)
    ensures 256 * (p + x * w) == 256 * p + x * (256 * w)
  {
  }

  lemma SixOctets()
    ensures Pow256(6) == 0x1_0000_0000_0000
  {
    assert Pow256(3) == 0x100_0000;
  }

  /** Controller order to number; the octets' bits do not overlap, so or-ing them in adds them up. */
  method MacLsbFirstToUint64(mac: Mac) returns (addr: nat)
    ensures addr == Pack(mac) && addr < 0x1_0000_0000_0000
  {
    addr := 0;
    var weight := 1;
    for i := 0 to 6
      invariant addr == Pack(mac[..i]) && weight == Pow256(i)
    {
      PackSnoc(mac[..i], mac[i]);
      assert mac[..i + 1] == mac[..i] + [mac[i]];
      addr := addr + mac[i] as int * weight;
      weight := 256 * weight;
    }
    assert mac[..6] == mac;
    PackBound(mac);
    SixOctets();
  }

  /** The same number from the printable order a parsed device keeps. */
  method AddressUint64(address: Mac) returns (addr: nat)
    ensures addr == Pack(Reversed(address))
  {
    var lsb := Reversed(address);
    addr := MacLsbFirstToUint64(lsb);
  }

  /** Number to controller order; bits above the 48th are ignored. */
  method Uint64ToMacLsbFirst(address: nat) returns (out: Mac)
    ensures out == LowOctets(address, 6)
  {
    var octets: seq<Byte> := [];
    var rest := address;
    for i := 0 to 6
      invariant |octets| == i && LowOctets(address, 6) == octets + LowOctets(rest, 6 - i)
    {
      octets := octets + [(rest % 256) as Byte];
      rest := rest / 256;
    }
    out := octets;
  }

  method Uint64ToMacMsbFirst(address: nat) returns (out: Mac)
    ensures out == Reversed(LowOctets(address, 6))
  {
    var lsb := Uint64ToMacLsbFirst(address);
    out := Reversed(lsb);
  }

  /**
   * The number stands for the device: no other six octets share it, and both unpackings give the device's octets
   * back.
   */
  lemma AddressNamesDevice(mac: Mac, other: Mac)
    ensures Pack(mac) < 0x1_0000_0000_0000
    ensures Pack(mac) == Pack(other) <==> mac == other
    ensures LowOctets(Pack(mac), 6) == mac
  {
    PackBound(mac);
    SixOctets();
    OctetsOfPack(mac);
    OctetsOfPack(other);
  }

  /** And every 48-bit number is some device's. */
  lemma EveryAddressIsSomeDevice(address: nat)
    requires address < 0x1_0000_0000_0000
    ensures Pack(LowOctets(address, 6)) == address
  {
    SixOctets();
    PackLowOctets(address, 6);
  }

  /**
   * A device that is seen, reported to a client by its number and then asked for by it is the device that is
   * connected to.
   */
  method ReportThenConnect(mac: Mac) returns (peer: Mac)
    ensures peer == mac
  {
    var address := MacLsbFirstToUint64(mac);
    peer := Uint64ToMacLsbFirst(address);
    AddressNamesDevice(mac, mac);
  }
}
