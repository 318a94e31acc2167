/** KEA-DB-CLIENTS (scripts/keyvault_views/kea_db_clients.py): the smallest prefix that holds every
    address given, widened one bit at a time. */
module Supernet {
  import opened Addresses
  import opened Numbers
  import opened Text

  const WIDEST: nat := 30

  /** `ip_network(address)`. */
  function Single(a: Ip): Net {
    Net(a.v6, a.value, Bits(a.v6))
  }

  /** The address with its low bits cleared. */
  function Floor(x: nat, m: nat): (y: nat)
    requires m > 0
    ensures y / m == x / m && y % m == 0
  {
    DivUnique((x / m) * m, m, x / m, 0);
    (x / m) * m
  }

  /** `net.supernet()`; a /0 has no wider one. */
  function Wider(n: Net): Net {
    if n.prefix == 0 then n
    else
      var size := Size(n.v6, n.prefix - 1);
      Net(n.v6, Floor(n.address, size), n.prefix - 1)
  }

  predicate HoldsAll(n: Net, addresses: seq<Ip>) {
    forall i :: 0 <= i < |addresses| ==> Holds(n, addresses[i])
  }

  /** A network around an address: its own prefix of that length, in canonical form. */
  predicate Around(n: Net, a: Ip) {
    && n.v6 == a.v6 && n.prefix <= Bits(a.v6)
    && n.address / Size(n.v6, n.prefix) == a.value / Size(n.v6, n.prefix)
    && n.address % Size(n.v6, n.prefix) == 0
  }

  lemma WiderAround(n: Net, a: Ip)
    requires Around(n, a) && n.prefix > 0
    ensures Around(Wider(n), a)
  {
    var size := Size(n.v6, n.prefix);
    SizeDoubles(n.v6, n.prefix);
    DivTwice(n.address, size);
    DivTwice(a.value, size);
  }

  /** At /0 every address of the family is in. */
  lemma AllInTheWidest(n: Net, a: Ip, b: Ip)
    requires Around(n, a) && n.prefix == 0 && a.v6 == b.v6 && b.value < Pow2(Bits(b.v6)) && a.value < Pow2(Bits(a.v6))
    ensures Holds(n, b)
  {
    DivUnique(a.value, Pow2(Bits(a.v6)), 0, a.value);
    DivUnique(b.value, Pow2(Bits(b.v6)), 0, b.value);
  }

  /** Every address is of one family and in its range. */
  predicate SameFamily(addresses: seq<Ip>) {
    forall i :: 0 <= i < |addresses| ==>
      addresses[i].v6 == addresses[0].v6 && addresses[i].value < Pow2(Bits(addresses[i].v6))
  }

  /** Where any network of its length holds them all, the one found so far does. */
  lemma AllOfThisLength(net: Net, addresses: seq<Ip>, n: Net)
    requires addresses != [] && SameFamily(addresses) && Around(net, addresses[0])
    requires HoldsAll(n, addresses) && n.prefix == net.prefix
    ensures HoldsAll(net, addresses)
  {
    assert Holds(n, addresses[0]);
    forall i | 0 <= i < |addresses| ensures Holds(net, addresses[i]) {
      assert Holds(n, addresses[i]);
    }
  }

  lemma NotYetTheWidest(net: Net, addresses: seq<Ip>)
    requires addresses != [] && SameFamily(addresses) && Around(net, addresses[0]) && !HoldsAll(net, addresses)
    ensures net.prefix > 0
  {
    if net.prefix == 0 {
      forall i | 0 <= i < |addresses| ensures Holds(net, addresses[i]) {
        AllInTheWidest(net, addresses[0], addresses[i]);
      }
    }
  }

  /** The loop: for addresses of one family it ends, within one step per bit, at a network that holds
      them all, and no network of a longer prefix does. */
  method Smallest(addresses: seq<Ip>) returns (net: Net, ghost steps: nat)
    requires addresses != [] && SameFamily(addresses)
    ensures HoldsAll(net, addresses) && Around(net, addresses[0])
    ensures forall n: Net :: net.prefix < n.prefix <= Bits(addresses[0].v6) ==> !HoldsAll(n, addresses)
    ensures steps == Bits(addresses[0].v6) - net.prefix
  {
    var first := addresses[0];
    net := Single(first);
    steps := 0;
    while !HoldsAll(net, addresses)
      invariant Around(net, first) && steps == Bits(first.v6) - net.prefix
      invariant forall n: Net :: net.prefix < n.prefix <= Bits(first.v6) ==> !HoldsAll(n, addresses)
      decreases net.prefix
    {
      NotYetTheWidest(net, addresses);
      WiderAround(net, first);
      forall n: Net | n.prefix == net.prefix ensures !HoldsAll(n, addresses) {
        if HoldsAll(n, addresses) {
          AllOfThisLength(net, addresses, n);
        }
      }
      net := Wider(net);
      steps := steps + 1;
    }
  }

  /** All addresses agree once divided by the size of a prefix length. */
  predicate AgreeAt(addresses: seq<Ip>, prefix: nat)
    requires addresses != []
  {
    forall i :: 0 <= i < |addresses| ==>
      addresses[i].value / Size(addresses[0].v6, prefix) == addresses[0].value / Size(addresses[0].v6, prefix)
  }

  /** build, once it has its addresses: the network, or nothing when it would be wider than /30. */
  method Build(addresses: seq<Ip>) returns (r: Option<Net>)
    requires addresses != [] && SameFamily(addresses)
    ensures r.Some? <==> AgreeAt(addresses, WIDEST)
    ensures r.Some? ==> HoldsAll(r.value, addresses) && r.value.prefix >= WIDEST
  {
    var net, _ := Smallest(addresses);
    AcceptedExactlyWhen(addresses, net);
    r := if net.prefix < WIDEST then None else Some(net);
  }

  lemma AgreeingAreHeld(addresses: seq<Ip>, prefix: nat)
    requires addresses != [] && SameFamily(addresses) && AgreeAt(addresses, prefix)
    ensures HoldsAll(Net(addresses[0].v6, addresses[0].value, prefix), addresses)
  {
  }

  /** A smallest network is as narrow as a prefix length exactly when the addresses agree there. */
  lemma AcceptedExactlyWhen(addresses: seq<Ip>, net: Net)
    requires addresses != [] && SameFamily(addresses) && HoldsAll(net, addresses) && Around(net, addresses[0])
    requires forall n: Net :: net.prefix < n.prefix <= Bits(addresses[0].v6) ==> !HoldsAll(n, addresses)
    ensures net.prefix >= WIDEST <==> AgreeAt(addresses, WIDEST)
  {
    var first := addresses[0];
    if net.prefix >= WIDEST {
      forall i | 0 <= i < |addresses|
        ensures addresses[i].value / Size(first.v6, WIDEST) == first.value / Size(first.v6, WIDEST)
      {
        assert Holds(net, addresses[i]);
        WiderHoldsToo(first.v6, addresses[i].value, first.value, net.prefix, WIDEST);
      }
    }
    if AgreeAt(addresses, WIDEST) && net.prefix < WIDEST {
      AgreeingAreHeld(addresses, WIDEST);
    }
  }

  /** For two IPv4 addresses: the same quarter of four. */
  lemma FourAddresses(a: Ip, b: Ip)
    requires !a.v6 && !b.v6
    ensures AgreeAt([a, b], WIDEST) <==> a.value / 4 == b.value / 4
  {
    assert Size(false, WIDEST) == 4;
    var both := [a, b];
    assert both[0] == a && both[1] == b;
  }

  function WiderBy(n: Net, steps: nat): Net {
    if steps == 0 then n else Wider(WiderBy(n, steps - 1))
  }

  /** With one address of each family no step of the loop ever ends it. */
  lemma {:induction false} MixedFamiliesNeverMeet(a: Ip, b: Ip, steps: nat)
    requires a.v6 != b.v6
    ensures WiderBy(Single(a), steps).v6 == a.v6 && !HoldsAll(WiderBy(Single(a), steps), [a, b])
  {
    if steps > 0 {
      MixedFamiliesNeverMeet(a, b, steps - 1);
    }
    assert [a, b][1] == b;
  }
}
