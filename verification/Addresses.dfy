/** IP addresses and networks as Python's ipaddress module has them: numbers of 32 or 128 bits. */
module Addresses {
  import opened Numbers

  datatype Ip = Ip(v6: bool, value: nat)

  datatype Net = Net(v6: bool, address: nat, prefix: nat)

  function Bits(v6: bool): nat {
    if v6 then 128 else 32
  }

  /** How many addresses a prefix length leaves. */
  function Size(v6: bool, prefix: nat): (size: nat)
    ensures size > 0
  {
    if prefix >= Bits(v6) then 1 else Pow2(Bits(v6) - prefix)
  }

  lemma SizeDoubles(v6: bool, prefix: nat)
    requires 0 < prefix <= Bits(v6)
    ensures Size(v6, prefix - 1) == 2 * Size(v6, prefix)
  {
    var k := Bits(v6) - prefix;
    assert Pow2(k + 1) == 2 * Pow2(k);
  }

  /** `ip in net`. */
  predicate Holds(n: Net, ip: Ip) {
    n.v6 == ip.v6 && ip.value / Size(n.v6, n.prefix) == n.address / Size(n.v6, n.prefix)
  }

  lemma DivTwice(x: nat, m: nat)
    requires m > 0
    ensures x / (2 * m) == x / m / 2
  {
    var q := x / m;
    assert x == q * m + x % m;
    assert q == 2 * (q / 2) + q % 2;
    assert q * m == (q / 2) * (2 * m) + (q % 2) * m;
    assert (q % 2) * m <= m;
    DivUnique(x, 2 * m, q / 2, (q % 2) * m + x % m);
  }

  /** Two addresses in one network of a prefix length are in one of every shorter length. */
  lemma {:induction false} WiderHoldsToo(v6: bool, a: nat, b: nat, longer: nat, shorter: nat)
    requires shorter <= longer && a / Size(v6, longer) == b / Size(v6, longer)
    ensures a / Size(v6, shorter) == b / Size(v6, shorter)
    decreases longer - shorter
  {
    if shorter < longer {
      if longer <= Bits(v6) {
        SizeDoubles(v6, longer);
        DivTwice(a, Size(v6, longer));
        DivTwice(b, Size(v6, longer));
      }
      WiderHoldsToo(v6, a, b, longer - 1, shorter);
    }
  }
}
