/** NetBox's DNS names (scripts/netbox_seed.py): which name each device's or VM's address should
    carry, and which ones the sync writes. */
module DnsNames {
  import opened Addresses
  import opened Text

  // ---- dns_label -----------------------------------------------------------------------------------

  predicate LabelChar(c: char) {
    'a' <= c <= 'z' || '0' <= c <= '9' || c == '-'
  }

  /** `re.sub(r"[^a-z0-9-]+", "-", s)`: each run of other characters becomes one hyphen. */
  function Hyphened(s: string, inRun: bool): string {
    if s == "" then ""
    else if LabelChar(s[0]) then [s[0]] + Hyphened(s[1..], false)
    else (if inRun then "" else "-") + Hyphened(s[1..], true)
  }

  /** `strip("-")`. */
  function StripHyphens(s: string): string {
    if s != "" && s[0] == '-' then StripHyphens(s[1..])
    else if s != "" && s[|s| - 1] == '-' then StripHyphens(s[..|s| - 1])
    else s
  }

  function DnsLabel(name: string): string {
    StripHyphens(Hyphened(Lower(name), false))
  }

  predicate IsLabel(s: string) {
    && (forall i :: 0 <= i < |s| ==> LabelChar(s[i]))
    && (s != "" ==> s[0] != '-' && s[|s| - 1] != '-')
  }

  lemma {:induction false} HyphenedChars(s: string, inRun: bool)
    ensures forall i :: 0 <= i < |Hyphened(s, inRun)| ==> LabelChar(Hyphened(s, inRun)[i])
  {
    if s != "" {
      HyphenedChars(s[1..], !LabelChar(s[0]));
    }
  }

  lemma {:induction false} StripHyphensLabels(s: string)
    requires forall i :: 0 <= i < |s| ==> LabelChar(s[i])
    ensures IsLabel(StripHyphens(s))
  {
    if s != "" && s[0] == '-' {
      StripHyphensLabels(s[1..]);
    } else if s != "" && s[|s| - 1] == '-' {
      StripHyphensLabels(s[..|s| - 1]);
    }
  }

  /** Lower case letters, digits and hyphens, with none at either end. */
  lemma DnsLabelIsLabel(name: string)
    ensures IsLabel(DnsLabel(name))
  {
    HyphenedChars(Lower(name), false);
    StripHyphensLabels(Hyphened(Lower(name), false));
  }

  lemma {:induction false} HyphenedKeeps(s: string, inRun: bool)
    requires forall i :: 0 <= i < |s| ==> LabelChar(s[i])
    ensures Hyphened(s, inRun) == s
  {
    if s != "" {
      HyphenedKeeps(s[1..], false);
    }
  }

  /** A label is its own label. */
  lemma DnsLabelTwice(name: string)
    ensures DnsLabel(DnsLabel(name)) == DnsLabel(name)
  {
    var l := DnsLabel(name);
    DnsLabelIsLabel(name);
    assert Lower(l) == l;
    HyphenedKeeps(l, false);
  }

  lemma {:induction false} HyphenedJoin(a: string, b: string, inRun: bool)
    requires a != "" && forall i :: 0 <= i < |a| ==> LabelChar(a[i])
    ensures Hyphened(a + b, inRun) == a + Hyphened(b, false)
  {
    assert (a + b)[1..] == a[1..] + b;
    if |a| > 1 { HyphenedJoin(a[1..], b, false); } else { assert a[1..] + b == b; }
  }

  lemma {:induction false} HyphenedRun(x: string, b: string, inRun: bool)
    requires forall i :: 0 <= i < |x| ==> !LabelChar(x[i])
    ensures Hyphened(x + b, inRun) == (if x == "" || inRun then "" else "-") + Hyphened(b, inRun || x != "")
  {
    if x == "" {
      assert x + b == b;
    } else {
      assert (x + b)[1..] == x[1..] + b;
      HyphenedRun(x[1..], b, true);
    }
  }

  lemma LabelIsStripped(s: string)
    requires IsLabel(s)
    ensures StripHyphens(s) == s
  {
  }

  /** A run of other characters between two labels becomes one hyphen, and at either end nothing. */
  lemma RunBecomesOneHyphen(a: string, x: string, b: string)
    requires a != "" && b != "" && x != "" && IsLabel(Lower(a)) && IsLabel(Lower(b))
    requires forall i :: 0 <= i < |x| ==> !LabelChar(LowerChar(x[i]))
    ensures DnsLabel(a + x + b) == Lower(a) + "-" + Lower(b)
    ensures DnsLabel(a) == Lower(a) && DnsLabel(x + a) == Lower(a) && DnsLabel(a + x) == Lower(a)
  {
    var la, lx, lb := Lower(a), Lower(x), Lower(b);
    LowerConcat(a + x, b);
    LowerConcat(a, x);
    LowerConcat(x, a);
    assert la + lx + lb == la + (lx + lb);
    HyphenedJoin(la, lx + lb, false);
    HyphenedRun(lx, lb, false);
    HyphenedKeeps(lb, true);
    assert Hyphened(la + lx + lb, false) == la + ("-" + lb) == la + "-" + lb;
    LabelIsStripped(la + "-" + lb);
    HyphenedKeeps(la, false);
    LabelIsStripped(la);
    RunAtAnEnd(la, lx);
  }

  lemma RunAtAnEnd(a: string, x: string)
    requires a != "" && x != "" && IsLabel(a) && forall i :: 0 <= i < |x| ==> !LabelChar(x[i])
    ensures StripHyphens(Hyphened(x + a, false)) == a && StripHyphens(Hyphened(a + x, false)) == a
  {
    HyphenedRun(x, a, false);
    HyphenedKeeps(a, true);
    assert ("-" + a)[1..] == a;
    LabelIsStripped(a);
    HyphenedJoin(a, x, false);
    assert x + "" == x;
    HyphenedRun(x, "", false);
    assert Hyphened(a + x, false) == a + "-";
    assert (a + "-")[..|a|] == a;
  }

  // ---- the data --------------------------------------------------------------------------------------

  /** What an address is assigned to. */
  datatype Owner = Device(id: int, name: string) | Vm(id: int, name: string)

  /** A NetBox address; no owner when it is assigned to nothing, or to neither kind. */
  datatype Address = Address(id: int, ip: Ip, owner: Option<Owner>, dnsName: string)

  /** A prefix, with the zone its custom field names ("" for none). */
  datatype Prefix = Prefix(net: Net, zone: string)

  /** A VM or a device, with its status. */
  datatype Object = Object(id: int, status: Option<string>)

  /** What the status lists and the IoT inventory make of the objects. */
  datatype Site = Site(vms: seq<Object>, devices: seq<Object>, iot: set<int>)

  predicate Decommissioning(objects: seq<Object>, id: int) {
    exists o :: o in objects && o.id == id && o.status == Some("decommissioning")
  }

  predicate InUse(o: Object) {
    o.status == Some("active") || o.status == Some("staged")
  }

  predicate IdleAmong(objects: seq<Object>, id: int) {
    exists o :: o in objects && o.id == id && !InUse(o) && o.status != Some("decommissioning")
  }

  /** Left exactly as it is: decommissioning, or an IoT device. */
  predicate Held(s: Site, o: Owner) {
    match o
    case Vm(id, _) => Decommissioning(s.vms, id)
    case Device(id, _) => Decommissioning(s.devices, id) || id in s.iot
  }

  predicate Idle(s: Site, o: Owner) {
    match o
    case Vm(id, _) => IdleAmong(s.vms, id)
    case Device(id, _) => IdleAmong(s.devices, id) && id !in s.iot
  }

  predicate ObjectsOnce(objects: seq<Object>) {
    forall x, y :: x in objects && y in objects && x.id == y.id ==> x == y
  }

  /** An object's status and the IoT inventory decide: decommissioning or IoT is left alone, active or
      staged is in use, anything else is idle. */
  lemma StatusDecides(s: Site, o: Owner, x: Object)
    requires ObjectsOnce(s.vms) && ObjectsOnce(s.devices)
    requires x.id == o.id && x in if o.Vm? then s.vms else s.devices
    ensures var iot := o.Device? && o.id in s.iot;
      && (Held(s, o) <==> iot || x.status == Some("decommissioning"))
      && (Idle(s, o) <==> !iot && x.status !in [Some("active"), Some("staged"), Some("decommissioning")])
  {
  }

  // ---- wanted_dns_names ----------------------------------------------------------------------------------

  /** The first of the longest prefixes that name a zone and hold the address. */
  function Best(prefixes: seq<Prefix>, ip: Ip): Option<Prefix> {
    if prefixes == [] then None
    else
      var more, last := Best(prefixes[..|prefixes| - 1], ip), prefixes[|prefixes| - 1];
      if last.zone != "" && Holds(last.net, ip) && (more.None? || last.net.prefix > more.value.net.prefix)
        then Some(last) else more
  }

  predicate Names(p: Prefix, ip: Ip) {
    p.zone != "" && Holds(p.net, ip)
  }

  /** A prefix that names a zone and holds the address, and none longer does. */
  predicate MostSpecificZone(prefixes: seq<Prefix>, ip: Ip, p: Prefix) {
    p in prefixes && Names(p, ip) && forall q :: q in prefixes && Names(q, ip) ==> q.net.prefix <= p.net.prefix
  }

  lemma {:induction false} BestIsMostSpecific(prefixes: seq<Prefix>, ip: Ip)
    ensures match Best(prefixes, ip)
      case None => forall p :: p in prefixes ==> !Names(p, ip)
      case Some(b) => MostSpecificZone(prefixes, ip, b)
  {
    if prefixes != [] {
      var more, last := prefixes[..|prefixes| - 1], prefixes[|prefixes| - 1];
      BestIsMostSpecific(more, ip);
      assert prefixes == more + [last];
    }
  }

  /** The name an address's object would have in its zone; None for no object, zone or label. */
  function NameFor(prefixes: seq<Prefix>, a: Address): Option<string> {
    if a.owner.None? || DnsLabel(a.owner.value.name) == "" then None
    else match Best(prefixes, a.ip)
      case None => None
      case Some(p) => Some(DnsLabel(a.owner.value.name) + "." + p.zone)
  }

  /** The first of the longest prefixes that name a zone and hold the address is the j-th. */
  predicate FirstLongest(prefixes: seq<Prefix>, ip: Ip, j: nat) {
    && j < |prefixes| && Names(prefixes[j], ip)
    && (forall k :: 0 <= k < |prefixes| && Names(prefixes[k], ip) ==> prefixes[k].net.prefix <= prefixes[j].net.prefix)
    && (forall k :: 0 <= k < j && Names(prefixes[k], ip) ==> prefixes[k].net.prefix < prefixes[j].net.prefix)
  }

  lemma {:induction false} BestIsFirst(prefixes: seq<Prefix>, ip: Ip) returns (j: nat)
    ensures if Best(prefixes, ip).None? then forall k :: 0 <= k < |prefixes| ==> !Names(prefixes[k], ip)
            else FirstLongest(prefixes, ip, j) && Best(prefixes, ip) == Some(prefixes[j])
  {
    j := 0;
    if prefixes != [] {
      var more, last := prefixes[..|prefixes| - 1], |prefixes| - 1;
      j := BestIsFirst(more, ip);
      assert forall k :: 0 <= k < |more| ==> more[k] == prefixes[k];
      if Best(prefixes, ip) != Best(more, ip) { j := last; }
    }
  }

  /** The address's object has a label, and this is it in the zone of the most specific prefix. */
  ghost predicate Deserves(prefixes: seq<Prefix>, a: Address, name: string) {
    && a.owner.Some? && DnsLabel(a.owner.value.name) != ""
    && exists j: nat ::
         FirstLongest(prefixes, a.ip, j) && name == DnsLabel(a.owner.value.name) + "." + prefixes[j].zone
  }

  /** Which name an address is given, and that it is given one whenever it can be. */
  lemma NameForExactly(prefixes: seq<Prefix>, a: Address, name: string)
    ensures NameFor(prefixes, a) == Some(name) <==> Deserves(prefixes, a, name)
    ensures NameFor(prefixes, a).None? <==>
      a.owner.None? || DnsLabel(a.owner.value.name) == "" || forall p :: p in prefixes ==> !Names(p, a.ip)
  {
    var j := BestIsFirst(prefixes, a.ip);
    BestIsMostSpecific(prefixes, a.ip);
    if Deserves(prefixes, a, name) {
      var k: nat :|
        FirstLongest(prefixes, a.ip, k) && name == DnsLabel(a.owner.value.name) + "." + prefixes[k].zone;
      assert k == j;
    }
  }

  function WantedFrom(prefixes: seq<Prefix>, skip: Owner -> bool, addresses: seq<Address>): map<int, string> {
    if addresses == [] then map[]
    else
      var more, a := WantedFrom(prefixes, skip, addresses[..|addresses| - 1]), addresses[|addresses| - 1];
      if a.owner.Some? && !skip(a.owner.value) && NameFor(prefixes, a).Some?
        then more[a.id := NameFor(prefixes, a).value] else more
  }

  /** `max(held, key=prefixlen)` over the zones that hold the address. */
  method MostSpecific(prefixes: seq<Prefix>, ip: Ip) returns (best: Option<Prefix>)
    ensures best == Best(prefixes, ip)
  {
    best := None;
    for i := 0 to |prefixes|
      invariant best == Best(prefixes[..i], ip)
    {
      assert prefixes[..i + 1][..i] == prefixes[..i];
      var p := prefixes[i];
      if p.zone != "" && Holds(p.net, ip) {
        if best.None? || p.net.prefix > best.value.net.prefix {
          best := Some(p);
        }
      }
    }
    assert prefixes[..|prefixes|] == prefixes;
  }

  /** wanted_dns_names. */
  method WantedDnsNames(addresses: seq<Address>, prefixes: seq<Prefix>, skip: Owner -> bool)
    returns (out: map<int, string>)
    ensures out == WantedFrom(prefixes, skip, addresses)
  {
    out := map[];
    for i := 0 to |addresses|
      invariant out == WantedFrom(prefixes, skip, addresses[..i])
    {
      assert addresses[..i + 1][..i] == addresses[..i];
      var a := addresses[i];
      if a.owner.Some? && !skip(a.owner.value) {
        var best := MostSpecific(prefixes, a.ip);
        if best.Some? && DnsLabel(a.owner.value.name) != "" {
          out := out[a.id := DnsLabel(a.owner.value.name) + "." + best.value.zone];
        }
      }
    }
    assert addresses[..|addresses|] == addresses;
  }

  // ---- dns_plan --------------------------------------------------------------------------------------------

  /** NetBox's ids are unique. */
  predicate IdsOnce(addresses: seq<Address>) {
    forall i, j :: 0 <= i < j < |addresses| ==> addresses[i].id != addresses[j].id
  }

  lemma {:induction false} WantedIs(prefixes: seq<Prefix>, skip: Owner -> bool, addresses: seq<Address>, i: nat)
    requires IdsOnce(addresses) && i < |addresses|
    ensures var a, w := addresses[i], WantedFrom(prefixes, skip, addresses);
      && (a.id in w <==> a.owner.Some? && !skip(a.owner.value) && NameFor(prefixes, a).Some?)
      && (a.id in w ==> w[a.id] == NameFor(prefixes, a).value)
  {
    var more := addresses[..|addresses| - 1];
    if i < |more| {
      assert more[i] == addresses[i];
      WantedIs(prefixes, skip, more, i);
    } else {
      NotWanted(prefixes, skip, more, addresses[i].id);
    }
  }

  lemma {:induction false} NotWanted(prefixes: seq<Prefix>, skip: Owner -> bool, addresses: seq<Address>, id: int)
    requires forall i :: 0 <= i < |addresses| ==> addresses[i].id != id
    ensures id !in WantedFrom(prefixes, skip, addresses)
  {
    if addresses != [] {
      NotWanted(prefixes, skip, addresses[..|addresses| - 1], id);
    }
  }

  /** What the sync writes to one address: its name where it is in use and hasn't got it, "" where it
      is idle and has the name the sync would have given it, nothing elsewhere. */
  function WriteFor(s: Site, prefixes: seq<Prefix>, a: Address): Option<string> {
    if a.owner.None? || Held(s, a.owner.value) then None
    else match NameFor(prefixes, a)
      case None => None
      case Some(name) =>
        if Idle(s, a.owner.value) then (if a.dnsName == name then Some("") else None)
        else if a.dnsName != name then Some(name) else None
  }

  function PlanOf(s: Site, prefixes: seq<Prefix>, addresses: seq<Address>): map<int, string> {
    if addresses == [] then map[]
    else
      var more, a := PlanOf(s, prefixes, addresses[..|addresses| - 1]), addresses[|addresses| - 1];
      if WriteFor(s, prefixes, a).Some? then more[a.id := WriteFor(s, prefixes, a).value] else more
  }

  /** dns_plan: the two name lists, then each address against them. */
  method DnsPlan(s: Site, addresses: seq<Address>, prefixes: seq<Prefix>) returns (out: map<int, string>)
    requires IdsOnce(addresses)
    ensures out == PlanOf(s, prefixes, addresses)
  {
    var notNow := (o: Owner) => Held(s, o) || Idle(s, o);
    var never := (o: Owner) => Held(s, o);
    var wanted := WantedDnsNames(addresses, prefixes, notNow);
    var would := WantedDnsNames(addresses, prefixes, never);
    out := map[];
    for i := 0 to |addresses|
      invariant out == PlanOf(s, prefixes, addresses[..i])
    {
      assert addresses[..i + 1][..i] == addresses[..i];
      var a := addresses[i];
      WantedIs(prefixes, notNow, addresses, i);
      WantedIs(prefixes, never, addresses, i);
      var idle := a.owner.Some? && Idle(s, a.owner.value);
      if a.id in wanted && a.dnsName != wanted[a.id] {
        out := out[a.id := wanted[a.id]];
      } else if idle && a.id in would && a.dnsName == would[a.id] {
        out := out[a.id := ""];
      }
    }
    assert addresses[..|addresses|] == addresses;
  }

  lemma {:induction false} PlanIs(s: Site, prefixes: seq<Prefix>, addresses: seq<Address>, i: nat)
    requires IdsOnce(addresses) && i < |addresses|
    ensures var a, plan := addresses[i], PlanOf(s, prefixes, addresses);
      && (a.id in plan <==> WriteFor(s, prefixes, a).Some?)
      && (a.id in plan ==> plan[a.id] == WriteFor(s, prefixes, a).value)
  {
    var more := addresses[..|addresses| - 1];
    if i < |more| {
      assert more[i] == addresses[i];
      PlanIs(s, prefixes, more, i);
    } else {
      NotPlanned(s, prefixes, more, addresses[i].id);
    }
  }

  lemma {:induction false} NotPlanned(s: Site, prefixes: seq<Prefix>, addresses: seq<Address>, id: int)
    requires forall i :: 0 <= i < |addresses| ==> addresses[i].id != id
    ensures id !in PlanOf(s, prefixes, addresses)
  {
    if addresses != [] {
      NotPlanned(s, prefixes, addresses[..|addresses| - 1], id);
    }
  }

  // ---- what the plan keeps, and what it reaches -----------------------------------------------------------

  /** A decommissioning object's or an IoT device's address is never written. */
  lemma HeldIsLeft(s: Site, prefixes: seq<Prefix>, addresses: seq<Address>, i: nat)
    requires IdsOnce(addresses) && i < |addresses| && addresses[i].owner.Some? && Held(s, addresses[i].owner.value)
    ensures addresses[i].id !in PlanOf(s, prefixes, addresses)
  {
    PlanIs(s, prefixes, addresses, i);
  }

  /** A name is cleared exactly on an idle object's address that has the very name the sync would
      give it there; any other name it has, hand-set, stays. */
  lemma ClearedExactlyWhen(s: Site, prefixes: seq<Prefix>, addresses: seq<Address>, i: nat)
    requires IdsOnce(addresses) && i < |addresses|
    ensures var a, plan := addresses[i], PlanOf(s, prefixes, addresses);
      (a.id in plan && plan[a.id] == "") <==>
      (a.owner.Some? && Idle(s, a.owner.value) && !Held(s, a.owner.value) && NameFor(prefixes, a) == Some(a.dnsName))
  {
    PlanIs(s, prefixes, addresses, i);
    NameIsNotEmpty(prefixes, addresses[i]);
  }

  lemma NameIsNotEmpty(prefixes: seq<Prefix>, a: Address)
    ensures NameFor(prefixes, a).Some? ==> NameFor(prefixes, a).value != ""
  {
  }

  /** Every name given is the object's label, in the zone of a prefix that names one and holds the
      address, none more specific doing so; and the object is in use. */
  lemma GivenInTheMostSpecificZone(s: Site, prefixes: seq<Prefix>, addresses: seq<Address>, i: nat)
    requires IdsOnce(addresses) && i < |addresses|
    requires addresses[i].id in PlanOf(s, prefixes, addresses) && PlanOf(s, prefixes, addresses)[addresses[i].id] != ""
    ensures var a, plan := addresses[i], PlanOf(s, prefixes, addresses);
      && a.owner.Some? && !Held(s, a.owner.value) && !Idle(s, a.owner.value)
      && IsLabel(DnsLabel(a.owner.value.name)) && DnsLabel(a.owner.value.name) != ""
      && exists p :: MostSpecificZone(prefixes, a.ip, p) && plan[a.id] == DnsLabel(a.owner.value.name) + "." + p.zone
  {
    var a := addresses[i];
    PlanIs(s, prefixes, addresses, i);
    BestIsMostSpecific(prefixes, a.ip);
    DnsLabelIsLabel(a.owner.value.name);
  }

  function WrittenOne(plan: map<int, string>, a: Address): Address {
    if a.id in plan then a.(dnsName := plan[a.id]) else a
  }

  /** NetBox after the plan's writes. */
  function Written(plan: map<int, string>, addresses: seq<Address>): seq<Address> {
    seq(|addresses|, i requires 0 <= i < |addresses| => WrittenOne(plan, addresses[i]))
  }

  lemma OneWriteIsEnough(s: Site, prefixes: seq<Prefix>, a: Address)
    ensures var b := if WriteFor(s, prefixes, a).Some? then a.(dnsName := WriteFor(s, prefixes, a).value) else a;
      WriteFor(s, prefixes, b).None?
  {
    NameIsNotEmpty(prefixes, a);
  }

  lemma {:induction false} NothingToWrite(s: Site, prefixes: seq<Prefix>, addresses: seq<Address>)
    requires forall i :: 0 <= i < |addresses| ==> WriteFor(s, prefixes, addresses[i]).None?
    ensures PlanOf(s, prefixes, addresses) == map[]
  {
    if addresses != [] {
      NothingToWrite(s, prefixes, addresses[..|addresses| - 1]);
    }
  }

  /** Writing the plan and planning again writes nothing. */
  lemma ReplanWritesNothing(s: Site, prefixes: seq<Prefix>, addresses: seq<Address>)
    requires IdsOnce(addresses)
    ensures PlanOf(s, prefixes, Written(PlanOf(s, prefixes, addresses), addresses)) == map[]
  {
    var plan := PlanOf(s, prefixes, addresses);
    var after := Written(plan, addresses);
    forall i | 0 <= i < |after| ensures WriteFor(s, prefixes, after[i]).None? {
      PlanIs(s, prefixes, addresses, i);
      OneWriteIsEnough(s, prefixes, addresses[i]);
    }
    NothingToWrite(s, prefixes, after);
  }

  /** And then every address in use that can have a name has exactly it, and no idle one still has
      the name the sync gave. */
  lemma NamesConverge(s: Site, prefixes: seq<Prefix>, addresses: seq<Address>, i: nat)
    requires IdsOnce(addresses) && i < |addresses| && addresses[i].owner.Some? && !Held(s, addresses[i].owner.value)
    requires NameFor(prefixes, addresses[i]).Some?
    ensures var after := Written(PlanOf(s, prefixes, addresses), addresses)[i].dnsName;
      var name := NameFor(prefixes, addresses[i]).value;
      if !Idle(s, addresses[i].owner.value) then after == name
      else after == if addresses[i].dnsName == name then "" else addresses[i].dnsName
  {
    PlanIs(s, prefixes, addresses, i);
  }
}
