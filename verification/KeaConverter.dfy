/** dnsmasq's DHCP setup turned into Kea's (docker/kea/tools/dnsmasq_to_kea.py): which subnet gets
    which reservation and which ID, and where each current lease goes. */
module KeaConverter {
  import opened Addresses
  import opened Sorting
  import opened Text

  /** `ip in net`, of an IPv4 address as a number. */
  predicate Has(n: Net, ip: nat) {
    Holds(n, Ip(false, ip))
  }

  /** A parsed dhcp-host line; "" where it gives no client ID or name. */
  datatype Host = Host(macs: seq<string>, clientId: string, ip: Option<nat>, name: string, ignore: bool, line: string)

  datatype Ident = HwAddress(mac: string) | ClientId(id: string)

  datatype Reservation = Reservation(ident: Ident, ip: nat, hostname: string)

  datatype Note =
    | DropClass(line: string) | HostnameOnly(line: string)
    | NoAddress(line: string) | NoSubnet(line: string)

  /** The first subnet, in the order they were met, that holds an address. */
  function Containing(subnets: seq<Net>, ip: nat): Option<Net> {
    if subnets == [] then None
    else if Has(subnets[0], ip) then Some(subnets[0])
    else Containing(subnets[1..], ip)
  }

  lemma {:induction false} ContainingHolds(subnets: seq<Net>, ip: nat)
    ensures match Containing(subnets, ip)
      case Some(n) => n in subnets && Has(n, ip)
      case None => forall n :: n in subnets ==> !Has(n, ip)
  {
    if subnets != [] {
      ContainingHolds(subnets[1..], ip);
      assert subnets == [subnets[0]] + subnets[1..];
    }
  }

  /** No subnet met earlier holds it. */
  lemma {:induction false} ContainingIsFirst(subnets: seq<Net>, ip: nat) returns (i: nat)
    requires Containing(subnets, ip).Some?
    ensures i < |subnets| && Containing(subnets, ip) == Some(subnets[i]) && Has(subnets[i], ip)
    ensures forall j :: 0 <= j < i ==> !Has(subnets[j], ip)
  {
    if Has(subnets[0], ip) {
      i := 0;
    } else {
      i := ContainingIsFirst(subnets[1..], ip);
      i := i + 1;
    }
  }

  // ---- a host's fate ----------------------------------------------------------------------------------

  datatype Fate = Noted(note: Note) | Reserved(net: Net, ip: nat)

  function FateOf(subnets: seq<Net>, h: Host): Fate {
    if h.ignore then Noted(DropClass(h.line))
    else if h.macs == [] && h.clientId == "" then Noted(HostnameOnly(h.line))
    else if h.ip.None? then Noted(NoAddress(h.line))
    else match Containing(subnets, h.ip.value)
      case None => Noted(NoSubnet(h.line))
      case Some(n) => Reserved(n, h.ip.value)
  }

  function Idents(h: Host): seq<Ident> {
    if h.macs == [] then [ClientId(h.clientId)] else seq(|h.macs|, i requires 0 <= i < |h.macs| => HwAddress(h.macs[i]))
  }

  function ReservationsOf(h: Host, ip: nat): seq<Reservation> {
    seq(|Idents(h)|, i requires 0 <= i < |Idents(h)| => Reservation(Idents(h)[i], ip, h.name))
  }

  /** What a host adds to one subnet. */
  function Adds(subnets: seq<Net>, h: Host, n: Net): seq<Reservation> {
    match FateOf(subnets, h)
    case Reserved(m, ip) => if m == n then ReservationsOf(h, ip) else []
    case Noted(_) => []
  }

  /** A subnet's reservations after a list of hosts, in their order. */
  function AllAdded(subnets: seq<Net>, hosts: seq<Host>, n: Net): seq<Reservation> {
    if hosts == [] then [] else AllAdded(subnets, hosts[..|hosts| - 1], n) + Adds(subnets, hosts[|hosts| - 1], n)
  }

  lemma OneMoreHost(subnets: seq<Net>, hosts: seq<Host>, i: nat)
    requires i < |hosts|
    ensures AllNotes(subnets, hosts[..i + 1]) == AllNotes(subnets, hosts[..i]) + NoteOf(subnets, hosts[i])
    ensures forall n ::
      AllAdded(subnets, hosts[..i + 1], n) == AllAdded(subnets, hosts[..i], n) + Adds(subnets, hosts[i], n)
    ensures forall ip ::
      Times(subnets, hosts[..i + 1], ip) == Times(subnets, hosts[..i], ip) + TimesBy(subnets, hosts[i], ip)
  {
    assert hosts[..i + 1][..i] == hosts[..i];
  }

  function NoteOf(subnets: seq<Net>, h: Host): seq<Note> {
    match FateOf(subnets, h)
    case Noted(note) => [note]
    case Reserved(_, _) => []
  }

  function AllNotes(subnets: seq<Net>, hosts: seq<Host>): seq<Note> {
    if hosts == [] then [] else AllNotes(subnets, hosts[..|hosts| - 1]) + NoteOf(subnets, hosts[|hosts| - 1])
  }

  /** How often `ip_count` was raised for an address. */
  function Times(subnets: seq<Net>, hosts: seq<Host>, ip: nat): nat {
    if hosts == [] then 0 else Times(subnets, hosts[..|hosts| - 1], ip) + TimesBy(subnets, hosts[|hosts| - 1], ip)
  }

  function TimesBy(subnets: seq<Net>, h: Host, ip: nat): nat {
    match FateOf(subnets, h)
    case Reserved(_, a) => if a == ip then |Idents(h)| else 0
    case Noted(_) => 0
  }

  /** The reservation of an address for a host's i-th MAC, or for its client ID. */
  predicate IsFor(r: Reservation, h: Host, ip: nat, i: nat) {
    && r.ip == ip && r.hostname == h.name
    && if h.macs == [] then r.ident == ClientId(h.clientId) else i < |h.macs| && r.ident == HwAddress(h.macs[i])
  }

  /** Every host ends in exactly one of two ways: one note that names its line, or, in a subnet that
      holds its address, one reservation of that address per MAC, or one for its client ID. */
  lemma HostEndsOnce(subnets: seq<Net>, h: Host)
    ensures match FateOf(subnets, h)
      case Noted(note) => note.line == h.line && NoteOf(subnets, h) == [note] && forall n :: Adds(subnets, h, n) == []
      case Reserved(m, ip) =>
        && NoteOf(subnets, h) == [] && m in subnets && h.ip == Some(ip) && Has(m, ip)
        && (forall n :: n != m ==> Adds(subnets, h, n) == [])
        && |Adds(subnets, h, m)| == (if h.macs == [] then 1 else |h.macs|)
        && forall i :: 0 <= i < |Adds(subnets, h, m)| ==> IsFor(Adds(subnets, h, m)[i], h, ip, i)
    ensures FateOf(subnets, h).Noted? <==>
      h.ignore || (h.macs == [] && h.clientId == "") || h.ip.None? || forall n :: n in subnets ==> !Has(n, h.ip.value)
    ensures FateOf(subnets, h).Noted? ==>
      var note := FateOf(subnets, h).note;
      && (note.DropClass? <==> h.ignore)
      && (note.HostnameOnly? <==> !h.ignore && h.macs == [] && h.clientId == "")
      && (note.NoAddress? <==> !h.ignore && (h.macs != [] || h.clientId != "") && h.ip.None?)
  {
    if h.ip.Some? {
      ContainingHolds(subnets, h.ip.value);
    }
  }

  /** Nothing is lost or made up: over any hosts, notes and reservations are the hosts', and all of a
      subnet's reservations are of addresses it holds. */
  lemma {:induction false} AddedAreHosts(subnets: seq<Net>, hosts: seq<Host>, n: Net, r: Reservation)
    ensures r in AllAdded(subnets, hosts, n) <==> exists h :: h in hosts && r in Adds(subnets, h, n)
    ensures r in AllAdded(subnets, hosts, n) ==> n in subnets && Has(n, r.ip)
  {
    if hosts != [] {
      var more, last := hosts[..|hosts| - 1], hosts[|hosts| - 1];
      AddedAreHosts(subnets, more, n, r);
      HostEndsOnce(subnets, last);
      assert hosts == more + [last];
    }
  }

  /** So are the notes: each is some host's, and there is one for every host that isn't reserved. */
  lemma {:induction false} NotesAreHosts(subnets: seq<Net>, hosts: seq<Host>, note: Note)
    ensures note in AllNotes(subnets, hosts) <==> exists h :: h in hosts && FateOf(subnets, h) == Noted(note)
    ensures |AllNotes(subnets, hosts)| + ReservedHosts(subnets, hosts) == |hosts|
  {
    if hosts != [] {
      NotesAreHosts(subnets, hosts[..|hosts| - 1], note);
      assert hosts == hosts[..|hosts| - 1] + [hosts[|hosts| - 1]];
    }
  }

  function ReservedHosts(subnets: seq<Net>, hosts: seq<Host>): nat {
    if hosts == [] then 0 else
      ReservedHosts(subnets, hosts[..|hosts| - 1]) + (if FateOf(subnets, hosts[|hosts| - 1]).Reserved? then 1 else 0)
  }

  // ---- addresses reserved twice --------------------------------------------------------------------------

  function Having(rs: seq<Reservation>, ip: nat): nat {
    if rs == [] then 0 else Having(rs[..|rs| - 1], ip) + (if rs[|rs| - 1].ip == ip then 1 else 0)
  }

  lemma {:induction false} HavingJoined(a: seq<Reservation>, b: seq<Reservation>, ip: nat)
    ensures Having(a + b, ip) == Having(a, ip) + Having(b, ip)
  {
    if b == [] {
      assert a + b == a;
    } else {
      assert (a + b)[..|a + b| - 1] == a + b[..|b| - 1];
      HavingJoined(a, b[..|b| - 1], ip);
    }
  }

  lemma {:induction false} HavingAll(rs: seq<Reservation>, ip: nat)
    requires forall i :: 0 <= i < |rs| ==> rs[i].ip == ip
    ensures Having(rs, ip) == |rs|
  {
    if rs != [] {
      HavingAll(rs[..|rs| - 1], ip);
    }
  }

  predicate Twice(rs: seq<Reservation>, ip: nat) {
    exists i, j :: 0 <= i < j < |rs| && rs[i].ip == ip && rs[j].ip == ip
  }

  lemma {:induction false} HavingNone(rs: seq<Reservation>, ip: nat)
    ensures Having(rs, ip) == 0 <==> forall i :: 0 <= i < |rs| ==> rs[i].ip != ip
    ensures Having(rs, ip) >= 2 <==> Twice(rs, ip)
  {
    if rs != [] {
      var more, last := rs[..|rs| - 1], |rs| - 1;
      HavingNone(more, ip);
      assert forall i :: 0 <= i < |more| ==> more[i] == rs[i];
      if rs[last].ip == ip && Having(more, ip) == 1 {
        var i :| 0 <= i < |more| && more[i].ip == ip;
        assert rs[i].ip == ip && rs[last].ip == ip;
      }
    }
  }

  /** An address is only ever reserved in the first subnet that holds it, as often as it was counted. */
  lemma {:induction false} TimesIsHaving(subnets: seq<Net>, hosts: seq<Host>, ip: nat, n: Net)
    ensures Having(AllAdded(subnets, hosts, n), ip) ==
      if Containing(subnets, ip) == Some(n) then Times(subnets, hosts, ip) else 0
    ensures Containing(subnets, ip).None? ==> Times(subnets, hosts, ip) == 0
  {
    if hosts != [] {
      var more, last := hosts[..|hosts| - 1], hosts[|hosts| - 1];
      TimesIsHaving(subnets, more, ip, n);
      HavingJoined(AllAdded(subnets, more, n), Adds(subnets, last, n), ip);
      HostEndsOnce(subnets, last);
      var fate := FateOf(subnets, last);
      if fate.Reserved? && fate.ip == ip && fate.net == n {
        HavingAll(Adds(subnets, last, n), ip);
      } else {
        HavingNone(Adds(subnets, last, n), ip);
      }
    }
  }

  lemma TwiceInOne(subnets: seq<Net>, hosts: seq<Host>, ip: nat, n: Net)
    ensures Twice(AllAdded(subnets, hosts, n), ip) <==>
      Containing(subnets, ip) == Some(n) && Times(subnets, hosts, ip) >= 2
    ensures Containing(subnets, ip).None? ==> Times(subnets, hosts, ip) == 0
  {
    TimesIsHaving(subnets, hosts, ip, n);
    HavingNone(AllAdded(subnets, hosts, n), ip);
  }

  /** The shared-address flag: an address is counted twice exactly when some subnet reserves it twice. */
  lemma SharedExactlyWhenReservedTwice(subnets: seq<Net>, hosts: seq<Host>, ip: nat)
    ensures Times(subnets, hosts, ip) >= 2 <==>
      exists n :: Twice(AllAdded(subnets, hosts, n), ip)
  {
    TwiceInOne(subnets, hosts, ip, Net(false, 0, 0));
    if Times(subnets, hosts, ip) >= 2 {
      TwiceInOne(subnets, hosts, ip, Containing(subnets, ip).value);
    } else if n :| Twice(AllAdded(subnets, hosts, n), ip) {
      TwiceInOne(subnets, hosts, ip, n);
    }
  }

  // ---- subnet IDs ---------------------------------------------------------------------------------------------

  /** The third octet of a /24, else 0. */
  function OwnId(n: Net): nat {
    if n.prefix == 24 then n.address / 256 % 256 else 0
  }

  const FIRST_FREE: nat := 1000

  datatype Ids = Ids(ids: map<Net, nat>, used: set<nat>, next: nat)

  function GiveId(a: Ids, n: Net): Ids {
    if OwnId(n) == 0 || OwnId(n) in a.used then Ids(a.ids[n := a.next], a.used + {a.next}, a.next + 1)
    else a.(ids := a.ids[n := OwnId(n)], used := a.used + {OwnId(n)})
  }

  function GiveIds(nets: seq<Net>): Ids {
    if nets == [] then Ids(map[], {}, FIRST_FREE) else GiveId(GiveIds(nets[..|nets| - 1]), nets[|nets| - 1])
  }

  /** All IDs so far are given out once, none is 0, and those from 1000 on stop before the next. */
  predicate IdsOk(a: Ids) {
    && a.next >= FIRST_FREE
    && (forall n :: n in a.ids ==> a.ids[n] in a.used && a.ids[n] != 0)
    && (forall i :: i in a.used ==> i < a.next)
    && (forall m, n :: m in a.ids && n in a.ids && m != n ==> a.ids[m] != a.ids[n])
  }

  predicate OwnIdFree(nets: seq<Net>, k: nat)
    requires k < |nets|
  {
    OwnId(nets[k]) != 0 && OwnId(nets[k]) !in GiveIds(nets[..k]).used
  }

  lemma GiveIdKeeps(a: Ids, n: Net)
    requires IdsOk(a) && n !in a.ids
    ensures IdsOk(GiveId(a, n)) && GiveId(a, n).ids.Keys == a.ids.Keys + {n}
    ensures forall m :: m in a.ids ==> GiveId(a, n).ids[m] == a.ids[m]
  {
  }

  /** No two subnets share an ID and none has 0. */
  lemma {:induction false} IdsDistinct(nets: seq<Net>)
    requires Distinct(nets)
    ensures IdsOk(GiveIds(nets))
    ensures forall n :: n in GiveIds(nets).ids <==> n in nets
  {
    if nets != [] {
      var more, last := nets[..|nets| - 1], nets[|nets| - 1];
      assert forall i :: 0 <= i < |more| ==> more[i] == nets[i];
      IdsDistinct(more);
      assert last !in more;
      assert nets == more + [last];
      GiveIdKeeps(GiveIds(more), last);
    }
  }

  /** A /24 keeps its third octet unless that is 0 or an earlier subnet has it. */
  lemma {:induction false} OwnIdKept(nets: seq<Net>, k: nat)
    requires Distinct(nets) && k < |nets| && OwnIdFree(nets, k)
    ensures nets[k] in GiveIds(nets).ids && GiveIds(nets).ids[nets[k]] == OwnId(nets[k])
  {
    var more, last := nets[..|nets| - 1], nets[|nets| - 1];
    assert forall i :: 0 <= i < |more| ==> more[i] == nets[i];
    if k < |more| {
      assert more[..k] == nets[..k];
      OwnIdKept(more, k);
      IdsDistinct(more);
      assert last !in more;
      GiveIdKeeps(GiveIds(more), last);
    }
  }

  /** For a /24 that is the third octet of its address, and 0 for every other prefix. */
  lemma OwnIdIsThirdOctet(a: nat, b: nat, c: nat, d: nat, prefix: nat)
    requires b < 256 && c < 256 && d < 256
    ensures OwnId(Net(false, ((a * 256 + b) * 256 + c) * 256 + d, prefix)) == if prefix == 24 then c else 0
  {
    var high := a * 256 + b;
    assert ((high * 256 + c) * 256 + d) / 256 == high * 256 + c;
    assert (high * 256 + c) % 256 == c;
  }

  /** How many of the first k subnets have an ID that isn't their own. */
  function Numbered(ids: map<Net, nat>, nets: seq<Net>, k: nat): nat
    requires k <= |nets|
  {
    if k == 0 then 0
    else Numbered(ids, nets, k - 1) + (if nets[k - 1] in ids && ids[nets[k - 1]] >= 1000 then 1 else 0)
  }

  /** No earlier subnet has the ID. */
  predicate IdIsFree(ids: map<Net, nat>, nets: seq<Net>, k: nat, id: nat)
    requires k <= |nets|
  {
    forall j :: 0 <= j < k && nets[j] in ids ==> ids[nets[j]] != id
  }

  /** What the loop knows after k subnets, said of the IDs alone. */
  lemma {:induction false} CountersAre(nets: seq<Net>, k: nat)
    requires Distinct(nets) && k <= |nets|
    ensures forall j :: 0 <= j < k ==> nets[j] in GiveIds(nets).ids && nets[j] in GiveIds(nets[..k]).ids
    ensures forall j :: 0 <= j < k ==> GiveIds(nets).ids[nets[j]] == GiveIds(nets[..k]).ids[nets[j]]
    ensures GiveIds(nets[..k]).next == 1000 + Numbered(GiveIds(nets).ids, nets, k)
    ensures forall id :: id in GiveIds(nets[..k]).used <==> !IdIsFree(GiveIds(nets).ids, nets, k, id)
  {
    var ids := GiveIds(nets).ids;
    if k > 0 {
      CountersAre(nets, k - 1);
      IdsStay(nets, k);
      var before, after := GiveIds(nets[..k - 1]), GiveIds(nets[..k]);
      assert nets[..k][..k - 1] == nets[..k - 1];
      assert after == GiveId(before, nets[k - 1]);
      IdGiven(nets, k, before, after);
    }
  }

  lemma IdGiven(nets: seq<Net>, k: nat, before: Ids, after: Ids)
    requires 0 < k <= |nets| && after == GiveId(before, nets[k - 1]) && before.next >= 1000
    ensures after.next == before.next + (if after.ids[nets[k - 1]] >= 1000 then 1 else 0)
    ensures after.used == before.used + {after.ids[nets[k - 1]]}
  {
  }

  /** An ID once given stays. */
  lemma {:induction false} IdsStay(nets: seq<Net>, k: nat)
    requires Distinct(nets) && 0 < k <= |nets|
    ensures forall j :: 0 <= j < k ==> nets[j] in GiveIds(nets).ids && nets[j] in GiveIds(nets[..k]).ids
    ensures forall j :: 0 <= j < k ==> GiveIds(nets).ids[nets[j]] == GiveIds(nets[..k]).ids[nets[j]]
  {
    var all, some := nets, nets[..k];
    IdsDistinct(all);
    assert forall i :: 0 <= i < |some| ==> some[i] == all[i];
    IdsDistinct(some);
    forall j | 0 <= j < k
      ensures nets[j] in all && nets[j] in some && GiveIds(all).ids[nets[j]] == GiveIds(some).ids[nets[j]]
    {
      assert some[j] == nets[j];
      OneIdStays(nets, k, j);
    }
  }

  lemma {:induction false} OneIdStays(nets: seq<Net>, k: nat, j: nat)
    requires Distinct(nets) && j < k <= |nets|
    ensures nets[j] in GiveIds(nets[..k]).ids && nets[j] in GiveIds(nets).ids
    ensures GiveIds(nets).ids[nets[j]] == GiveIds(nets[..k]).ids[nets[j]]
    decreases |nets|
  {
    IdsDistinct(nets);
    if k < |nets| {
      var more, last := nets[..|nets| - 1], nets[|nets| - 1];
      assert forall i :: 0 <= i < |more| ==> more[i] == nets[i];
      assert more[..k] == nets[..k] && more[j] == nets[j];
      OneIdStays(more, k, j);
      IdsDistinct(more);
      assert last !in more;
      GiveIdKeeps(GiveIds(more), last);
    } else {
      assert nets[..k] == nets;
    }
  }

  /** Which ID each subnet gets: a /24 its third octet, unless that is 0 or an earlier subnet's ID; any
      other 1000, 1001 and so on, one further for each subnet so far that got one of these. */
  lemma IdsExactly(nets: seq<Net>, k: nat)
    requires Distinct(nets) && k < |nets|
    ensures var ids, own := GiveIds(nets).ids, if nets[k].prefix == 24 then nets[k].address / 256 % 256 else 0;
      nets[k] in ids && ids[nets[k]] ==
        if own != 0 && IdIsFree(ids, nets, k, own) then own else 1000 + Numbered(ids, nets, k)
  {
    CountersAre(nets, k);
    IdsStay(nets, k + 1);
    assert nets[..k + 1][..k] == nets[..k];
  }

  // ---- `sorted(self.subnets, key=(address, prefix length))` -----------------------------------------------------

  predicate Before(a: Net, b: Net) {
    a.address < b.address || (a.address == b.address && a.prefix <= b.prefix)
  }

  function InsertNet(n: Net, nets: seq<Net>): seq<Net> {
    if nets == [] || Before(n, nets[0]) then [n] + nets else [nets[0]] + InsertNet(n, nets[1..])
  }

  function SortNets(nets: seq<Net>): seq<Net> {
    if nets == [] then [] else InsertNet(nets[0], SortNets(nets[1..]))
  }

  lemma {:induction false} InsertNetKeeps(n: Net, nets: seq<Net>)
    ensures multiset(InsertNet(n, nets)) == multiset{n} + multiset(nets)
  {
    if nets != [] && !Before(n, nets[0]) {
      InsertNetKeeps(n, nets[1..]);
      assert nets == [nets[0]] + nets[1..];
    }
  }

  lemma {:induction false} SortNetsKeeps(nets: seq<Net>)
    ensures multiset(SortNets(nets)) == multiset(nets)
  {
    if nets != [] {
      SortNetsKeeps(nets[1..]);
      InsertNetKeeps(nets[0], SortNets(nets[1..]));
      assert nets == [nets[0]] + nets[1..];
    }
  }

  predicate NetsAscend(nets: seq<Net>) {
    forall i, j :: 0 <= i < j < |nets| ==> Before(nets[i], nets[j])
  }

  lemma {:induction false} InsertNetAscends(n: Net, nets: seq<Net>)
    requires NetsAscend(nets)
    ensures NetsAscend(InsertNet(n, nets))
  {
    if nets != [] && !Before(n, nets[0]) {
      var ins := InsertNet(n, nets[1..]);
      InsertNetAscends(n, nets[1..]);
      InsertNetKeeps(n, nets[1..]);
      forall j | 0 <= j < |ins| ensures Before(nets[0], ins[j]) {
        assert ins[j] in multiset(ins);
        if ins[j] != n {
          var i :| 0 <= i < |nets[1..]| && nets[1..][i] == ins[j];
          assert nets[i + 1] == ins[j];
        }
      }
    }
  }

  /** By address, and one address's by prefix length. */
  lemma {:induction false} SortNetsAscends(nets: seq<Net>)
    ensures NetsAscend(SortNets(nets))
  {
    if nets != [] {
      SortNetsAscends(nets[1..]);
      InsertNetAscends(nets[0], SortNets(nets[1..]));
    }
  }

  lemma SortNetsDistinct(nets: seq<Net>)
    requires Distinct(nets)
    ensures Distinct(SortNets(nets)) && forall n :: n in SortNets(nets) <==> n in nets
  {
    SortNetsKeeps(nets);
    DistinctByCount(nets);
    DistinctByCount(SortNets(nets));
    forall n ensures n in SortNets(nets) <==> n in nets {
      assert n in multiset(SortNets(nets)) <==> n in multiset(nets);
    }
  }

  // ---- leases -----------------------------------------------------------------------------------------------------

  /** A line of the leases file: an IPv4 lease (`macOk` when its MAC is one), or anything else. */
  datatype LeaseLine = Other | Lease(expiry: nat, mac: string, macOk: bool, ip: nat)

  datatype Imported = Imported(ip: nat, mac: string, subnetId: nat, expiry: nat)

  datatype LeaseFate = NotALease | Expired | Unknown | Into(net: Net)

  function LeaseFateOf(subnets: seq<Net>, now: nat, l: LeaseLine): LeaseFate {
    if l.Other? then NotALease
    else if l.expiry != 0 && l.expiry < now then Expired
    else match Containing(subnets, l.ip)
      case None => Unknown
      case Some(n) => if l.macOk then Into(n) else Unknown
  }

  /** One without an expiry never expires, and one that ends at this very second hasn't. */
  predicate LiveAt(l: LeaseLine, now: nat) {
    l.Lease? && (l.expiry == 0 || l.expiry >= now)
  }

  /** Which lease lines go where: those not over with a real MAC in a known subnet are imported. */
  lemma LeaseFates(subnets: seq<Net>, now: nat, l: LeaseLine)
    ensures var f := LeaseFateOf(subnets, now, l);
      && (f == NotALease <==> l.Other?)
      && (f == Expired <==> l.Lease? && 0 < l.expiry < now)
      && (f.Into? <==> LiveAt(l, now) && l.macOk && exists n :: n in subnets && Has(n, l.ip))
      && (f.Into? ==> Containing(subnets, l.ip) == Some(f.net))
  {
    if l.Lease? { ContainingHolds(subnets, l.ip); }
  }

  function Fated(subnets: seq<Net>, now: nat, lines: seq<LeaseLine>, f: LeaseFate): nat {
    if lines == [] then 0
    else
      Fated(subnets, now, lines[..|lines| - 1], f) +
      (if LeaseFateOf(subnets, now, lines[|lines| - 1]) == f then 1 else 0)
  }

  function ImportedFrom(subnets: seq<Net>, ids: map<Net, nat>, now: nat, lines: seq<LeaseLine>): seq<Imported>
    requires forall n :: n in subnets ==> n in ids
  {
    if lines == [] then []
    else
      var more, l := ImportedFrom(subnets, ids, now, lines[..|lines| - 1]), lines[|lines| - 1];
      if LeaseFateOf(subnets, now, l).Into? then
        ContainingHolds(subnets, l.ip);
        more + [Imported(l.ip, l.mac, ids[LeaseFateOf(subnets, now, l).net], l.expiry)]
      else more
  }

  function LeaseLines(lines: seq<LeaseLine>): nat {
    if lines == [] then 0 else LeaseLines(lines[..|lines| - 1]) + (if lines[|lines| - 1].Lease? then 1 else 0)
  }

  /** Every IPv4 lease line is imported, expired or unknown, and counted once. */
  lemma {:induction false} LeasesAddUp(subnets: seq<Net>, ids: map<Net, nat>, now: nat, lines: seq<LeaseLine>)
    requires forall n :: n in subnets ==> n in ids
    ensures |ImportedFrom(subnets, ids, now, lines)| + Fated(subnets, now, lines, Expired) +
      Fated(subnets, now, lines, Unknown)
      == LeaseLines(lines)
  {
    if lines != [] {
      LeasesAddUp(subnets, ids, now, lines[..|lines| - 1]);
    }
  }

  /** Each imported lease comes from an unexpired line with a real MAC, under the ID of the one subnet
      that has it, and that subnet holds its address. */
  lemma {:induction false} ImportedUnderItsSubnet(subnets: seq<Net>, ids: map<Net, nat>, now: nat,
                                                  lines: seq<LeaseLine>, i: nat)
    requires forall n :: n in subnets ==> n in ids
    requires forall m, n :: m in ids && n in ids && m != n ==> ids[m] != ids[n]
    requires i < |ImportedFrom(subnets, ids, now, lines)|
    ensures var out := ImportedFrom(subnets, ids, now, lines)[i];
      && (exists n :: n in subnets && ids[n] == out.subnetId && Has(n, out.ip))
      && (forall n :: n in subnets && ids[n] == out.subnetId ==> Has(n, out.ip))
      && (exists l :: l in lines && l.Lease? && l.macOk && l.ip == out.ip && l.mac == out.mac && l.expiry == out.expiry
                      && (l.expiry == 0 || l.expiry >= now))
  {
    var more, l := lines[..|lines| - 1], lines[|lines| - 1];
    assert lines == more + [l];
    if i < |ImportedFrom(subnets, ids, now, more)| {
      ImportedUnderItsSubnet(subnets, ids, now, more, i);
    } else {
      ContainingHolds(subnets, l.ip);
    }
  }

  /** Every such lease is imported, as it is, under the ID of the first subnet that holds its address. */
  lemma {:induction false} ImportedExactly(subnets: seq<Net>, ids: map<Net, nat>, now: nat, lines: seq<LeaseLine>,
                                           out: Imported)
    requires forall n :: n in subnets ==> n in ids
    ensures out in ImportedFrom(subnets, ids, now, lines) <==>
      exists l :: l in lines && ImportedAs(subnets, ids, now, l, out)
  {
    if lines != [] {
      var more, l := lines[..|lines| - 1], lines[|lines| - 1];
      ImportedExactly(subnets, ids, now, more, out);
      OneMoreImported(subnets, ids, now, lines, out);
      assert forall x :: x in lines <==> x in more || x == l;
    }
  }

  lemma OneMoreImported(subnets: seq<Net>, ids: map<Net, nat>, now: nat, lines: seq<LeaseLine>, out: Imported)
    requires lines != [] && forall n :: n in subnets ==> n in ids
    ensures out in ImportedFrom(subnets, ids, now, lines) <==>
      out in ImportedFrom(subnets, ids, now, lines[..|lines| - 1]) ||
        ImportedAs(subnets, ids, now, lines[|lines| - 1], out)
  {
    var l := lines[|lines| - 1];
    LeaseFates(subnets, now, l);
    if l.Lease? { ContainingHolds(subnets, l.ip); }
  }

  predicate ImportedAs(subnets: seq<Net>, ids: map<Net, nat>, now: nat, l: LeaseLine, out: Imported)
    requires forall n :: n in subnets ==> n in ids
  {
    && l.Lease? && l.macOk && (l.expiry == 0 || l.expiry >= now)
    && (match Containing(subnets, l.ip)
        case None => false
        case Some(n) => n in ids && out == Imported(l.ip, l.mac, ids[n], l.expiry))
  }

  // ---- the converter ---

  class Converter {
    var subnets: seq<Net>  // in the order first met
    var reservations: map<Net, seq<Reservation>>
    var hosts: seq<Host>
    var notes: seq<Note>
    var sharedIps: set<nat>

    ghost predicate Valid()
      reads this
    {
      Distinct(subnets) && forall n :: n in reservations <==> n in subnets
    }

    constructor (subnets: seq<Net>, hosts: seq<Host>)
      requires Distinct(subnets)
      ensures Valid() && this.subnets == subnets && this.hosts == hosts && notes == [] && sharedIps == {}
      ensures forall n :: n in subnets ==> reservations[n] == []
    {
      this.subnets, this.hosts, notes, sharedIps := subnets, hosts, [], {};
      reservations := map n | n in subnets :: [];
    }

    method SubnetContaining(ip: nat) returns (r: Option<Net>)
      ensures r == Containing(subnets, ip)
    {
      var i := 0;
      while i < |subnets|
        invariant i <= |subnets| && Containing(subnets, ip) == Containing(subnets[i..], ip)
      {
        if Has(subnets[i], ip) {
          return Some(subnets[i]);
        }
        i := i + 1;
      }
      return None;
    }

    /** The reservations half of resolve, on a converter that has none yet. */
    method ResolveHosts()
      requires Valid() && forall n :: n in subnets ==> reservations[n] == []
      modifies this
      ensures Valid() && subnets == old(subnets) && hosts == old(hosts)
      ensures notes == old(notes) + AllNotes(subnets, hosts)
      ensures forall n :: n in subnets ==> reservations[n] == AllAdded(subnets, hosts, n)
      ensures forall ip :: ip in sharedIps <==> Times(subnets, hosts, ip) >= 2
    {
      var ipCount: map<nat, nat> := map[];
      ghost var was := notes;
      var i := 0;
      while i < |hosts|
        invariant i <= |hosts| && Valid() && subnets == old(subnets) && hosts == old(hosts)
        invariant notes == was + AllNotes(subnets, hosts[..i])
        invariant forall n :: n in subnets ==> reservations[n] == AllAdded(subnets, hosts[..i], n)
        invariant CountsAre(ipCount, subnets, hosts[..i])
      {
        OneMoreHost(subnets, hosts, i);
        var h := hosts[i];
        assert was + (AllNotes(subnets, hosts[..i]) + NoteOf(subnets, h)) ==
          was + AllNotes(subnets, hosts[..i]) + NoteOf(subnets, h);
        ipCount := ResolveHost(h, ipCount);
        i := i + 1;
      }
      assert hosts[..i] == hosts;
      sharedIps := set ip | ip in ipCount && ipCount[ip] > 1;
    }

    /** One host's turn. */
    method ResolveHost(h: Host, ipCount: map<nat, nat>) returns (counts: map<nat, nat>)
      requires Valid()
      modifies this`notes, this`reservations
      ensures Valid() && notes == old(notes) + NoteOf(subnets, h)
      ensures forall n :: n in subnets ==> reservations[n] == old(reservations)[n] + Adds(subnets, h, n)
      ensures forall ip :: Count(counts, ip) == Count(ipCount, ip) + TimesBy(subnets, h, ip)
    {
      counts := ipCount;
      if h.ignore {
        notes := notes + [DropClass(h.line)];
        return;
      }
      if h.macs == [] && h.clientId == "" {
        notes := notes + [HostnameOnly(h.line)];
        return;
      }
      if h.ip.None? {
        notes := notes + [NoAddress(h.line)];
        return;
      }
      var ip := h.ip.value;
      var sub := SubnetContaining(ip);
      if sub.None? {
        notes := notes + [NoSubnet(h.line)];
        return;
      }
      ContainingHolds(subnets, ip);
      counts := Reserve(h, ip, sub.value, ipCount);
    }

    /** One reservation per identifier, each counted. */
    method Reserve(h: Host, ip: nat, net: Net, ipCount: map<nat, nat>) returns (counts: map<nat, nat>)
      requires Valid() && net in reservations
      modifies this`reservations
      ensures Valid() && reservations == old(reservations)[net := old(reservations)[net] + ReservationsOf(h, ip)]
      ensures counts == ipCount[ip := Count(ipCount, ip) + |Idents(h)|]
    {
      counts := ipCount;
      var idents := Idents(h);
      var all := ReservationsOf(h, ip);
      ghost var before := reservations;
      assert before[net] + all[..0] == before[net];
      var j := 0;
      while j < |idents|
        invariant j <= |idents| && subnets == old(subnets)
        invariant reservations == before[net := before[net] + all[..j]]
        invariant counts == if j == 0 then ipCount else ipCount[ip := Count(ipCount, ip) + j]
      {
        var r := Reservation(idents[j], ip, h.name);
        assert all[..j + 1] == all[..j] + [r];
        assert before[net] + all[..j + 1] == before[net] + all[..j] + [r];
        reservations := reservations[net := reservations[net] + [r]];
        counts := counts[ip := Count(counts, ip) + 1];
        j := j + 1;
      }
      assert all[..j] == all;
    }

    /** site's subnet IDs, and whether it says an address may be reserved twice. */
    method Site() returns (ids: map<Net, nat>, reservationsUnique: bool)
      requires Valid()
      ensures ids == GiveIds(SortNets(subnets)).ids
      ensures reservationsUnique <==> sharedIps == {}
    {
      var nets := SortNets(subnets);
      var next, used, i := FIRST_FREE, {}, 0;
      ids := map[];
      while i < |nets|
        invariant i <= |nets| && Ids(ids, used, next) == GiveIds(nets[..i])
      {
        assert nets[..i + 1][..i] == nets[..i];
        var id := OwnId(nets[i]);
        if id == 0 || id in used {
          id, next := next, next + 1;
        }
        used := used + {id};
        ids := ids[nets[i] := id];
        i := i + 1;
      }
      assert nets[..i] == nets;
      reservationsUnique := sharedIps == {};
    }

    /** leases: what to import, and how many lines were expired or unknown. */
    method Leases(lines: seq<LeaseLine>, ids: map<Net, nat>, now: nat)
      returns (out: seq<Imported>, expired: nat, unknown: nat)
      requires forall n :: n in subnets ==> n in ids
      ensures out == ImportedFrom(subnets, ids, now, lines)
      ensures expired == Fated(subnets, now, lines, Expired) && unknown == Fated(subnets, now, lines, Unknown)
    {
      out, expired, unknown := [], 0, 0;
      var i := 0;
      while i < |lines|
        invariant i <= |lines| && out == ImportedFrom(subnets, ids, now, lines[..i])
        invariant expired == Fated(subnets, now, lines[..i], Expired) &&
          unknown == Fated(subnets, now, lines[..i], Unknown)
        decreases |lines| - i
      {
        assert lines[..i + 1][..i] == lines[..i];
        var l := lines[i];
        i := i + 1;
        if l.Other? {
          continue;
        }
        if l.expiry != 0 && l.expiry < now {
          expired := expired + 1;
          continue;
        }
        var sub := SubnetContaining(l.ip);
        if sub.None? || !l.macOk {
          unknown := unknown + 1;
          continue;
        }
        ContainingHolds(subnets, l.ip);
        out := out + [Imported(l.ip, l.mac, ids[sub.value], l.expiry)];
      }
      assert lines[..i] == lines;
    }
  }

  function Count(counts: map<nat, nat>, ip: nat): nat {
    if ip in counts then counts[ip] else 0
  }

  ghost predicate CountsAre(counts: map<nat, nat>, subnets: seq<Net>, hosts: seq<Host>) {
    forall ip :: Count(counts, ip) == Times(subnets, hosts, ip)
  }

  /** The whole conversion: IDs are distinct and non-zero, and leases land under them. */
  lemma SiteIdsFitEverySubnet(subnets: seq<Net>)
    requires Distinct(subnets)
    ensures var ids := GiveIds(SortNets(subnets)).ids;
      && (forall n :: n in subnets <==> n in ids)
      && (forall n :: n in ids ==> ids[n] != 0)
      && (forall m, n :: m in ids && n in ids && m != n ==> ids[m] != ids[n])
  {
    SortNetsDistinct(subnets);
    IdsDistinct(SortNets(subnets));
  }
}
