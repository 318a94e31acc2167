/** ExternalDNS's changes made into NetBox DNS records
    (kubernetes/prod/system/external-dns/external-dns/app/netbox-dns-webhook.py). */
module DnsWebhook {
  import opened Text
  import opened Sorting

  datatype Zone = Zone(id: int, name: string)
  /** A NetBox record; `owned` when its description is the owner mark, `fqdn` empty when NetBox gives
      none, `ttl` 0 likewise. */
  datatype Rec =
    Rec(id: int, zone: int, name: string, fqdn: string, rtype: string, value: string, ttl: nat, owned: bool)
  datatype Endpoint = Endpoint(dnsName: string, rtype: string, targets: set<string>, ttl: nat)
  datatype Create = Create(zone: int, name: string, rtype: string, value: string, ttl: nat)
  datatype Changes = Changes(wanted: seq<Endpoint>, gone: seq<Endpoint>)
  type Key = (string, string)

  const TYPES := {"A", "AAAA", "CNAME", "TXT"}

  // ---- names and zones -------------------------------------------------------------

  function Norm(name: string): string {
    Lower(RStripDots(name))
  }

  predicate Holds(fqdn: string, z: Zone) {
    fqdn == Norm(z.name) || EndsWith(fqdn, "." + Norm(z.name))
  }

  /** A zone holds a host when the host's last labels are the zone's, whole. */
  lemma HoldsByLabels(fqdn: string, z: Zone)
    ensures Holds(fqdn, z) <==> EndsIn(Labels(fqdn), Labels(Norm(z.name)))
  {
    UnderByLabels(fqdn, Norm(z.name));
  }

  /** zone_for, its comparison as the code makes it: the candidate's stripped name against
      the best one's name as NetBox spells it. */
  function ZoneFrom(fqdn: string, zones: seq<Zone>, best: Option<Zone>): Option<Zone> {
    if zones == [] then best
    else ZoneFrom(fqdn, zones[1..], Better(fqdn, best, zones[0]))
  }

  function ZoneFor(name: string, zones: seq<Zone>): Option<Zone> {
    ZoneFrom(Norm(name), zones, None)
  }

  /** The one way `a`'s spelling can hide a longer zone `b` below it. */
  predicate Hides(a: Zone, b: Zone) {
    EndsWith(Norm(b.name), "." + Norm(a.name)) && |Norm(b.name)| <= |a.name|
  }

  predicate NoneHides(zones: seq<Zone>) {
    forall a, b :: a in zones && b in zones ==> !Hides(a, b)
  }

  ghost predicate Longest(fqdn: string, zones: seq<Zone>, r: Option<Zone>) {
    match r
    case None => forall z :: z in zones ==> !Holds(fqdn, z)
    case Some(b) =>
      b in zones && Holds(fqdn, b) && forall z :: z in zones && Holds(fqdn, z) ==> |Norm(z.name)| <= |Norm(b.name)|
  }

  /** Of two zones holding one name, the longer ends in a dot and the shorter. */
  lemma LongerEndsInShorter(fqdn: string, a: Zone, b: Zone)
    requires Holds(fqdn, a) && Holds(fqdn, b) && |Norm(b.name)| > |Norm(a.name)|
    ensures EndsWith(Norm(b.name), "." + Norm(a.name))
  {
    var n, m := Norm(a.name), Norm(b.name);
    var k := |fqdn| - |m|;
    HeldIsSuffix(fqdn, b);
    assert fqdn[k..] == m;
    assert m[|m| - |n| - 1..] == fqdn[|fqdn| - |n| - 1..];
  }

  lemma HeldIsSuffix(fqdn: string, z: Zone)
    requires Holds(fqdn, z)
    ensures EndsWith(fqdn, Norm(z.name))
  {
    var m := Norm(z.name);
    if fqdn != m {
      assert fqdn[|fqdn| - |m| - 1..][1..] == fqdn[|fqdn| - |m|..];
    }
  }

  lemma {:induction false} StripShorter(s: string)
    ensures |Norm(s)| <= |s|
  {
    if s != "" && s[|s| - 1] == '.' { StripShorter(s[..|s| - 1]); }
  }

  /** The choice zone_for's loop makes between the best zone so far and the next one. */
  function Better(fqdn: string, best: Option<Zone>, z: Zone): Option<Zone> {
    if Holds(fqdn, z) && (best.None? || |Norm(z.name)| > |best.value.name|) then Some(z) else best
  }

  lemma BetterIsLongest(fqdn: string, seen: seq<Zone>, best: Option<Zone>, z: Zone)
    requires Longest(fqdn, seen, best)
    requires best.Some? ==> !Hides(best.value, z)
    ensures Longest(fqdn, seen + [z], Better(fqdn, best, z))
  {
    StripShorter(z.name);
    if best.Some? {
      StripShorter(best.value.name);
      if Holds(fqdn, z) && |Norm(z.name)| > |Norm(best.value.name)| {
        LongerEndsInShorter(fqdn, best.value, z);
      }
    }
  }

  lemma {:induction false} ZoneFromLongest(fqdn: string, zones: seq<Zone>, seen: seq<Zone>, best: Option<Zone>)
    requires NoneHides(seen + zones) && Longest(fqdn, seen, best)
    ensures Longest(fqdn, seen + zones, ZoneFrom(fqdn, zones, best))
    decreases |zones|
  {
    if zones == [] {
      assert seen + zones == seen;
    } else {
      var z := zones[0];
      assert z in seen + zones && (best.Some? ==> best.value in seen + zones);
      assert seen + [z] + zones[1..] == seen + zones;
      BetterIsLongest(fqdn, seen, best, z);
      ZoneFromLongest(fqdn, zones[1..], seen + [z], Better(fqdn, best, z));
    }
  }

  /** Of any zones, what zone_for gives is one of them and holds the host; none when none does. */
  lemma {:induction false} ZoneFromHolds(fqdn: string, zones: seq<Zone>, best: Option<Zone>)
    ensures var r := ZoneFrom(fqdn, zones, best);
      && (r.Some? ==> r == best || (r.value in zones && Holds(fqdn, r.value)))
      && (r.None? <==> best.None? && forall z :: z in zones ==> !Holds(fqdn, z))
  {
    if zones != [] {
      ZoneFromHolds(fqdn, zones[1..], Better(fqdn, best, zones[0]));
      assert zones == [zones[0]] + zones[1..];
    }
  }

  /** A host on which a zone that hides another is chosen over it: the hidden zone's own name. */
  lemma HiddenIsMissed(a: Zone, b: Zone)
    requires Hides(a, b)
    ensures ZoneFor(Norm(b.name), [a, b]) == Some(a) && !Longest(Norm(Norm(b.name)), [a, b], Some(a))
  {
    var n, zs := Norm(b.name), [a, b];
    NormIdempotent(b.name);
    assert zs[1..] == [b] && [b][1..] == [];
    assert ZoneFrom(n, [b], Some(a)) == Some(a);
    assert zs[1] == b && Holds(n, b);
  }

  ghost predicate AlwaysLongest(zones: seq<Zone>) {
    forall zs, n {:trigger ZoneFor(n, zs)} :: Among(zs, zones) ==> Longest(Norm(n), zs, ZoneFor(n, zs))
  }

  ghost predicate Among(zs: seq<Zone>, zones: seq<Zone>) {
    forall z :: z in zs ==> z in zones
  }

  /** zone_for gives the longest zone, for every host and whichever of the zones it is given in
      whatever order, if and only if none of them hides another: none is spelled, trailing dots
      and all, as long as the stripped name of a zone below it. */
  lemma LongestExactlyWhen(zones: seq<Zone>)
    ensures AlwaysLongest(zones) <==> NoneHides(zones)
  {
    if NoneHides(zones) {
      forall zs, n | Among(zs, zones) ensures Longest(Norm(n), zs, ZoneFor(n, zs)) {
        assert [] + zs == zs;
        ZoneFromLongest(Norm(n), zs, [], None);
      }
    } else {
      var a, b :| a in zones && b in zones && Hides(a, b);
      HiddenIsMissed(a, b);
      assert Among([a, b], zones) && ZoneFor(Norm(b.name), [a, b]) == Some(a);
    }
  }

  /** A zone name with at most one trailing dot and no empty first label, as NetBox DNS holds them. */
  predicate ZoneNameOk(z: Zone) {
    |z.name| <= |Norm(z.name)| + 1 && (Norm(z.name) != "" ==> Norm(z.name)[0] != '.')
  }

  lemma OkHidesNothing(a: Zone, b: Zone)
    requires ZoneNameOk(a) && ZoneNameOk(b)
    ensures !Hides(a, b)
  {
    var n, m := Norm(a.name), Norm(b.name);
    if EndsWith(m, "." + n) {
      assert m[|m| - |n| - 1] == m[|m| - |n| - 1..][0] == '.';
    }
  }

  /** Such names hide nothing, so the zone chosen is the one with the longest name holding the host. */
  lemma ZoneForLongest(name: string, zones: seq<Zone>)
    requires forall z :: z in zones ==> ZoneNameOk(z)
    ensures NoneHides(zones) && Longest(Norm(name), zones, ZoneFor(name, zones))
  {
    forall a, b | a in zones && b in zones ensures !Hides(a, b) {
      OkHidesNothing(a, b);
    }
    LongestExactlyWhen(zones);
    assert Among(zones, zones);
  }

  lemma SmallNames()
    ensures Norm("c..") == "c" && Norm("a.c") == "a.c"
  {
    assert "c.."[..2] == "c." && "c."[..1] == "c";
    assert RStripDots("c..") == RStripDots("c.") == RStripDots("c") == "c";
    assert RStripDots("a.c") == "a.c";
    var l, m := Lower("c"), Lower("a.c");
    assert l[0] == 'c' && m[0] == 'a' && m[1] == '.' && m[2] == 'c';
  }

  /** The boundary: a second trailing dot is enough to hide a zone. */
  lemma TwoTrailingDotsHide()
    ensures Hides(Zone(1, "c.."), Zone(2, "a.c"))
  {
    SmallNames();
    assert "a.c"[1..] == "." + "c";
  }

  function Relative(fqdn: string, zoneName: string): string {
    var f, z := Norm(fqdn), Norm(zoneName);
    if f == z then "@" else if |f| > |z| then f[..|f| - |z| - 1] else ""
  }

  function Joined(name: string, zoneName: string): string {
    if name == "@" then zoneName else name + "." + zoneName
  }

  /** fqdn_of, of a record in one of the zones. */
  function FqdnOf(r: Rec, zoneName: string): string {
    if r.fqdn != "" then RStripDots(r.fqdn) else Joined(r.name, RStripDots(zoneName))
  }

  lemma HostParts(n: string, z: Zone) returns (p: string)
    requires Norm(n) == n && Holds(n, z) && n != Norm(z.name)
    ensures n == p + "." + Norm(z.name) && Relative(n, z.name) == p && Lower(p) == p
  {
    var zn := Norm(z.name);
    var k := |n| - |zn| - 1;
    p := n[..k];
    assert n[k..] == "." + zn;
    assert n == p + n[k..];
    NormIsLower(n);
    LowerSlice(n, 0, k);
    assert n[0..k] == p && Lower(n)[0..k] == p;
  }

  lemma LowerJoined(p: string, raw: string)
    ensures Lower(p + "." + raw) == Lower(p) + "." + Lower(raw)
  {
    LowerConcat(p + ".", raw);
    LowerConcat(p, ".");
  }

  /** The record made for a host reads back as that host, unless the host is "@." and the zone. */
  lemma FqdnInvertsRelative(n: string, z: Zone)
    requires Norm(n) == n && Holds(n, z)
    ensures Lower(Joined(Relative(n, z.name), RStripDots(z.name))) == n <==> n != "@." + Norm(z.name)
  {
    if n != Norm(z.name) {
      var p := HostParts(n, z);
      LowerJoined(p, RStripDots(z.name));
    }
  }

  lemma NormIsLower(n: string)
    requires Norm(n) == n
    ensures Lower(n) == n
  {
    LowerIdempotent(RStripDots(n));
  }

  // ---- the plan -----------------------------------------------------------------------

  /** The default view: the zones, and the records in them, each id once. */
  predicate ViewOk(zones: seq<Zone>, records: set<Rec>) {
    && (forall i, j :: 0 <= i < j < |zones| ==> zones[i].id != zones[j].id)
    && (forall r :: r in records ==> exists z :: z in zones && z.id == r.zone)
    && (forall r, q :: r in records && q in records && r.id == q.id ==> r == q)
  }

  function ZoneName(zones: seq<Zone>, id: int): string {
    if zones == [] then "" else if zones[0].id == id then zones[0].name else ZoneName(zones[1..], id)
  }

  lemma {:induction false} ZoneNameIs(zones: seq<Zone>, z: Zone)
    requires z in zones && forall i, j :: 0 <= i < j < |zones| ==> zones[i].id != zones[j].id
    ensures ZoneName(zones, z.id) == z.name
  {
    if z != zones[0] {
      assert forall i :: 0 <= i < |zones[1..]| ==> zones[1..][i] == zones[i + 1];
      ZoneNameIs(zones[1..], z);
    }
  }

  function RecordKey(zones: seq<Zone>, r: Rec): Key {
    (Lower(FqdnOf(r, ZoneName(zones, r.zone))), r.rtype)
  }

  function EndpointKey(e: Endpoint): Key {
    (Norm(e.dnsName), e.rtype)
  }

  function At(zones: seq<Zone>, records: set<Rec>, k: Key): set<Rec> {
    set r | r in records && RecordKey(zones, r) == k
  }

  /** Which records are at an endpoint: those of its type that NetBox gives its name for, or, where NetBox
      gives none, whose name in their zone is it, dots at the end and case aside. */
  lemma RecordIsAt(zones: seq<Zone>, records: set<Rec>, z: Zone, r: Rec, e: Endpoint)
    requires ViewOk(zones, records) && r in records && z in zones && r.zone == z.id
    ensures var called := if r.name == "@" then RStripDots(z.name) else r.name + "." + RStripDots(z.name);
      var host := if r.fqdn != "" then RStripDots(r.fqdn) else called;
      r in At(zones, records, EndpointKey(e)) <==>
        r.rtype == e.rtype && Lower(host) == Lower(RStripDots(e.dnsName))
  {
    ZoneNameIs(zones, z);
  }

  function Values(rs: set<Rec>): set<string> {
    set r | r in rs :: r.value
  }

  datatype Skip = TypeNotHandled | NoZone | HandMade

  function Skipped(zones: seq<Zone>, records: set<Rec>, e: Endpoint): Option<Skip> {
    if e.rtype !in TYPES then Some(TypeNotHandled)
    else if ZoneFor(Norm(e.dnsName), zones).None? then Some(NoZone)
    else if HandMadeAt(zones, records, EndpointKey(e)) then Some(HandMade)
    else None
  }

  predicate HandMadeAt(zones: seq<Zone>, records: set<Rec>, k: Key) {
    exists r :: r in At(zones, records, k) && !r.owned
  }

  /** Exactly which endpoints are planned, and else why not: another type, then no zone, then a record
      under the same name and type that isn't marked. */
  lemma SkippedExactly(zones: seq<Zone>, records: set<Rec>, e: Endpoint)
    ensures var name := Norm(e.dnsName);
      var handled, zoned := e.rtype in {"A", "AAAA", "CNAME", "TXT"}, exists z :: z in zones && Holds(name, z);
      var marked := forall r :: r in records && RecordKey(zones, r) == EndpointKey(e) ==> r.owned;
      Skipped(zones, records, e) ==
        if !handled then Some(TypeNotHandled) else if !zoned then Some(NoZone)
        else if !marked then Some(HandMade) else None
  {
    NormIdempotent(e.dnsName);
    ZoneFromHolds(Norm(e.dnsName), zones, None);
    if HandMadeAt(zones, records, EndpointKey(e)) {
      var r :| r in At(zones, records, EndpointKey(e)) && !r.owned;
    }
    forall r | r in records && RecordKey(zones, r) == EndpointKey(e) ensures r in At(zones, records, EndpointKey(e)) {}
  }

  /** The ids of the records at an endpoint's name and type whose value it doesn't ask for. */
  function Stale(zones: seq<Zone>, records: set<Rec>, e: Endpoint): set<int> {
    if Skipped(zones, records, e).Some? then {} else
      set r | r in At(zones, records, EndpointKey(e)) && r.value !in e.targets :: r.id
  }

  function Missing(zones: seq<Zone>, records: set<Rec>, e: Endpoint): seq<Create> {
    if Skipped(zones, records, e).Some? then []
    else
      var z := ZoneFor(Norm(e.dnsName), zones).value;
      CreateEach(z, Relative(Norm(e.dnsName), z.name), e,
        SortedSet(e.targets - Values(At(zones, records, EndpointKey(e)))))
  }

  function CreateEach(z: Zone, name: string, e: Endpoint, values: seq<string>): seq<Create> {
    seq(|values|, i requires 0 <= i < |values| => Create(z.id, name, e.rtype, values[i], e.ttl))
  }

  function Disowned(zones: seq<Zone>, records: set<Rec>, e: Endpoint): set<int> {
    set r | r in At(zones, records, EndpointKey(e)) && r.owned :: r.id
  }

  function Creates(zones: seq<Zone>, records: set<Rec>, wanted: seq<Endpoint>): seq<Create> {
    Flatten(seq(|wanted|, i requires 0 <= i < |wanted| => Missing(zones, records, wanted[i])))
  }

  function Flatten(lists: seq<seq<Create>>): seq<Create> {
    if lists == [] then [] else Flatten(lists[..|lists| - 1]) + lists[|lists| - 1]
  }

  lemma {:induction false} InFlatten(lists: seq<seq<Create>>, c: Create)
    ensures c in Flatten(lists) <==> exists i :: 0 <= i < |lists| && c in lists[i]
  {
    if lists != [] {
      var init := lists[..|lists| - 1];
      InFlatten(init, c);
      assert forall i :: 0 <= i < |init| ==> init[i] == lists[i];
    }
  }

  function Deletes(zones: seq<Zone>, records: set<Rec>, ch: Changes): set<int> {
    AllStale(zones, records, ch.wanted) + (set e, i | e in ch.gone && i in Disowned(zones, records, e) :: i)
  }

  function AllStale(zones: seq<Zone>, records: set<Rec>, wanted: seq<Endpoint>): set<int> {
    set e, i | e in wanted && i in Stale(zones, records, e) :: i
  }

  /** The endpoints left alone, by name and type, and why. */
  function AllSkipped(zones: seq<Zone>, records: set<Rec>, wanted: seq<Endpoint>): set<(Key, Skip)> {
    set e | e in wanted && Skipped(zones, records, e).Some? :: (EndpointKey(e), Skipped(zones, records, e).value)
  }

  // ---- NetBox (assumed: a DELETE drops the record, a POST stores one, with a new id, whose
  // fqdn is either absent or the name in its zone) ---------------------------------------------

  predicate StoredAs(zones: seq<Zone>, c: Create, r: Rec) {
    && r.zone == c.zone && r.name == c.name && r.rtype == c.rtype && r.value == c.value && r.ttl == c.ttl && r.owned
    && (r.fqdn == "" || r.fqdn == Joined(c.name, RStripDots(ZoneName(zones, c.zone))) + ".")
  }

  ghost predicate Applied(zones: seq<Zone>, before: set<Rec>, creates: seq<Create>, deletes: set<int>,
                          after: set<Rec>)
  {
    && ViewOk(zones, after)
    && (forall r :: r in before && r.id !in deletes ==> r in after)
    && (forall c :: c in creates ==> exists r :: r in after && StoredAs(zones, c, r))
    && (forall r :: r in after ==>
         (r in before && r.id !in deletes) || exists c :: c in creates && StoredAs(zones, c, r))
  }

  /** What ExternalDNS sends: each name and type once, none also to be deleted, and no host
      that is "@" under a zone. */
  predicate ChangesOk(zones: seq<Zone>, ch: Changes) {
    && (forall i, j :: 0 <= i < j < |ch.wanted| ==> EndpointKey(ch.wanted[i]) != EndpointKey(ch.wanted[j]))
    && (forall e, g :: e in ch.wanted && g in ch.gone ==> EndpointKey(e) != EndpointKey(g))
    && (forall e, z :: e in ch.wanted && z in zones ==> Norm(e.dnsName) != "@." + Norm(z.name))
  }

  lemma NoTrailingDot(s: string)
    ensures RStripDots(s) == "" || RStripDots(s)[|RStripDots(s)| - 1] != '.'
    ensures RStripDots(s + ".") == RStripDots(s)
  {
    assert (s + ".")[..|s|] == s;
  }

  lemma NormIdempotent(s: string)
    ensures Norm(Norm(s)) == Norm(s)
  {
    var t := RStripDots(s);
    NoTrailingDot(s);
    if t != "" { assert Lower(t)[|t| - 1] == LowerChar(t[|t| - 1]); }
    assert RStripDots(Lower(t)) == Lower(t);
    LowerIdempotent(t);
  }

  lemma JoinedKeepsNoDot(name: string, zone: string)
    requires zone != "" ==> zone[|zone| - 1] != '.'
    requires zone == "" ==> name == "@"
    ensures RStripDots(Joined(name, zone)) == Joined(name, zone)
  {
    var j := Joined(name, zone);
    if zone != "" { assert j[|j| - 1] == zone[|zone| - 1]; }
  }

  lemma StoredName(zones: seq<Zone>, z: Zone, n: string, c: Create, r: Rec)
    requires Norm(n) == n && Holds(n, z) && n != "@." + Norm(z.name)
    requires c.zone == z.id && ZoneName(zones, z.id) == z.name && c.name == Relative(n, z.name) && StoredAs(zones, c, r)
    ensures Lower(FqdnOf(r, z.name)) == n
  {
    var raw := RStripDots(z.name);
    FqdnInvertsRelative(n, z);
    NoTrailingDot(z.name);
    if raw == "" { NoRootHost(n, z); }
    JoinedKeepsNoDot(c.name, raw);
    NoTrailingDot(Joined(c.name, raw));
  }

  lemma MissingIs(zones: seq<Zone>, records: set<Rec>, e: Endpoint, c: Create) returns (z: Zone)
    requires c in Missing(zones, records, e)
    ensures Skipped(zones, records, e).None? && z in zones && Holds(Norm(e.dnsName), z)
    ensures Some(z) == ZoneFor(Norm(e.dnsName), zones)
    ensures c.zone == z.id && c.name == Relative(Norm(e.dnsName), z.name) && c.rtype == e.rtype && c.ttl == e.ttl
    ensures c.value in e.targets && c.value !in Values(At(zones, records, EndpointKey(e)))
  {
    z := ZoneFor(Norm(e.dnsName), zones).value;
    NormIdempotent(e.dnsName);
    ZoneFromHolds(Norm(e.dnsName), zones, None);
    var values := SortedSet(e.targets - Values(At(zones, records, EndpointKey(e))));
    var i :| 0 <= i < |values| && c == CreateEach(z, Relative(Norm(e.dnsName), z.name), e, values)[i];
    assert values[i] in values;
  }

  /** A record stored for an endpoint is found again under the endpoint's name and type. */
  lemma CreatedIsFound(zones: seq<Zone>, records: set<Rec>, e: Endpoint, c: Create, r: Rec)
    requires ViewOk(zones, records) && c in Missing(zones, records, e) && StoredAs(zones, c, r)
    requires forall z :: z in zones ==> Norm(e.dnsName) != "@." + Norm(z.name)
    ensures RecordKey(zones, r) == EndpointKey(e) && r.owned
    ensures r.value in e.targets && Skipped(zones, records, e).None?
  {
    var z := MissingIs(zones, records, e, c);
    NormIdempotent(e.dnsName);
    ZoneNameIs(zones, z);
    StoredName(zones, z, Norm(e.dnsName), c, r);
  }

  lemma NoRootHost(n: string, z: Zone)
    requires Norm(n) == n && Holds(n, z) && RStripDots(z.name) == ""
    ensures Relative(n, z.name) == "@"
  {
    RStripNorm(n);
    NoTrailingDot(n);
    assert Norm(z.name) == "" && "." + "" == ".";
    if EndsWith(n, ".") { LastIsDot(n); }
  }

  lemma LastIsDot(n: string)
    requires EndsWith(n, ".")
    ensures n[|n| - 1] == '.'
  {
    assert n[|n| - 1..][0] == n[|n| - 1];
  }

  lemma RStripNorm(n: string)
    requires Norm(n) == n
    ensures RStripDots(n) == n
  {
    StripPrefix(n);
    assert |Lower(RStripDots(n))| == |n|;
  }

  lemma {:induction false} StripPrefix(s: string)
    ensures RStripDots(s) <= s
  {
    if s != "" && s[|s| - 1] == '.' { StripPrefix(s[..|s| - 1]); }
  }

  lemma CreateHasEndpoint(zones: seq<Zone>, records: set<Rec>, wanted: seq<Endpoint>, c: Create) returns (e: Endpoint)
    requires c in Creates(zones, records, wanted)
    ensures e in wanted && c in Missing(zones, records, e)
  {
    var lists := seq(|wanted|, i requires 0 <= i < |wanted| => Missing(zones, records, wanted[i]));
    InFlatten(lists, c);
    var i :| 0 <= i < |lists| && c in lists[i];
    e := wanted[i];
  }

  lemma EndpointHasCreates(zones: seq<Zone>, records: set<Rec>, wanted: seq<Endpoint>, e: Endpoint, c: Create)
    requires e in wanted && c in Missing(zones, records, e)
    ensures c in Creates(zones, records, wanted)
  {
    var lists := seq(|wanted|, i requires 0 <= i < |wanted| => Missing(zones, records, wanted[i]));
    var i :| 0 <= i < |wanted| && wanted[i] == e;
    assert c in lists[i];
    InFlatten(lists, c);
  }

  lemma SameKeySameEndpoint(zones: seq<Zone>, ch: Changes, e: Endpoint, f: Endpoint)
    requires ChangesOk(zones, ch) && e in ch.wanted && f in ch.wanted && EndpointKey(e) == EndpointKey(f)
    ensures e == f
  {
  }

  lemma StaleIs(zones: seq<Zone>, records: set<Rec>, e: Endpoint, r: Rec)
    requires ViewOk(zones, records) && r in records && r.id in Stale(zones, records, e)
    ensures RecordKey(zones, r) == EndpointKey(e) && r.value !in e.targets && Skipped(zones, records, e).None? &&
      r.owned
  {
    var q :| q in At(zones, records, EndpointKey(e)) && q.value !in e.targets && q.id == r.id;
    assert q == r;
  }

  lemma DisownedIs(zones: seq<Zone>, records: set<Rec>, g: Endpoint, r: Rec)
    requires ViewOk(zones, records) && r in records && r.id in Disowned(zones, records, g)
    ensures RecordKey(zones, r) == EndpointKey(g) && r.owned
  {
    var q :| q in At(zones, records, EndpointKey(g)) && q.owned && q.id == r.id;
    assert q == r;
  }

  ghost predicate ForWanted(zones: seq<Zone>, records: set<Rec>, ch: Changes, r: Rec, e: Endpoint) {
    e in ch.wanted && RecordKey(zones, r) == EndpointKey(e) && r.value !in e.targets && Skipped(zones, records, e).None?
  }

  /** A record is deleted only when it carries the owner mark, and only for an endpoint of its
      own name and type: one that doesn't ask for its value, or one to be deleted. */
  lemma DeletedFor(zones: seq<Zone>, records: set<Rec>, ch: Changes, r: Rec)
    requires ViewOk(zones, records) && r in records && r.id in Deletes(zones, records, ch)
    ensures r.owned
    ensures (exists e :: ForWanted(zones, records, ch, r, e)) ||
      (exists g :: g in ch.gone && RecordKey(zones, r) == EndpointKey(g))
  {
    if e :| e in ch.wanted && r.id in Stale(zones, records, e) {
      StaleIs(zones, records, e, r);
      assert ForWanted(zones, records, ch, r, e);
    } else {
      var g :| g in ch.gone && r.id in Disowned(zones, records, g);
      DisownedIs(zones, records, g, r);
    }
  }

  ghost predicate AppliedPlan(zones: seq<Zone>, before: set<Rec>, ch: Changes, after: set<Rec>) {
    ViewOk(zones, before) && ChangesOk(zones, ch) &&
      Applied(zones, before, Creates(zones, before, ch.wanted), Deletes(zones, before, ch), after)
  }

  /** Where a record of the result comes from. */
  lemma Origin(zones: seq<Zone>, before: set<Rec>, ch: Changes, after: set<Rec>, r: Rec)
    requires AppliedPlan(zones, before, ch, after) && r in after
    ensures (r in before && r.id !in Deletes(zones, before, ch))
      || exists e ::
        e in ch.wanted && RecordKey(zones, r) == EndpointKey(e)
        && r.owned && r.value in e.targets && Skipped(zones, before, e).None?
  {
    if !(r in before && r.id !in Deletes(zones, before, ch)) {
      var c :| c in Creates(zones, before, ch.wanted) && StoredAs(zones, c, r);
      var e := CreateHasEndpoint(zones, before, ch.wanted, c);
      CreatedIsFound(zones, before, e, c, r);
    }
  }

  lemma RecordAfter(zones: seq<Zone>, before: set<Rec>, ch: Changes, after: set<Rec>, e: Endpoint, r: Rec)
    requires AppliedPlan(zones, before, ch, after) && e in ch.wanted && Skipped(zones, before, e).None?
    requires r in At(zones, after, EndpointKey(e))
    ensures r.owned && r.value in e.targets
  {
    Origin(zones, before, ch, after, r);
    if r in before && r.id !in Deletes(zones, before, ch) {
      assert r in At(zones, before, EndpointKey(e));
      if r.value !in e.targets { StaleOf(zones, before, e, r); }
    } else {
      var f :| f in ch.wanted && RecordKey(zones, r) == EndpointKey(f) && r.owned && r.value in f.targets;
      SameKeySameEndpoint(zones, ch, e, f);
    }
  }

  /** Every endpoint that isn't skipped ends with exactly the targets it asks for. */
  lemma TargetsAfter(zones: seq<Zone>, before: set<Rec>, ch: Changes, after: set<Rec>, e: Endpoint)
    requires AppliedPlan(zones, before, ch, after) && e in ch.wanted && Skipped(zones, before, e).None?
    ensures Values(At(zones, after, EndpointKey(e))) == e.targets
    ensures forall r :: r in At(zones, after, EndpointKey(e)) ==> r.owned
  {
    var k := EndpointKey(e);
    forall r | r in At(zones, after, k) ensures r.owned && r.value in e.targets {
      RecordAfter(zones, before, ch, after, e, r);
    }
    forall v | v in e.targets ensures v in Values(At(zones, after, k)) {
      TargetIsThere(zones, before, ch, after, e, v);
    }
  }

  lemma HeldTargetStays(zones: seq<Zone>, before: set<Rec>, ch: Changes, after: set<Rec>, e: Endpoint, r: Rec)
    requires AppliedPlan(zones, before, ch, after) && e in ch.wanted && r in before
    requires RecordKey(zones, r) == EndpointKey(e) && r.value in e.targets
    ensures r in after
  {
    if r.id in Deletes(zones, before, ch) {
      DeletedFor(zones, before, ch, r);
      if f :| ForWanted(zones, before, ch, r, f) { SameKeySameEndpoint(zones, ch, e, f); }
    }
  }

  lemma MissingTargetCreated(zones: seq<Zone>, before: set<Rec>, e: Endpoint, v: string) returns (c: Create)
    requires Skipped(zones, before, e).None? && v in e.targets && v !in Values(At(zones, before, EndpointKey(e)))
    ensures c in Missing(zones, before, e) && c.value == v
  {
    var values := SortedSet(e.targets - Values(At(zones, before, EndpointKey(e))));
    assert v in values;
    var i :| 0 <= i < |values| && values[i] == v;
    c := Missing(zones, before, e)[i];
  }

  lemma TargetIsThere(zones: seq<Zone>, before: set<Rec>, ch: Changes, after: set<Rec>, e: Endpoint, v: string)
    requires AppliedPlan(zones, before, ch, after) && e in ch.wanted && Skipped(zones, before, e).None? &&
      v in e.targets
    ensures v in Values(At(zones, after, EndpointKey(e)))
  {
    var r: Rec;
    if v in Values(At(zones, before, EndpointKey(e))) {
      r :| r in At(zones, before, EndpointKey(e)) && r.value == v;
      HeldTargetStays(zones, before, ch, after, e, r);
    } else {
      var c := MissingTargetCreated(zones, before, e, v);
      EndpointHasCreates(zones, before, ch.wanted, e, c);
      r :| r in after && StoredAs(zones, c, r);
      CreatedIsFound(zones, before, e, c, r);
    }
    assert r in At(zones, after, EndpointKey(e)) && r.value == v;
  }

  /** Applying never changes which endpoints are skipped, or why. */
  lemma SkipsStay(zones: seq<Zone>, before: set<Rec>, ch: Changes, after: set<Rec>, e: Endpoint)
    requires AppliedPlan(zones, before, ch, after)
    ensures Skipped(zones, after, e) == Skipped(zones, before, e)
  {
    HandMadeSame(zones, before, ch, after, EndpointKey(e));
  }

  lemma HandMadeSame(zones: seq<Zone>, before: set<Rec>, ch: Changes, after: set<Rec>, k: Key)
    requires AppliedPlan(zones, before, ch, after)
    ensures HandMadeAt(zones, before, k) <==> HandMadeAt(zones, after, k)
  {
    if HandMadeAt(zones, before, k) {
      var r :| r in At(zones, before, k) && !r.owned;
      HandMadeStays(zones, before, ch, after, k, r);
    }
    if HandMadeAt(zones, after, k) {
      var r :| r in At(zones, after, k) && !r.owned;
      HandMadeWas(zones, before, ch, after, k, r);
    }
  }

  lemma HandMadeStays(zones: seq<Zone>, before: set<Rec>, ch: Changes, after: set<Rec>, k: Key, r: Rec)
    requires AppliedPlan(zones, before, ch, after) && r in At(zones, before, k) && !r.owned
    ensures r in At(zones, after, k)
  {
    if r.id in Deletes(zones, before, ch) { DeletedFor(zones, before, ch, r); }
  }

  lemma HandMadeWas(zones: seq<Zone>, before: set<Rec>, ch: Changes, after: set<Rec>, k: Key, r: Rec)
    requires AppliedPlan(zones, before, ch, after) && r in At(zones, after, k) && !r.owned
    ensures r in At(zones, before, k)
  {
    Origin(zones, before, ch, after, r);
  }

  lemma NothingMissing(zones: seq<Zone>, records: set<Rec>, wanted: seq<Endpoint>)
    requires forall e :: e in wanted ==> Missing(zones, records, e) == []
    ensures Creates(zones, records, wanted) == []
  {
    if Creates(zones, records, wanted) != [] {
      var e := CreateHasEndpoint(zones, records, wanted, Creates(zones, records, wanted)[0]);
    }
  }

  lemma DisownedOf(zones: seq<Zone>, records: set<Rec>, g: Endpoint, r: Rec)
    requires r in records && RecordKey(zones, r) == EndpointKey(g) && r.owned
    ensures r.id in Disowned(zones, records, g)
  {
    assert r in At(zones, records, EndpointKey(g));
  }

  lemma StaleOf(zones: seq<Zone>, records: set<Rec>, e: Endpoint, r: Rec)
    requires r in records && RecordKey(zones, r) == EndpointKey(e) && r.value !in e.targets &&
      Skipped(zones, records, e).None?
    ensures r.id in Stale(zones, records, e)
  {
    assert r in At(zones, records, EndpointKey(e));
  }

  /** Planning again for the same changes does nothing. */
  lemma ReplanIsNoOp(zones: seq<Zone>, before: set<Rec>, ch: Changes, after: set<Rec>)
    requires AppliedPlan(zones, before, ch, after)
    ensures Creates(zones, after, ch.wanted) == [] && Deletes(zones, after, ch) == {}
  {
    forall e | e in ch.wanted ensures Missing(zones, after, e) == [] && Stale(zones, after, e) == {} {
      SkipsStay(zones, before, ch, after, e);
      if Skipped(zones, before, e).None? {
        TargetsAfter(zones, before, ch, after, e);
        forall r | r in At(zones, after, EndpointKey(e)) ensures r.value in e.targets {
          assert r.value in Values(At(zones, after, EndpointKey(e)));
        }
        assert e.targets - Values(At(zones, after, EndpointKey(e))) == {};
      }
    }
    NothingMissing(zones, after, ch.wanted);
    forall g | g in ch.gone ensures Disowned(zones, after, g) == {} {
      forall r | r in At(zones, after, EndpointKey(g)) ensures !r.owned {
        Origin(zones, before, ch, after, r);
        if r.owned && r in before { DisownedOf(zones, before, g, r); }
      }
    }
  }

  /** What ExternalDNS gives up goes: of an endpoint to be deleted just the records without the mark
      are left. */
  lemma GoneAreDeleted(zones: seq<Zone>, before: set<Rec>, ch: Changes, after: set<Rec>, g: Endpoint)
    requires AppliedPlan(zones, before, ch, after) && g in ch.gone
    ensures At(zones, after, EndpointKey(g)) == set r | r in At(zones, before, EndpointKey(g)) && !r.owned
  {
    var k := EndpointKey(g);
    forall r ensures r in At(zones, after, k) <==> r in At(zones, before, k) && !r.owned {
      if r in At(zones, after, k) {
        Origin(zones, before, ch, after, r);
        if r.owned && r in before { GoneIsDeleted(zones, before, ch, g, r); }
      }
      if r in At(zones, before, k) && !r.owned { HandMadeStays(zones, before, ch, after, k, r); }
    }
  }

  lemma GoneIsDeleted(zones: seq<Zone>, records: set<Rec>, ch: Changes, g: Endpoint, r: Rec)
    requires g in ch.gone && r in records && RecordKey(zones, r) == EndpointKey(g) && r.owned
    ensures r.id in Deletes(zones, records, ch)
  {
    DisownedOf(zones, records, g, r);
  }

  /** Every other record is left as it was, and none appears. */
  lemma OthersUntouched(zones: seq<Zone>, before: set<Rec>, ch: Changes, after: set<Rec>, r: Rec)
    requires AppliedPlan(zones, before, ch, after)
    requires forall e :: e in ch.wanted + ch.gone ==> EndpointKey(e) != RecordKey(zones, r)
    ensures r in after <==> r in before
  {
    if r in before && r.id in Deletes(zones, before, ch) { DeletedFor(zones, before, ch, r); }
    if r in after { Origin(zones, before, ch, after, r); }
  }

  // ---- as the program does it ----------------------------------------------------------------

  lemma {:induction false} ZoneFromSplit(fqdn: string, a: seq<Zone>, b: seq<Zone>, best: Option<Zone>)
    ensures ZoneFrom(fqdn, a + b, best) == ZoneFrom(fqdn, b, ZoneFrom(fqdn, a, best))
  {
    if a == [] { assert a + b == b; } else {
      assert (a + b)[1..] == a[1..] + b;
      ZoneFromSplit(fqdn, a[1..], b, Better(fqdn, best, a[0]));
    }
  }

  /** zone_for. */
  method FindZone(fqdn: string, zones: seq<Zone>) returns (best: Option<Zone>)
    ensures best == ZoneFor(fqdn, zones)
    ensures best.Some? ==> best.value in zones && Holds(Norm(fqdn), best.value)
    ensures best.None? ==> forall z :: z in zones ==> !Holds(Norm(fqdn), z)
    ensures NoneHides(zones) ==> Longest(Norm(fqdn), zones, best)
  {
    var f := Norm(fqdn);
    best := None;
    for i := 0 to |zones|
      invariant best == ZoneFrom(f, zones[..i], None)
    {
      ZoneFromSplit(f, zones[..i], [zones[i]], None);
      assert zones[..i + 1] == zones[..i] + [zones[i]];
      var name := Norm(zones[i].name);
      if (f == name || EndsWith(f, "." + name)) && (best.None? || |name| > |best.value.name|) {
        best := Some(zones[i]);
      }
    }
    assert zones[..|zones|] == zones;
    ZoneFromHolds(f, zones, None);
    LongestExactlyWhen(zones);
    assert Among(zones, zones);
  }

  function ByKey(current: map<Key, seq<Rec>>, k: Key): seq<Rec> {
    if k in current then current[k] else []
  }

  lemma AtOneMore(zones: seq<Zone>, some: set<Rec>, r: Rec, k: Key)
    ensures At(zones, some + {r}, k) == At(zones, some, k) + (if RecordKey(zones, r) == k then {r} else {})
  {
  }

  /** The records grouped by lower-case name and type. */
  method Current(zones: seq<Zone>, records: seq<Rec>) returns (current: map<Key, seq<Rec>>)
    ensures forall k :: AsSet(ByKey(current, k)) == At(zones, AsSet(records), k)
  {
    current := map[];
    for i := 0 to |records|
      invariant forall k :: AsSet(ByKey(current, k)) == At(zones, AsSet(records[..i]), k)
    {
      var r := records[i];
      AsSetOneMore(records, i);
      var k := RecordKey(zones, r);
      ghost var before := current;
      current := current[k := ByKey(current, k) + [r]];
      assert AsSet(ByKey(before, k) + [r]) == AsSet(ByKey(before, k)) + {r};
      forall q ensures AsSet(ByKey(current, q)) == At(zones, AsSet(records[..i + 1]), q) {
        AtOneMore(zones, AsSet(records[..i]), r, q);
        if q != k { assert ByKey(current, q) == ByKey(before, q); }
      }
    }
    assert records[..|records|] == records;
  }

  lemma FromHave(rs: set<Rec>, have: seq<Rec>, targets: set<string>)
    requires AsSet(have) == rs
    ensures (set r | r in have && r.value !in targets :: r.id) == set r | r in rs && r.value !in targets :: r.id
    ensures (set r | r in have && r.owned :: r.id) == set r | r in rs && r.owned :: r.id
    ensures (set r | r in have :: r.value) == Values(rs)
    ensures (exists r :: r in have && !r.owned) <==> (exists r :: r in rs && !r.owned)
  {
    assert forall r :: r in have <==> r in rs;
  }

  function Made(z: Zone, name: string, e: Endpoint, held: set<string>): seq<Create> {
    CreateEach(z, Relative(name, z.name), e, SortedSet(e.targets - held))
  }

  /** One wanted endpoint's turn. */
  method PlanOne(zones: seq<Zone>, ghost records: set<Rec>, e: Endpoint, have: seq<Rec>)
    returns (creates: seq<Create>, deletes: set<int>, skip: Option<Skip>)
    requires AsSet(have) == At(zones, records, EndpointKey(e))
    ensures skip == Skipped(zones, records, e)
    ensures creates == Missing(zones, records, e)
    ensures deletes == Stale(zones, records, e)
  {
    creates, deletes := [], {};
    if e.rtype !in TYPES { skip := Some(TypeNotHandled); return; }
    var zone := FindZone(Norm(e.dnsName), zones);
    if zone.None? { skip := Some(NoZone); return; }
    ghost var rs := At(zones, records, EndpointKey(e));
    FromHave(rs, have, e.targets);
    if exists r :: r in have && !r.owned { skip := Some(HandMade); return; }
    skip := None;
    deletes := set r | r in have && r.value !in e.targets :: r.id;
    creates := Made(zone.value, Norm(e.dnsName), e, set r | r in have :: r.value);
  }

  lemma OneMoreWanted(zones: seq<Zone>, records: set<Rec>, wanted: seq<Endpoint>, i: nat)
    requires i < |wanted|
    ensures AllStale(zones, records, wanted[..i + 1]) ==
      AllStale(zones, records, wanted[..i]) + Stale(zones, records, wanted[i])
    ensures var skip := Skipped(zones, records, wanted[i]);
      AllSkipped(zones, records, wanted[..i + 1]) ==
        AllSkipped(zones, records, wanted[..i]) + (if skip.Some? then {(EndpointKey(wanted[i]), skip.value)} else {})
  {
    assert wanted[..i + 1] == wanted[..i] + [wanted[i]];
    assert forall e :: e in wanted[..i + 1] <==> e in wanted[..i] || e == wanted[i];
  }

  lemma OneMoreCreates(zones: seq<Zone>, records: set<Rec>, wanted: seq<Endpoint>, i: nat)
    requires i < |wanted|
    ensures Creates(zones, records, wanted[..i + 1]) ==
      Creates(zones, records, wanted[..i]) + Missing(zones, records, wanted[i])
  {
    var a := seq(i, j requires 0 <= j < i => Missing(zones, records, wanted[..i][j]));
    var b := seq(i + 1, j requires 0 <= j < i + 1 => Missing(zones, records, wanted[..i + 1][j]));
    assert b[..|b| - 1] == a;
  }

  /** The loop over what is to be created or updated. */
  method PlanWanted(zones: seq<Zone>, ghost records: set<Rec>, current: map<Key, seq<Rec>>, wanted: seq<Endpoint>)
    returns (creates: seq<Create>, deletes: set<int>, skipped: set<(Key, Skip)>)
    requires forall k :: AsSet(ByKey(current, k)) == At(zones, records, k)
    ensures creates == Creates(zones, records, wanted)
    ensures deletes == AllStale(zones, records, wanted)
    ensures skipped == AllSkipped(zones, records, wanted)
  {
    creates, deletes, skipped := [], {}, {};
    for i := 0 to |wanted|
      invariant creates == Creates(zones, records, wanted[..i])
      invariant deletes == AllStale(zones, records, wanted[..i])
      invariant skipped == AllSkipped(zones, records, wanted[..i])
    {
      var more, stale, skip := PlanOne(zones, records, wanted[i], ByKey(current, EndpointKey(wanted[i])));
      OneMoreWanted(zones, records, wanted, i);
      OneMoreCreates(zones, records, wanted, i);
      creates, deletes := creates + more, deletes + stale;
      skipped := skipped + (if skip.Some? then {(EndpointKey(wanted[i]), skip.value)} else {});
    }
    assert wanted[..|wanted|] == wanted;
  }

  /** The loop over what is to be deleted. */
  method PlanGone(zones: seq<Zone>, ghost records: set<Rec>, current: map<Key, seq<Rec>>, gone: seq<Endpoint>)
    returns (deletes: set<int>)
    requires forall k :: AsSet(ByKey(current, k)) == At(zones, records, k)
    ensures deletes == set e, d | e in gone && d in Disowned(zones, records, e) :: d
  {
    deletes := {};
    for i := 0 to |gone|
      invariant deletes == set e, d | e in gone[..i] && d in Disowned(zones, records, e) :: d
    {
      var have := ByKey(current, EndpointKey(gone[i]));
      assert gone[..i + 1] == gone[..i] + [gone[i]];
      FromHave(At(zones, records, EndpointKey(gone[i])), have, {});
      var owned := set r | r in have && r.owned :: r.id;
      assert owned == Disowned(zones, records, gone[i]);
      deletes := deletes + owned;
    }
    assert gone[..|gone|] == gone;
  }

  /** plan: what to create, in order, what to delete, and which endpoints are skipped and why. */
  method Plan(ch: Changes, records: seq<Rec>, zones: seq<Zone>)
    returns (creates: seq<Create>, deletes: set<int>, skipped: set<(Key, Skip)>)
    ensures creates == Creates(zones, AsSet(records), ch.wanted)
    ensures deletes == Deletes(zones, AsSet(records), ch)
    ensures skipped == AllSkipped(zones, AsSet(records), ch.wanted)
    ensures forall r, g :: r in records && g in ch.gone && r.owned && RecordKey(zones, r) == EndpointKey(g) ==>
      r.id in deletes
  {
    forall r, g | r in records && g in ch.gone && r.owned && RecordKey(zones, r) == EndpointKey(g)
      ensures r.id in Deletes(zones, AsSet(records), ch)
    {
      GoneIsDeleted(zones, AsSet(records), ch, g, r);
    }
    var current := Current(zones, records);
    var stale, gone;
    creates, stale, skipped := PlanWanted(zones, AsSet(records), current, ch.wanted);
    gone := PlanGone(zones, AsSet(records), current, ch.gone);
    deletes := stale + gone;
  }

  // ---- what ExternalDNS is told ------------------------------------------------------------------

  function SpelledKey(zones: seq<Zone>, r: Rec): Key {
    (FqdnOf(r, ZoneName(zones, r.zone)), r.rtype)
  }

  /** A record `endpoints` tells of under a key. */
  predicate ListedAt(zones: seq<Zone>, r: Rec, k: Key) {
    r.owned && r.rtype in TYPES && SpelledKey(zones, r) == k
  }

  function ValuesOf(zones: seq<Zone>, records: seq<Rec>, k: Key): seq<string> {
    if records == [] then [] else
      var more, r := ValuesOf(zones, records[..|records| - 1], k), records[|records| - 1];
      if ListedAt(zones, r, k) then more + [r.value] else more
  }

  predicate Lists(zones: seq<Zone>, records: seq<Rec>, k: Key) {
    exists r :: r in records && ListedAt(zones, r, k)
  }

  /** The TTL of the first record listed under a key. */
  function FirstTtl(zones: seq<Zone>, records: seq<Rec>, k: Key): nat {
    if records == [] then 0 else
      var more, r := records[..|records| - 1], records[|records| - 1];
      if ValuesOf(zones, more, k) == [] && ListedAt(zones, r, k) then r.ttl else FirstTtl(zones, more, k)
  }

  lemma OneMoreListed(zones: seq<Zone>, records: seq<Rec>, i: nat, k: Key)
    requires i < |records|
    ensures var more, r := records[..i], records[i];
      var here := ListedAt(zones, r, k);
      && ValuesOf(zones, records[..i + 1], k) == ValuesOf(zones, more, k) + (if here then [r.value] else [])
      && FirstTtl(zones, records[..i + 1], k) ==
        if ValuesOf(zones, more, k) == [] && here then r.ttl else FirstTtl(zones, more, k)
  {
    assert records[..i + 1][..i] == records[..i];
    assert ValuesOf(zones, records[..i], k) + [] == ValuesOf(zones, records[..i], k);
  }

  /** Names first, then types, both by code point. */
  predicate KeyLe(a: Key, b: Key) {
    if a.0 == b.0 then StrLe(a.1, b.1) else StrLe(a.0, b.0)
  }

  predicate KeysAscend(keys: seq<Key>) {
    forall i, j :: 0 <= i < j < |keys| ==> KeyLe(keys[i], keys[j]) && keys[i] != keys[j]
  }

  function InsertKey(k: Key, sorted: seq<Key>): seq<Key> {
    if sorted == [] || KeyLe(k, sorted[0]) then [k] + sorted else [sorted[0]] + InsertKey(k, sorted[1..])
  }

  lemma KeyOrder(a: Key, b: Key, c: Key)
    ensures KeyLe(a, b) || KeyLe(b, a)
    ensures KeyLe(a, b) && KeyLe(b, c) ==> KeyLe(a, c)
  {
    StrLeTotal(a.0, b.0);
    StrLeTotal(a.1, b.1);
    StrLeTotal(b.0, c.0);
    if KeyLe(a, b) && KeyLe(b, c) {
      if a.0 == b.0 == c.0 {
        StrLeTransitive(a.1, b.1, c.1);
      } else {
        StrLeTransitive(a.0, b.0, c.0);
      }
    }
  }

  lemma {:induction false} InsertKeyAscends(k: Key, sorted: seq<Key>)
    requires KeysAscend(sorted) && k !in sorted
    ensures KeysAscend(InsertKey(k, sorted))
    ensures forall q :: q in InsertKey(k, sorted) <==> q == k || q in sorted
  {
    if sorted == [] {
    } else if KeyLe(k, sorted[0]) {
      forall j | 0 <= j < |sorted| ensures KeyLe(k, sorted[j]) { KeyOrder(k, sorted[0], sorted[j]); }
    } else {
      var tl := sorted[1..];
      assert sorted == [sorted[0]] + tl;
      InsertKeyAscends(k, tl);
      KeyOrder(k, sorted[0], k);
      forall q | q in InsertKey(k, tl) ensures KeyLe(sorted[0], q) && sorted[0] != q {
        if q != k {
          var j :| 0 <= j < |tl| && tl[j] == q;
          assert sorted[0] != sorted[j + 1];
        }
      }
    }
  }

  /** An ExternalDNS endpoint as it is told. */
  datatype Told = Told(key: Key, targets: seq<string>, ttl: nat)

  function ToldAt(zones: seq<Zone>, records: seq<Rec>, k: Key): Told {
    Told(k, SortByKey(ValuesOf(zones, records, k), (v: string) => v), FirstTtl(zones, records, k))
  }

  /** endpoints: the owned records as one endpoint per name and type, in that order, each with its
      targets sorted and the TTL of its first record. */
  method Endpoints(zones: seq<Zone>, records: seq<Rec>) returns (told: seq<Told>)
    ensures forall i, j :: 0 <= i < j < |told| ==> KeyLe(told[i].key, told[j].key) && told[i].key != told[j].key
    ensures forall k :: Lists(zones, records, k) <==> exists t :: t in told && t.key == k
    ensures forall t :: t in told ==> t == ToldAt(zones, records, t.key)
  {
    var keys, unsorted, ttls := Grouped(zones, records);
    told := [];
    for i := 0 to |keys|
      invariant |told| == i && forall j :: 0 <= j < i ==> told[j] == ToldAt(zones, records, keys[j])
    {
      GroupedIsTold(zones, records, keys, unsorted, ttls, keys[i]);
      told := told + [Tell(keys[i], unsorted, ttls)];
    }
    KeysToldAre(zones, records, keys, unsorted, ttls, told);
  }

  function Tell(k: Key, unsorted: map<Key, seq<string>>, ttls: map<Key, nat>): Told
    requires k in unsorted && k in ttls
  {
    Told(k, SortByKey(unsorted[k], (v: string) => v), ttls[k])
  }

  lemma GroupedIsTold(zones: seq<Zone>, records: seq<Rec>, keys: seq<Key>, unsorted: map<Key, seq<string>>,
                      ttls: map<Key, nat>, k: Key)
    requires GroupedAre(zones, records, keys, unsorted, ttls) && k in keys
    ensures k in unsorted && k in ttls && Tell(k, unsorted, ttls) == ToldAt(zones, records, k)
  {
  }

  lemma KeysToldAre(zones: seq<Zone>, records: seq<Rec>, keys: seq<Key>, unsorted: map<Key, seq<string>>,
                    ttls: map<Key, nat>, told: seq<Told>)
    requires GroupedAre(zones, records, keys, unsorted, ttls)
    requires |told| == |keys| && forall j :: 0 <= j < |keys| ==> told[j].key == keys[j]
    ensures forall k :: Lists(zones, records, k) <==> exists t :: t in told && t.key == k
  {
    forall k ensures Lists(zones, records, k) <==> exists t :: t in told && t.key == k {
      ListsWhenValues(zones, records, k);
      if k in keys {
        var j :| 0 <= j < |keys| && keys[j] == k;
        assert told[j] in told && told[j].key == k;
      }
    }
  }

  /** What the loop knows of the keys met so far. */
  ghost predicate GroupedAre(zones: seq<Zone>, records: seq<Rec>,
                             keys: seq<Key>, unsorted: map<Key, seq<string>>, ttls: map<Key, nat>)
  {
    && KeysAscend(keys) && (forall k :: k in keys <==> k in unsorted)
    && EachGrouped(zones, records, unsorted, ttls)
  }

  ghost predicate EachGrouped(zones: seq<Zone>, records: seq<Rec>,
                              unsorted: map<Key, seq<string>>, ttls: map<Key, nat>)
  {
    && unsorted.Keys == ttls.Keys
    && (forall k :: ValuesOf(zones, records, k) == if k in unsorted then unsorted[k] else [])
    && (forall k :: k in unsorted ==> unsorted[k] != [] && ttls[k] == FirstTtl(zones, records, k))
  }

  /** The loop of `endpoints`, its keys kept in order. */
  method Grouped(zones: seq<Zone>, records: seq<Rec>)
    returns (keys: seq<Key>, unsorted: map<Key, seq<string>>, ttls: map<Key, nat>)
    ensures GroupedAre(zones, records, keys, unsorted, ttls)
  {
    keys, unsorted, ttls := [], map[], map[];
    for i := 0 to |records|
      invariant GroupedAre(zones, records[..i], keys, unsorted, ttls)
    {
      var r := records[i];
      if r.owned && r.rtype in TYPES {
        var k := SpelledKey(zones, r);
        if k in unsorted {
          KnownKeyGrouped(zones, records, i, keys, unsorted, ttls);
          unsorted := unsorted[k := unsorted[k] + [r.value]];
        } else {
          NewKeyGrouped(zones, records, i, keys, unsorted, ttls);
          keys, unsorted, ttls := InsertKey(k, keys), unsorted[k := [r.value]], ttls[k := r.ttl];
        }
      } else {
        NoMoreGrouped(zones, records, i, keys, unsorted, ttls);
      }
    }
    assert records[..|records|] == records;
  }

  lemma NoMoreGrouped(zones: seq<Zone>, records: seq<Rec>, i: nat,
                      keys: seq<Key>, unsorted: map<Key, seq<string>>, ttls: map<Key, nat>)
    requires i < |records| && GroupedAre(zones, records[..i], keys, unsorted, ttls)
    requires !(records[i].owned && records[i].rtype in TYPES)
    ensures GroupedAre(zones, records[..i + 1], keys, unsorted, ttls)
  {
    forall k { OneMoreListed(zones, records, i, k); }
  }

  lemma KnownKeyGrouped(zones: seq<Zone>, records: seq<Rec>, i: nat,
                        keys: seq<Key>, unsorted: map<Key, seq<string>>, ttls: map<Key, nat>)
    requires i < |records| && GroupedAre(zones, records[..i], keys, unsorted, ttls)
    requires records[i].owned && records[i].rtype in TYPES && SpelledKey(zones, records[i]) in unsorted
    ensures var r, k := records[i], SpelledKey(zones, records[i]);
      GroupedAre(zones, records[..i + 1], keys, unsorted[k := unsorted[k] + [r.value]], ttls)
  {
    forall q { OneMoreListed(zones, records, i, q); }
  }

  lemma NewKeyGrouped(zones: seq<Zone>, records: seq<Rec>, i: nat,
                      keys: seq<Key>, unsorted: map<Key, seq<string>>, ttls: map<Key, nat>)
    requires i < |records| && GroupedAre(zones, records[..i], keys, unsorted, ttls)
    requires records[i].owned && records[i].rtype in TYPES && SpelledKey(zones, records[i]) !in unsorted
    ensures var r, k := records[i], SpelledKey(zones, records[i]);
      GroupedAre(zones, records[..i + 1], InsertKey(k, keys), unsorted[k := [r.value]], ttls[k := r.ttl])
  {
    InsertKeyAscends(SpelledKey(zones, records[i]), keys);
    NewKeyEach(zones, records, i, unsorted, ttls);
  }

  lemma NewKeyEach(zones: seq<Zone>, records: seq<Rec>, i: nat, unsorted: map<Key, seq<string>>, ttls: map<Key, nat>)
    requires i < |records| && EachGrouped(zones, records[..i], unsorted, ttls)
    requires records[i].owned && records[i].rtype in TYPES && SpelledKey(zones, records[i]) !in unsorted
    ensures var r, k := records[i], SpelledKey(zones, records[i]);
      EachGrouped(zones, records[..i + 1], unsorted[k := [r.value]], ttls[k := r.ttl])
  {
    forall q { OneMoreListed(zones, records, i, q); }
  }

  lemma {:induction false} ValuesOfAre(zones: seq<Zone>, records: seq<Rec>, k: Key, v: string)
    ensures v in ValuesOf(zones, records, k) <==> exists r :: r in records && ListedAt(zones, r, k) && r.value == v
  {
    if records != [] {
      ValuesOfAre(zones, records[..|records| - 1], k, v);
      assert records == records[..|records| - 1] + [records[|records| - 1]];
    }
  }

  lemma ListsWhenValues(zones: seq<Zone>, records: seq<Rec>, k: Key)
    ensures Lists(zones, records, k) <==> ValuesOf(zones, records, k) != []
  {
    if ValuesOf(zones, records, k) != [] {
      ValuesOfAre(zones, records, k, ValuesOf(zones, records, k)[0]);
    }
    if r :| r in records && ListedAt(zones, r, k) {
      ValuesOfAre(zones, records, k, r.value);
    }
  }

  // ---- what ExternalDNS sees of its own changes ----------------------------------------------------

  /** The value has a record at the key whose own spelling is the key's. */
  predicate SpelledLow(zones: seq<Zone>, records: set<Rec>, k: Key, v: string) {
    exists r :: r in At(zones, records, k) && SpelledKey(zones, r) == k && r.value == v
  }

  /** What decides, before the run, whether a target will be told: the spelling of the records that
      hold it already, or, when it has to be created, of its zone. */
  predicate WillBeTold(zones: seq<Zone>, before: set<Rec>, e: Endpoint, v: string)
    requires Skipped(zones, before, e).None?
  {
    if v in Values(At(zones, before, EndpointKey(e))) then SpelledLow(zones, before, EndpointKey(e), v)
    else
      var z := ZoneFor(Norm(e.dnsName), zones).value;
      RStripDots(z.name) == Norm(z.name)
  }

  lemma JoinedSpelled(n: string, z: Zone)
    requires Norm(n) == n && Holds(n, z) && n != "@." + Norm(z.name)
    ensures Joined(Relative(n, z.name), RStripDots(z.name)) == n <==> RStripDots(z.name) == Norm(z.name)
  {
    if n != Norm(z.name) {
      var p := HostParts(n, z);
      var raw := RStripDots(z.name);
      assert (p + "." + raw)[|p| + 1..] == raw && (p + "." + Norm(z.name))[|p| + 1..] == Norm(z.name);
    }
  }

  /** A stored record is spelled as its zone is. */
  lemma StoredSpelled(zones: seq<Zone>, z: Zone, n: string, c: Create, r: Rec)
    requires Norm(n) == n && Holds(n, z) && n != "@." + Norm(z.name)
    requires c.zone == z.id && ZoneName(zones, z.id) == z.name && c.name == Relative(n, z.name) && StoredAs(zones, c, r)
    ensures FqdnOf(r, z.name) == n <==> RStripDots(z.name) == Norm(z.name)
  {
    var raw := RStripDots(z.name);
    NoTrailingDot(z.name);
    if raw == "" { NoRootHost(n, z); }
    JoinedKeepsNoDot(c.name, raw);
    NoTrailingDot(Joined(c.name, raw));
    JoinedSpelled(n, z);
  }

  lemma CreatedSpelled(zones: seq<Zone>, before: set<Rec>, e: Endpoint, c: Create, r: Rec)
    requires ViewOk(zones, before) && c in Missing(zones, before, e) && StoredAs(zones, c, r)
    requires forall z :: z in zones ==> Norm(e.dnsName) != "@." + Norm(z.name)
    ensures Skipped(zones, before, e).None? && r.value !in Values(At(zones, before, EndpointKey(e)))
    ensures SpelledKey(zones, r) == EndpointKey(e) <==> WillBeTold(zones, before, e, r.value)
  {
    var z := MissingIs(zones, before, e, c);
    NormIdempotent(e.dnsName);
    ZoneNameIs(zones, z);
    StoredSpelled(zones, z, Norm(e.dnsName), c, r);
  }

  /** A record of the result at an endpoint's key was there before, or is spelled as its zone is. */
  lemma SpelledAfter(zones: seq<Zone>, before: set<Rec>, ch: Changes, after: set<Rec>, e: Endpoint, r: Rec)
    requires AppliedPlan(zones, before, ch, after) && e in ch.wanted && Skipped(zones, before, e).None?
    requires r in At(zones, after, EndpointKey(e))
    ensures r in before || (r.value !in Values(At(zones, before, EndpointKey(e)))
      && (SpelledKey(zones, r) == EndpointKey(e) <==> WillBeTold(zones, before, e, r.value)))
  {
    if r !in before {
      var c :| c in Creates(zones, before, ch.wanted) && StoredAs(zones, c, r);
      var f := CreateHasEndpoint(zones, before, ch.wanted, c);
      CreatedIsFound(zones, before, f, c, r);
      SameKeySameEndpoint(zones, ch, e, f);
      CreatedSpelled(zones, before, e, c, r);
    }
  }

  lemma HeldValue(zones: seq<Zone>, before: set<Rec>, k: Key, r: Rec)
    ensures r in before && RecordKey(zones, r) == k ==> r.value in Values(At(zones, before, k))
  {
    assert r in before && RecordKey(zones, r) == k ==> r in At(zones, before, k);
  }

  lemma SpelledLowAfter(zones: seq<Zone>, before: set<Rec>, ch: Changes, after: set<Rec>, e: Endpoint, v: string)
    requires AppliedPlan(zones, before, ch, after) && e in ch.wanted && Skipped(zones, before, e).None? &&
      v in e.targets
    ensures SpelledLow(zones, after, EndpointKey(e), v) <==> WillBeTold(zones, before, e, v)
  {
    var k := EndpointKey(e);
    if v in Values(At(zones, before, k)) {
      forall r | r in At(zones, before, k) && r.value == v ensures r in after {
        HeldTargetStays(zones, before, ch, after, e, r);
      }
      forall r | r in At(zones, after, k) && r.value == v ensures r in before {
        SpelledAfter(zones, before, ch, after, e, r);
      }
    } else {
      TargetIsThere(zones, before, ch, after, e, v);
      forall r | r in At(zones, after, k) && r.value == v
        ensures SpelledKey(zones, r) == k <==> WillBeTold(zones, before, e, v)
      {
        HeldValue(zones, before, k, r);
        SpelledAfter(zones, before, ch, after, e, r);
      }
    }
  }

  /** ExternalDNS is then told, for every endpoint that wasn't skipped, exactly those of its targets
      that were held in lower case, or, where they had to be created, whose zone is spelled so:
      `plan` finds names in lower case, `endpoints` tells them as they are. */
  lemma EndpointsAfter(zones: seq<Zone>, before: set<Rec>, ch: Changes, after: seq<Rec>, e: Endpoint)
    requires AppliedPlan(zones, before, ch, AsSet(after)) && e in ch.wanted && Skipped(zones, before, e).None?
    ensures forall v :: v in ValuesOf(zones, after, EndpointKey(e)) <==>
      v in e.targets && WillBeTold(zones, before, e, v)
  {
    var k := EndpointKey(e);
    LowerIdempotent(RStripDots(e.dnsName));
    TargetsAfter(zones, before, ch, AsSet(after), e);
    forall v ensures v in ValuesOf(zones, after, k) <==> v in e.targets && SpelledLow(zones, AsSet(after), k, v) {
      ToldExactly(zones, after, k, v);
      if v in ValuesOf(zones, after, k) { assert v in Values(At(zones, AsSet(after), k)); }
    }
    forall v | v in e.targets ensures SpelledLow(zones, AsSet(after), k, v) <==> WillBeTold(zones, before, e, v) {
      SpelledLowAfter(zones, before, ch, AsSet(after), e, v);
    }
  }

  lemma ToldExactly(zones: seq<Zone>, records: seq<Rec>, k: Key, v: string)
    requires Lower(k.0) == k.0 && k.1 in TYPES
    requires forall r :: r in At(zones, AsSet(records), k) ==> r.owned
    ensures v in ValuesOf(zones, records, k) <==> SpelledLow(zones, AsSet(records), k, v)
  {
    ValuesOfAre(zones, records, k, v);
    forall r | r in records && SpelledKey(zones, r) == k ensures r in At(zones, AsSet(records), k) {
      assert r in AsSet(records);
    }
  }

  const CAPITAL_ZONE := Zone(1, "C")
  const HOST_IN_IT := Endpoint("a.c", "A", {"t"}, 0)

  /** The input that shows it: a zone whose name has a capital. Its records are found for "a.c" and told
      as "a.C", so ExternalDNS never sees the target it asked for. */
  lemma CapitalZoneIsNotTold(before: set<Rec>, after: seq<Rec>)
    requires before == {} && AppliedPlan([CAPITAL_ZONE], before, Changes([HOST_IN_IT], []), AsSet(after))
    ensures Skipped([CAPITAL_ZONE], before, HOST_IN_IT).None?
    ensures Values(At([CAPITAL_ZONE], AsSet(after), ("a.c", "A"))) == {"t"}
    ensures ValuesOf([CAPITAL_ZONE], after, ("a.c", "A")) == []
  {
    CapitalZoneHolds();
    var vs := ValuesOf([CAPITAL_ZONE], after, ("a.c", "A"));
    TargetsAfter([CAPITAL_ZONE], before, Changes([HOST_IN_IT], []), AsSet(after), HOST_IN_IT);
    EndpointsAfter([CAPITAL_ZONE], before, Changes([HOST_IN_IT], []), after, HOST_IN_IT);
    HoldsNothing(vs);
  }

  lemma HoldsNothing(vs: seq<string>)
    ensures (forall v :: v !in vs) <==> vs == []
  {
    if vs != [] { assert vs[0] in vs; }
  }

  lemma CapitalZoneHolds()
    ensures Norm("a.c") == "a.c" && RStripDots("C") == "C" && Norm("C") == "c"
    ensures ZoneFor("a.c", [CAPITAL_ZONE]) == Some(CAPITAL_ZONE)
  {
    SmallNames();
    assert RStripDots("C") == "C";
    var l := Lower("C");
    assert |l| == 1 && l[0] == 'c';
    assert l == "c";
    assert "a.c"[1..] == "." + "c";
    assert EndsWith("a.c", "." + Norm(CAPITAL_ZONE.name));
    assert Holds("a.c", CAPITAL_ZONE);
    assert [CAPITAL_ZONE][1..] == [] && ZoneFrom("a.c", [], Some(CAPITAL_ZONE)) == Some(CAPITAL_ZONE);
  }

  /** And such a run there is. */
  lemma CapitalZoneIsApplied()
    ensures AppliedPlan([CAPITAL_ZONE], {}, Changes([HOST_IN_IT], []), {Rec(5, 1, "a", "", "A", "t", 0, true)})
  {
    var zs, ch, r := [CAPITAL_ZONE], Changes([HOST_IN_IT], []), Rec(5, 1, "a", "", "A", "t", 0, true);
    CapitalZoneHolds();
    CapitalZoneCreates();
    assert StoredAs(zs, Create(1, "a", "A", "t", 0), r);
    assert CAPITAL_ZONE in zs && r.zone == CAPITAL_ZONE.id;
    assert Norm("a.c")[0] == 'a';
  }

  lemma CapitalZoneCreates()
    ensures Creates([CAPITAL_ZONE], {}, [HOST_IN_IT]) == [Create(1, "a", "A", "t", 0)]
    ensures Deletes([CAPITAL_ZONE], {}, Changes([HOST_IN_IT], [])) == {}
  {
    var zs := [CAPITAL_ZONE];
    CapitalZoneMisses();
    var lists := seq(1, i requires 0 <= i < 1 => Missing(zs, {}, [HOST_IN_IT][i]));
    assert lists == [Missing(zs, {}, HOST_IN_IT)] && lists[..0] == [];
    assert Flatten(lists) == Flatten([]) + lists[0] == lists[0];
    assert Creates(zs, {}, [HOST_IN_IT]) == Flatten(lists);
  }

  lemma CapitalZoneMisses()
    ensures Missing([CAPITAL_ZONE], {}, HOST_IN_IT) == [Create(1, "a", "A", "t", 0)]
  {
    var zs := [CAPITAL_ZONE];
    CapitalZoneHolds();
    assert Relative("a.c", "C") == "a.c"[..1] == "a";
    assert At(zs, {}, EndpointKey(HOST_IN_IT)) == {};
    assert HOST_IN_IT.targets - Values(At(zs, {}, EndpointKey(HOST_IN_IT))) == {"t"};
    OneSorted("t");
  }

  lemma OneSorted(v: string)
    ensures SortedSet({v}) == [v]
  {
    var s := SortedSet({v});
    assert s[0] in s && |s| == 1;
  }
}
