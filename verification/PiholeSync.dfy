/** Copying NetBox DNS's records to a Pi-hole (docker/netbox/dns-sync/netbox_pihole_sync.py). */
module PiholeSync {
  import opened Text
  import opened Sorting

  datatype Kind = A | AAAA | CNAME
  datatype Record = Record(name: string, kind: Kind, value: string)

  // ---- the texts Pi-hole keeps ---------------------------------------------------------

  /** Something `str.split()` gives back whole. */
  predicate IsWord(w: string) {
    w != "" && forall i :: 0 <= i < |w| ==> !IsSpace(w[i])
  }

  function WordEnd(s: string): (n: nat)
    ensures n <= |s| && (forall i :: 0 <= i < n ==> !IsSpace(s[i])) && (n < |s| ==> IsSpace(s[n]))
  {
    if s == "" || IsSpace(s[0]) then 0 else WordEnd(s[1..]) + 1
  }

  /** `s.split()`. */
  function Words(s: string): (ws: seq<string>)
    ensures forall w :: w in ws ==> IsWord(w)
    decreases |s|
  {
    if s == "" then []
    else if IsSpace(s[0]) then Words(s[1..])
    else [s[..WordEnd(s)]] + Words(s[WordEnd(s)..])
  }

  lemma WordsOfWord(w: string)
    requires IsWord(w)
    ensures Words(w) == [w]
  {
    assert WordEnd(w) == |w|;
    assert w[..|w|] == w && w[|w|..] == "";
  }

  lemma WordEndBefore(a: string, c: char, b: string)
    requires IsSpace(c)
    ensures WordEnd(a + [c] + b) == WordEnd(a)
  {
    var s := a + [c] + b;
    assert s[|a|] == c && forall i :: 0 <= i < |a| ==> s[i] == a[i];
  }

  lemma FirstWordJoin(a: string, c: char, b: string)
    requires IsSpace(c) && a != "" && !IsSpace(a[0])
    ensures Words(a + [c] + b) == [a[..WordEnd(a)]] + Words(a[WordEnd(a)..] + [c] + b)
    ensures Words(a) == [a[..WordEnd(a)]] + Words(a[WordEnd(a)..])
  {
    var s, k := a + [c] + b, WordEnd(a);
    WordEndBefore(a, c, b);
    assert s[..k] == a[..k] && s[k..] == a[k..] + [c] + b;
  }

  /** White space parts the words before it from those after it. */
  lemma {:induction false} WordsJoin(a: string, c: char, b: string)
    requires IsSpace(c)
    ensures Words(a + [c] + b) == Words(a) + Words(b)
    decreases |a|
  {
    var s := a + [c] + b;
    if a == "" {
      assert s[1..] == b;
    } else if IsSpace(a[0]) {
      assert s[1..] == a[1..] + [c] + b;
      WordsJoin(a[1..], c, b);
    } else {
      FirstWordJoin(a, c, b);
      WordsJoin(a[WordEnd(a)..], c, b);
    }
  }

  /** The line a pair is written as reads back as that pair. */
  lemma WordsOfLine(ip: string, name: string)
    requires IsWord(ip) && IsWord(name)
    ensures Words(ip + " " + name) == [ip, name]
  {
    var s := ip + " " + name;
    assert WordEnd(s) == |ip| by {
      assert s[|ip|] == ' ';
      assert forall i :: 0 <= i < |ip| ==> s[i] == ip[i];
    }
    assert s[..|ip|] == ip;
    var rest := s[|ip|..];
    assert rest[0] == ' ' && rest[1..] == name;
    WordsOfWord(name);
  }

  predicate InZone(name: string, zones: seq<string>) {
    exists z :: z in zones && (name == z || EndsWith(name, "." + z))
  }

  /** A name is in a zone when its last labels are the zone's, whole. */
  lemma InZoneByLabels(name: string, zones: seq<string>)
    ensures InZone(name, zones) <==> exists z :: z in zones && EndsIn(Labels(name), Labels(z))
  {
    forall z ensures (name == z || EndsWith(name, "." + z)) <==> EndsIn(Labels(name), Labels(z)) {
      UnderByLabels(name, z);
    }
  }

  /** So a label and a dot keep a name in its zone, and letters glued to the zone's don't. */
  lemma OnlyBelowADot(x: string, z: string)
    ensures InZone(x + ("." + z), [z])
    ensures x != "" && x[|x| - 1] != '.' ==> !InZone(x + z, [z])
  {
    var s := x + ("." + z);
    assert s[|s| - |("." + z)|..] == "." + z && z in [z];
    if x != "" && EndsWith(x + z, "." + z) {
      assert (x + z)[|x| - 1..][0] == '.';
    }
  }

  function KindOf(ip: string): Kind {
    if ':' in ip then AAAA else A
  }

  // ---- what one Pi-hole needs, line by line -----------------------------------------------

  function Ip(line: string): string
    requires Words(line) != []
  {
    Words(line)[0]
  }

  function Names(line: string): seq<string> {
    if Words(line) == [] then [] else Words(line)[1..]
  }

  /** The sync's own name for a name: lower case inside NetBox's zones, as spelled outside. */
  function Own(name: string, zones: seq<string>): string {
    if InZone(Lower(name), zones) then Lower(name) else name
  }

  datatype Setting = Setting(zones: seq<string>, wanted: set<Record>, delete: bool)

  predicate WantsHost(st: Setting, name: string, ip: string) {
    Record(name, KindOf(ip), ip) in st.wanted
  }

  /** It names something NetBox owns. */
  predicate Touched(st: Setting, line: string) {
    exists n :: n in Names(line) && InZone(Lower(n), st.zones)
  }

  predicate Removed(st: Setting, line: string)
    requires Words(line) != []
  {
    Touched(st, line) && (|Names(line)| != 1 || (st.delete && !WantsHost(st, Lower(Names(line)[0]), Ip(line))))
  }

  /** A wanted address the line already gives alone. */
  predicate Has(st: Setting, line: string, name: string, ip: string) {
    Words(line) != [] && |Names(line)| == 1 && Ip(line) == ip && Lower(Names(line)[0]) == name
      && InZone(name, st.zones) && WantsHost(st, name, ip)
  }

  /** A split line's name that comes back alone. */
  predicate Readds(st: Setting, line: string, name: string, ip: string) {
    Words(line) != [] && Touched(st, line) && |Names(line)| != 1 && Ip(line) == ip
      && (exists n :: n in Names(line) && Own(n, st.zones) == name
            && !(InZone(name, st.zones) && !WantsHost(st, name, ip) && st.delete))
  }

  datatype Pair = Pair(name: string, ip: string)

  function HostLine(p: Pair): string {
    p.ip + " " + p.name
  }

  function WantedPairs(st: Setting): set<Pair> {
    set w | w in st.wanted && w.kind != CNAME :: Pair(w.name, w.value)
  }

  predicate LinesOk(lines: set<string>) {
    forall l :: l in lines ==> Words(l) != []
  }

  function RemovedHosts(st: Setting, hosts: set<string>): set<string>
    requires LinesOk(hosts)
  {
    set l | l in hosts && Removed(st, l)
  }

  function HavePairs(st: Setting, hosts: set<string>): set<Pair>
    requires LinesOk(hosts)
  {
    set l, n | l in hosts && n in Names(l) && Has(st, l, Lower(n), Ip(l)) :: Pair(Lower(n), Ip(l))
  }

  function ReaddPairs(st: Setting, hosts: set<string>): set<Pair>
    requires LinesOk(hosts)
  {
    set l, n | l in hosts && n in Names(l) && Readds(st, l, Own(n, st.zones), Ip(l)) :: Pair(Own(n, st.zones), Ip(l))
  }

  function AddedPairs(st: Setting, hosts: set<string>): set<Pair>
    requires LinesOk(hosts)
  {
    (WantedPairs(st) - HavePairs(st, hosts)) + (ReaddPairs(st, hosts) - HavePairs(st, hosts))
  }

  function AddedHosts(st: Setting, hosts: set<string>): set<string>
    requires LinesOk(hosts)
  {
    set p | p in AddedPairs(st, hosts) :: HostLine(p)
  }

  function HostsAfter(st: Setting, hosts: set<string>): set<string>
    requires LinesOk(hosts)
  {
    (hosts - RemovedHosts(st, hosts)) + AddedHosts(st, hosts)
  }

  // ---- what NetBox gives ----------------------------------------------------------------------

  /** What netbox_wanted's answers are: lower-case names in NetBox's zones, addresses of their
      record's kind, nothing with a space in it. */
  predicate WantedOk(st: Setting) {
    && (forall z :: z in st.zones ==> Lower(z) == z)
    && (forall w :: w in st.wanted ==>
         IsWord(w.name) && Lower(w.name) == w.name && InZone(w.name, st.zones) && IsWord(w.value))
    && (forall w :: w in st.wanted && w.kind != CNAME ==> (w.kind == AAAA <==> ':' in w.value))
  }

  /** The name netbox_wanted gives a record in a zone. */
  function RecordName(name: string, zone: string): string {
    if name == "@" || name == "" then zone else Lower(RStripDots(name)) + "." + zone
  }

  /** It is the zone's own labels, after the record's own unless that is the zone itself. */
  lemma RecordNameLabels(name: string, zone: string)
    ensures Labels(RecordName(name, zone)) ==
      (if name == "@" || name == "" then [] else Labels(Lower(RStripDots(name)))) + Labels(zone)
  {
    var n := Lower(RStripDots(name));
    if name != "@" && name != "" {
      LabelsJoin(n, zone);
      assert n + ("." + zone) == n + "." + zone;
    }
  }

  /** So every name wanted is lower case and in its zone. */
  lemma RecordNameInZone(name: string, zone: string, zones: seq<string>)
    requires zone in zones && Lower(zone) == zone
    ensures InZone(RecordName(name, zone), zones) && Lower(RecordName(name, zone)) == RecordName(name, zone)
  {
    var n := Lower(RStripDots(name));
    if name != "@" && name != "" {
      LowerConcat(n + ".", zone);
      LowerConcat(n, ".");
      LowerIdempotent(RStripDots(name));
      assert RecordName(name, zone)[|n|..] == "." + zone;
    }
  }

  lemma OutsideStaysOutside(name: string, zones: seq<string>)
    requires forall z :: z in zones ==> Lower(z) == z
    ensures InZone(name, zones) ==> InZone(Lower(name), zones)
    ensures InZone(Own(name, zones), zones) <==> InZone(Lower(name), zones)
  {
    if z :| z in zones && (name == z || EndsWith(name, "." + z)) {
      if EndsWith(name, "." + z) {
        var k := |name| - |z| - 1;
        LowerSlice(name, k, |name|);
        LowerConcat(".", z);
        assert name[k..|name|] == "." + z;
        assert Lower(name)[k..] == Lower(name)[k..|name|];
      }
    }
  }

  // ---- pairs --------------------------------------------------------------------------------------

  /** The addresses Pi-hole gives to names in NetBox's zones. */
  function InPairs(st: Setting, hosts: set<string>): set<Pair>
    requires LinesOk(hosts)
  {
    set l, n | l in hosts && n in Names(l) && InZone(Lower(n), st.zones) :: Pair(Lower(n), Ip(l))
  }

  /** And to every other name, as it is spelled. */
  function OutPairs(st: Setting, hosts: set<string>): set<Pair>
    requires LinesOk(hosts)
  {
    set l, n | l in hosts && n in Names(l) && !InZone(Lower(n), st.zones) :: Pair(n, Ip(l))
  }

  lemma AddedPairsAreWords(st: Setting, hosts: set<string>, p: Pair)
    requires LinesOk(hosts) && WantedOk(st) && p in AddedPairs(st, hosts)
    ensures IsWord(p.name) && IsWord(p.ip)
    ensures Words(HostLine(p)) == [p.ip, p.name] && Names(HostLine(p)) == [p.name] && Ip(HostLine(p)) == p.ip
  {
    if p in WantedPairs(st) {
      var w :| w in st.wanted && w.kind != CNAME && Pair(w.name, w.value) == p;
    } else {
      var l, n :| l in hosts && n in Names(l) && Readds(st, l, Own(n, st.zones), Ip(l)) &&
        Pair(Own(n, st.zones), Ip(l)) == p;
      assert n in Words(l) && Ip(l) in Words(l);
      LowerWord(n);
    }
    WordsOfLine(p.ip, p.name);
  }

  lemma LowerWord(w: string)
    requires IsWord(w)
    ensures IsWord(Lower(w))
  {
  }

  lemma HostsAfterOk(st: Setting, hosts: set<string>)
    requires LinesOk(hosts) && WantedOk(st)
    ensures LinesOk(HostsAfter(st, hosts))
  {
    forall l | l in HostsAfter(st, hosts) ensures Words(l) != [] {
      if l !in hosts {
        var p :| p in AddedPairs(st, hosts) && HostLine(p) == l;
        AddedPairsAreWords(st, hosts, p);
      }
    }
  }

  lemma WantedPairIs(st: Setting, p: Pair)
    requires WantedOk(st)
    ensures p in WantedPairs(st) <==> WantsHost(st, p.name, p.ip)
    ensures p in WantedPairs(st) ==> InZone(p.name, st.zones) && Lower(p.name) == p.name
  {
    if p in WantedPairs(st) {
      var w :| w in st.wanted && w.kind != CNAME && Pair(w.name, w.value) == p;
      assert w == Record(p.name, KindOf(p.ip), p.ip);
    }
    if WantsHost(st, p.name, p.ip) {
      var w := Record(p.name, KindOf(p.ip), p.ip);
      assert w in st.wanted && Pair(w.name, w.value) == p;
    }
  }

  /** A pair is written only when NetBox wants it, or when it comes from a split line: a name
      outside the zones, or one kept because deleting is off. */
  lemma AddedPairIs(st: Setting, hosts: set<string>, p: Pair)
    requires LinesOk(hosts) && WantedOk(st) && p in AddedPairs(st, hosts)
    ensures Own(p.name, st.zones) == p.name
    ensures InZone(Lower(p.name), st.zones) && st.delete ==> p in WantedPairs(st)
    ensures p in WantedPairs(st) ||
      exists l, n :: l in hosts && n in Names(l) && Ip(l) == p.ip && Own(n, st.zones) == p.name && Touched(st, l) &&
        |Names(l)| != 1
  {
    WantedPairIs(st, p);
    if p !in WantedPairs(st) {
      var l, n :| l in hosts && n in Names(l) && Readds(st, l, Own(n, st.zones), Ip(l)) &&
        Pair(Own(n, st.zones), Ip(l)) == p;
      LowerIdempotent(n);
      OutsideStaysOutside(n, st.zones);
      OutsideStaysOutside(p.name, st.zones);
    }
  }

  lemma LineSettled(st: Setting, hosts: set<string>, l: string)
    requires LinesOk(hosts) && WantedOk(st) && l in HostsAfter(st, hosts)
    ensures Words(l) != [] && !Removed(st, l) && (Touched(st, l) ==> |Names(l)| == 1)
  {
    if l in AddedHosts(st, hosts) {
      var p :| p in AddedPairs(st, hosts) && HostLine(p) == l;
      AddedPairsAreWords(st, hosts, p);
      AddedPairIs(st, hosts, p);
      WantedPairIs(st, p);
    }
  }

  lemma WantedIsHeld(st: Setting, hosts: set<string>, p: Pair)
    requires LinesOk(hosts) && WantedOk(st) && LinesOk(HostsAfter(st, hosts)) && p in WantedPairs(st)
    ensures p in HavePairs(st, HostsAfter(st, hosts))
  {
    WantedPairIs(st, p);
    if p in HavePairs(st, hosts) {
      var l, n :| l in hosts && n in Names(l) && Has(st, l, Lower(n), Ip(l)) && Pair(Lower(n), Ip(l)) == p;
      assert l in HostsAfter(st, hosts);
    } else {
      AddedPairsAreWords(st, hosts, p);
      var l := HostLine(p);
      assert l in HostsAfter(st, hosts) && p.name in Names(l) && Has(st, l, Lower(p.name), Ip(l));
      assert Pair(Lower(p.name), Ip(l)) == p;
    }
  }

  /** Once applied, a plan leaves nothing for the next one to do. */
  lemma HostsConverge(st: Setting, hosts: set<string>)
    requires LinesOk(hosts) && WantedOk(st)
    ensures LinesOk(HostsAfter(st, hosts))
    ensures RemovedHosts(st, HostsAfter(st, hosts)) == {} && AddedHosts(st, HostsAfter(st, hosts)) == {}
  {
    var after := HostsAfter(st, hosts);
    HostsAfterOk(st, hosts);
    forall l | l in after ensures !Removed(st, l) && (Touched(st, l) ==> |Names(l)| == 1) { LineSettled(st, hosts, l); }
    forall p ensures p !in AddedPairs(st, after) {
      if p in WantedPairs(st) { WantedIsHeld(st, hosts, p); }
    }
  }

  lemma InPairOf(st: Setting, hosts: set<string>, l: string, n: string)
    requires LinesOk(hosts) && l in hosts && n in Names(l) && InZone(Lower(n), st.zones)
    ensures Pair(Lower(n), Ip(l)) in InPairs(st, hosts)
  {
  }

  /** In NetBox's zones Pi-hole ends with exactly NetBox's addresses when deleting, and with
      those and its own when not. */
  lemma InPairsAfter(st: Setting, hosts: set<string>)
    requires LinesOk(hosts) && WantedOk(st)
    ensures LinesOk(HostsAfter(st, hosts))
    ensures InPairs(st, HostsAfter(st, hosts)) ==
      (set w | w in st.wanted && w.kind != CNAME :: Pair(w.name, w.value)) +
      (if st.delete then {} else InPairs(st, hosts))
  {
    var after := HostsAfter(st, hosts);
    HostsAfterOk(st, hosts);
    forall p | p in InPairs(st, after) ensures p in WantedPairs(st) + (if st.delete then {} else InPairs(st, hosts)) {
      var l, n :| l in after && n in Names(l) && InZone(Lower(n), st.zones) && p == Pair(Lower(n), Ip(l));
      InPairOrigin(st, hosts, l, n);
    }
    forall p | p in WantedPairs(st) ensures p in InPairs(st, after) {
      WantedIsHeld(st, hosts, p);
      WantedPairIs(st, p);
      var l, n :| l in after && n in Names(l) && Has(st, l, Lower(n), Ip(l)) && Pair(Lower(n), Ip(l)) == p;
    }
    if !st.delete {
      forall p | p in InPairs(st, hosts) ensures p in InPairs(st, after) {
        var l, n :| l in hosts && n in Names(l) && InZone(Lower(n), st.zones) && p == Pair(Lower(n), Ip(l));
        InPairKept(st, hosts, l, n);
      }
    }
  }

  /** An added pair that isn't NetBox's is one of Pi-hole's own, kept from a line that was split. */
  lemma AddedPairOrigin(st: Setting, hosts: set<string>, p: Pair)
    requires LinesOk(hosts) && WantedOk(st) && p in AddedPairs(st, hosts) && p !in WantedPairs(st) &&
      InZone(Lower(p.name), st.zones)
    ensures !st.delete && Pair(Lower(p.name), p.ip) in InPairs(st, hosts)
  {
    AddedPairIs(st, hosts, p);
    var l0, n0 :| l0 in hosts && n0 in Names(l0) && Ip(l0) == p.ip && Own(n0, st.zones) == p.name && Touched(st, l0);
    OutsideStaysOutside(n0, st.zones);
    InPairOf(st, hosts, l0, n0);
  }

  lemma InPairOrigin(st: Setting, hosts: set<string>, l: string, n: string)
    requires LinesOk(hosts) && WantedOk(st) && l in HostsAfter(st, hosts) && n in Names(l) && InZone(Lower(n), st.zones)
    ensures Words(l) != []
    ensures var p := Pair(Lower(n), Ip(l)); p in WantedPairs(st) || (!st.delete && p in InPairs(st, hosts))
  {
    if l in AddedHosts(st, hosts) {
      var p :| p in AddedPairs(st, hosts) && HostLine(p) == l;
      AddedLineOrigin(st, hosts, p, n);
    } else {
      LineSettled(st, hosts, l);
      WantedPairIs(st, Pair(Lower(n), Ip(l)));
      assert Names(l) == [n];
    }
  }

  lemma AddedLineOrigin(st: Setting, hosts: set<string>, p: Pair, n: string)
    requires LinesOk(hosts) && WantedOk(st) && p in AddedPairs(st, hosts) && n in Names(HostLine(p))
    requires InZone(Lower(n), st.zones)
    ensures Words(HostLine(p)) != [] && Ip(HostLine(p)) == p.ip
    ensures var q := Pair(Lower(n), p.ip); q in WantedPairs(st) || (!st.delete && q in InPairs(st, hosts))
  {
    AddedPairsAreWords(st, hosts, p);
    assert n == p.name;
    if p in WantedPairs(st) { WantedPairIs(st, p); } else { AddedPairOrigin(st, hosts, p); }
  }

  lemma InPairKept(st: Setting, hosts: set<string>, l: string, n: string)
    requires LinesOk(hosts) && WantedOk(st) && !st.delete && LinesOk(HostsAfter(st, hosts))
    requires l in hosts && n in Names(l) && InZone(Lower(n), st.zones)
    ensures Pair(Lower(n), Ip(l)) in InPairs(st, HostsAfter(st, hosts))
  {
    var after, p := HostsAfter(st, hosts), Pair(Lower(n), Ip(l));
    if Removed(st, l) {
      assert Readds(st, l, Own(n, st.zones), Ip(l));
      assert p in ReaddPairs(st, hosts);
      PairEndsHeld(st, hosts, p);
    } else {
      assert l in after;
    }
  }

  /** A pair that is had or added is given by a line of the result. */
  lemma PairEndsHeld(st: Setting, hosts: set<string>, p: Pair)
    requires LinesOk(hosts) && WantedOk(st) && LinesOk(HostsAfter(st, hosts))
    requires p in ReaddPairs(st, hosts)
    ensures exists l, n :: l in HostsAfter(st, hosts) && n in Names(l) && Own(n, st.zones) == p.name && Ip(l) == p.ip
  {
    if p in HavePairs(st, hosts) {
      var l, n :| l in hosts && n in Names(l) && Has(st, l, Lower(n), Ip(l)) && Pair(Lower(n), Ip(l)) == p;
      assert l in HostsAfter(st, hosts) && Own(n, st.zones) == p.name;
    } else {
      AddedPairsAreWords(st, hosts, p);
      AddedPairIs(st, hosts, p);
      assert HostLine(p) in HostsAfter(st, hosts) && p.name in Names(HostLine(p));
    }
  }

  lemma OutPairOrigin(st: Setting, hosts: set<string>, l: string, n: string)
    requires LinesOk(hosts) && WantedOk(st) && l in HostsAfter(st, hosts) && n in Names(l) &&
      !InZone(Lower(n), st.zones)
    ensures Words(l) != [] && Pair(n, Ip(l)) in OutPairs(st, hosts)
  {
    LineSettled(st, hosts, l);
    if l in AddedHosts(st, hosts) {
      var q :| q in AddedPairs(st, hosts) && HostLine(q) == l;
      AddedPairsAreWords(st, hosts, q);
      AddedPairIs(st, hosts, q);
      WantedPairIs(st, q);
      var l0, n0 :| l0 in hosts && n0 in Names(l0) && Ip(l0) == q.ip && Own(n0, st.zones) == q.name && Touched(st, l0);
      OutsideStaysOutside(n0, st.zones);
      LowerIdempotent(n0);
    }
  }

  lemma OwnOutside(k: string, n: string, zones: seq<string>)
    requires Own(k, zones) == n && !InZone(Lower(n), zones)
    ensures k == n
  {
    LowerIdempotent(k);
  }

  lemma OnlyName(l: string, n: string)
    requires n in Names(l) && |Names(l)| == 1
    ensures Names(l)[0] == n
  {
  }

  lemma SplitReadds(st: Setting, hosts: set<string>, l: string, n: string)
    requires LinesOk(hosts) && WantedOk(st) && l in hosts && n in Names(l) && !InZone(Lower(n), st.zones)
    requires Removed(st, l)
    ensures Pair(n, Ip(l)) in ReaddPairs(st, hosts)
  {
    assert Own(n, st.zones) == n;
    OutsideStaysOutside(n, st.zones);
    if |Names(l)| == 1 { OnlyName(l, n); }
    assert Readds(st, l, Own(n, st.zones), Ip(l));
  }

  lemma OutPairKept(st: Setting, hosts: set<string>, l: string, n: string)
    requires LinesOk(hosts) && WantedOk(st) && LinesOk(HostsAfter(st, hosts))
    requires l in hosts && n in Names(l) && !InZone(Lower(n), st.zones)
    ensures Pair(n, Ip(l)) in OutPairs(st, HostsAfter(st, hosts))
  {
    var m, k := l, n;
    if Removed(st, l) {
      SplitReadds(st, hosts, l, n);
      PairEndsHeld(st, hosts, Pair(n, Ip(l)));
      m, k :| m in HostsAfter(st, hosts) && k in Names(m) && Own(k, st.zones) == n && Ip(m) == Ip(l);
      OwnOutside(k, n, st.zones);
    }
    assert m in HostsAfter(st, hosts) && k in Names(m) && k == n && Ip(m) == Ip(l);
  }

  /** Every address of a name outside NetBox's zones survives, as it was spelled, and none appears. */
  lemma OutPairsSurvive(st: Setting, hosts: set<string>)
    requires LinesOk(hosts) && WantedOk(st)
    ensures LinesOk(HostsAfter(st, hosts)) && OutPairs(st, HostsAfter(st, hosts)) == OutPairs(st, hosts)
  {
    var after := HostsAfter(st, hosts);
    HostsAfterOk(st, hosts);
    forall p | p in OutPairs(st, after) ensures p in OutPairs(st, hosts) {
      var l, n :| l in after && n in Names(l) && !InZone(Lower(n), st.zones) && p == Pair(n, Ip(l));
      OutPairOrigin(st, hosts, l, n);
    }
    forall p | p in OutPairs(st, hosts) ensures p in OutPairs(st, after) {
      var l, n :| l in hosts && n in Names(l) && !InZone(Lower(n), st.zones) && p == Pair(n, Ip(l));
      OutPairKept(st, hosts, l, n);
    }
  }

  // ---- aliases ------------------------------------------------------------------------------------

  function FirstPart(line: string): string {
    line[..Find(line, ',', 0)]
  }

  function SecondPart(line: string): string {
    if Find(line, ',', 0) == |line| then "" else FirstPart(line[Find(line, ',', 0) + 1..])
  }

  function Alias(line: string): string {
    Lower(Strip(FirstPart(line)))
  }

  function Target(line: string): string {
    Lower(RStripDots(Strip(SecondPart(line))))
  }

  function CnameLine(r: Record): string {
    r.name + "," + r.value
  }

  function Parsed(line: string): Record {
    Record(Alias(line), CNAME, Target(line))
  }

  predicate OwnCname(st: Setting, line: string) {
    InZone(Alias(line), st.zones)
  }

  function RemovedCnames(st: Setting, lines: set<string>): set<string> {
    set l | l in lines && OwnCname(st, l) && Parsed(l) !in st.wanted && st.delete
  }

  function HaveCnames(st: Setting, lines: set<string>): set<Record> {
    set l | l in lines && OwnCname(st, l) && Parsed(l) in st.wanted :: Parsed(l)
  }

  function WantedCnames(st: Setting): set<Record> {
    set w | w in st.wanted && w.kind == CNAME
  }

  function AddedCnames(st: Setting, lines: set<string>): set<string> {
    set w | w in WantedCnames(st) - HaveCnames(st, lines) :: CnameLine(w)
  }

  function CnamesAfter(st: Setting, lines: set<string>): set<string> {
    (lines - RemovedCnames(st, lines)) + AddedCnames(st, lines)
  }

  /** The aliases Pi-hole gives to names in NetBox's zones. */
  function OwnCnames(st: Setting, lines: set<string>): set<Record> {
    set l | l in lines && OwnCname(st, l) :: Parsed(l)
  }

  /** Alias targets as netbox_wanted gives them: lower case, no trailing dot, no comma. */
  predicate CnamesOk(st: Setting) {
    forall w :: w in st.wanted && w.kind == CNAME ==>
      ',' !in w.name && ',' !in w.value && Lower(w.value) == w.value && !EndsWith(w.value, ".")
  }

  lemma CnameLineParts(name: string, value: string)
    requires ',' !in name && ',' !in value
    ensures FirstPart(name + "," + value) == name && SecondPart(name + "," + value) == value
  {
    var line := name + "," + value;
    assert line[|name|] == ',' && forall i :: 0 <= i < |name| ==> line[i] == name[i];
    assert Find(line, ',', 0) == |name| && line[|name| + 1..] == value;
    assert Find(value, ',', 0) == |value|;
  }

  lemma ParsedCnameLine(st: Setting, w: Record)
    requires WantedOk(st) && CnamesOk(st) && w in WantedCnames(st)
    ensures Parsed(CnameLine(w)) == w && OwnCname(st, CnameLine(w))
  {
    CnameLineParts(w.name, w.value);
    assert Strip(w.name) == w.name && Strip(w.value) == w.value;
    assert RStripDots(w.value) == w.value by { assert w.value[|w.value| - 1..] == [w.value[|w.value| - 1]]; }
  }

  /** The aliases, too: a plan applied leaves nothing to do; in the zones exactly NetBox's stay
      when deleting, those and Pi-hole's own when not; a line outside them is untouched. */
  lemma CnamesConverge(st: Setting, lines: set<string>)
    requires WantedOk(st) && CnamesOk(st)
    ensures RemovedCnames(st, CnamesAfter(st, lines)) == {} && AddedCnames(st, CnamesAfter(st, lines)) == {}
    ensures OwnCnames(st, CnamesAfter(st, lines)) ==
      (set w | w in st.wanted && w.kind == CNAME) + (if st.delete then {} else OwnCnames(st, lines))
    ensures forall l :: !OwnCname(st, l) ==> (l in CnamesAfter(st, lines) <==> l in lines)
  {
    var after := CnamesAfter(st, lines);
    forall l | l in AddedCnames(st, lines) ensures OwnCname(st, l) && Parsed(l) in WantedCnames(st) {
      var w :| w in WantedCnames(st) - HaveCnames(st, lines) && CnameLine(w) == l;
      ParsedCnameLine(st, w);
    }
    forall w | w in WantedCnames(st) ensures w in HaveCnames(st, after) && w in OwnCnames(st, after) {
      if w in HaveCnames(st, lines) {
        var l :| l in lines && OwnCname(st, l) && Parsed(l) in st.wanted && Parsed(l) == w;
        assert l in after;
      } else {
        ParsedCnameLine(st, w);
        assert CnameLine(w) in after;
      }
    }
    forall w | w in OwnCnames(st, after)
      ensures w in WantedCnames(st) + (if st.delete then {} else OwnCnames(st, lines))
    {
      var l :| l in after && OwnCname(st, l) && Parsed(l) == w;
    }
  }

  // ---- the plan as the program makes it -------------------------------------------------------------

  /** What a line that isn't NetBox's own leaves to report while deleting is off. */
  function LeftOf(st: Setting, line: string): seq<string>
    requires Words(line) != []
  {
    if !Touched(st, line) || st.delete then []
    else if |Names(line)| == 1 then
      if WantsHost(st, Lower(Names(line)[0]), Ip(line)) then [] else [line]
    else LeftNames(st, Ip(line), Names(line))
  }

  function LeftNames(st: Setting, ip: string, names: seq<string>): seq<string> {
    if names == [] then [] else
      LeftNames(st, ip, names[..|names| - 1]) +
      (var n := Own(names[|names| - 1], st.zones);
       if InZone(n, st.zones) && !WantsHost(st, n, ip) then [ip + " " + n] else [])
  }

  function LeftHosts(st: Setting, hosts: seq<string>): seq<string>
    requires LinesOk(AsSet(hosts))
  {
    if hosts == [] then []
    else
      assert hosts[|hosts| - 1] in AsSet(hosts) && AsSet(hosts[..|hosts| - 1]) <= AsSet(hosts);
      LeftHosts(st, hosts[..|hosts| - 1]) + LeftOf(st, hosts[|hosts| - 1])
  }

  function RemovedInOrder(st: Setting, hosts: seq<string>): seq<string>
    requires LinesOk(AsSet(hosts))
  {
    if hosts == [] then []
    else
      assert hosts[|hosts| - 1] in AsSet(hosts) && AsSet(hosts[..|hosts| - 1]) <= AsSet(hosts);
      RemovedInOrder(st, hosts[..|hosts| - 1]) + (if Removed(st, hosts[|hosts| - 1]) then [hosts[|hosts| - 1]] else [])
  }

  lemma RemovedOfOneMore(st: Setting, some: set<string>, l: string)
    requires LinesOk(some) && Words(l) != []
    ensures RemovedHosts(st, some + {l}) == RemovedHosts(st, some) + (if Removed(st, l) then {l} else {})
  {
  }

  lemma {:induction false} RemovedInOrderIs(st: Setting, hosts: seq<string>)
    requires LinesOk(AsSet(hosts))
    ensures AsSet(RemovedInOrder(st, hosts)) == RemovedHosts(st, AsSet(hosts))
  {
    if hosts != [] {
      var k := |hosts| - 1;
      AsSetOneMore(hosts, k);
      assert hosts[..k + 1] == hosts;
      assert hosts[k] in AsSet(hosts);
      RemovedInOrderIs(st, hosts[..k]);
      RemovedOfOneMore(st, AsSet(hosts[..k]), hosts[k]);
      AsSetJoined(RemovedInOrder(st, hosts[..k]), if Removed(st, hosts[k]) then [hosts[k]] else []);
    }
  }

  lemma PairsOfOneMore(st: Setting, some: set<string>, l: string)
    requires LinesOk(some) && Words(l) != []
    ensures HavePairs(st, some + {l}) == HavePairs(st, some) + HavePairs(st, {l})
    ensures ReaddPairs(st, some + {l}) == ReaddPairs(st, some) + ReaddPairs(st, {l})
  {
  }

  lemma SingleLinePairs(st: Setting, l: string)
    requires Words(l) != [] && Touched(st, l) && |Names(l)| == 1
    ensures ReaddPairs(st, {l}) == {}
    ensures var p := Pair(Lower(Names(l)[0]), Ip(l));
      HavePairs(st, {l}) == if WantsHost(st, p.name, p.ip) then {p} else {}
  {
    var n := Names(l)[0];
    assert forall m :: m in Names(l) ==> m == n;
    if WantsHost(st, Lower(n), Ip(l)) {
      assert n in Names(l) && Has(st, l, Lower(n), Ip(l));
      assert Pair(Lower(n), Ip(l)) in HavePairs(st, {l});
    }
  }

  lemma UntouchedLinePairs(st: Setting, l: string)
    requires Words(l) != [] && !Touched(st, l)
    ensures ReaddPairs(st, {l}) == {} && HavePairs(st, {l}) == {}
  {
  }

  /** What a split line's names come back as. */
  function SplitPairs(st: Setting, ip: string, names: seq<string>): set<Pair> {
    if names == [] then {} else
      var n := Own(names[|names| - 1], st.zones);
      SplitPairs(st, ip, names[..|names| - 1]) +
        (if InZone(n, st.zones) && !WantsHost(st, n, ip) && st.delete then {} else {Pair(n, ip)})
  }

  lemma {:induction false} SplitPairsAre(st: Setting, ip: string, names: seq<string>, p: Pair)
    ensures p in SplitPairs(st, ip, names) <==>
      p.ip == ip && (exists n :: n in names && Own(n, st.zones) == p.name) &&
        !(InZone(p.name, st.zones) && !WantsHost(st, p.name, ip) && st.delete)
  {
    if names != [] {
      SplitPairsAre(st, ip, names[..|names| - 1], p);
      assert names == names[..|names| - 1] + [names[|names| - 1]];
    }
  }

  lemma SplitLinePairs(st: Setting, line: string)
    requires Words(line) != [] && Touched(st, line) && |Names(line)| != 1
    ensures SplitPairs(st, Ip(line), Names(line)) == ReaddPairs(st, {line}) && HavePairs(st, {line}) == {}
  {
    forall p ensures p in SplitPairs(st, Ip(line), Names(line)) <==> p in ReaddPairs(st, {line}) {
      SplitPairsAre(st, Ip(line), Names(line), p);
      if p in SplitPairs(st, Ip(line), Names(line)) {
        var n :| n in Names(line) && Own(n, st.zones) == p.name;
        assert Readds(st, line, Own(n, st.zones), Ip(line));
      }
    }
  }

  /** The loop over one split line's names. */
  method SplitNames(st: Setting, ip: string, names: seq<string>) returns (readd: set<Pair>, left: seq<string>)
    ensures readd == SplitPairs(st, ip, names)
    ensures left == if st.delete then [] else LeftNames(st, ip, names)
  {
    readd, left := {}, [];
    for k := 0 to |names|
      invariant readd == SplitPairs(st, ip, names[..k])
      invariant left == if st.delete then [] else LeftNames(st, ip, names[..k])
    {
      assert names[..k + 1][..k] == names[..k];
      var own := Own(names[k], st.zones);
      var stray := InZone(own, st.zones) && !WantsHost(st, own, ip);
      if !st.delete && stray { left := left + [ip + " " + own]; }
      if !(stray && st.delete) { readd := readd + {Pair(own, ip)}; }
    }
    assert names[..|names|] == names;
  }

  /** One line's turn: what it gives, what it puts back, whether it goes, what it leaves to report. */
  method PlanLine(st: Setting, line: string)
    returns (have: set<Pair>, readd: set<Pair>, remove: bool, left: seq<string>)
    requires Words(line) != []
    ensures have == HavePairs(st, {line}) && readd == ReaddPairs(st, {line})
    ensures remove == Removed(st, line) && left == LeftOf(st, line)
  {
    have, readd, remove, left := {}, {}, false, [];
    if !Touched(st, line) {
      UntouchedLinePairs(st, line);
    } else if |Names(line)| == 1 {
      SingleLinePairs(st, line);
      var pair := Pair(Lower(Names(line)[0]), Ip(line));
      if WantsHost(st, pair.name, pair.ip) {
        have := {pair};
      } else if st.delete {
        remove := true;
      } else {
        left := [line];
      }
    } else {
      remove := true;
      readd, left := SplitNames(st, Ip(line), Names(line));
      SplitLinePairs(st, line);
    }
  }

  /** plan, for the host lines: the lines to remove, in Pi-hole's order; the lines to add, sorted;
      what a delete would remove. */
  method PlanHosts(st: Setting, hosts: seq<string>) returns (remove: seq<string>, add: seq<string>, left: seq<string>)
    requires LinesOk(AsSet(hosts)) && WantedOk(st)
    ensures remove == RemovedInOrder(st, hosts)
    ensures add == SortedSet(AddedHosts(st, AsSet(hosts)))
    ensures left == LeftHosts(st, hosts)
  {
    var have, readd: set<Pair> := {}, {};
    remove, left := [], [];
    for k := 0 to |hosts|
      invariant LinesOk(AsSet(hosts[..k]))
      invariant have == HavePairs(st, AsSet(hosts[..k])) && readd == ReaddPairs(st, AsSet(hosts[..k]))
      invariant remove == RemovedInOrder(st, hosts[..k]) && left == LeftHosts(st, hosts[..k])
    {
      var line := hosts[k];
      assert line in AsSet(hosts);
      AsSetOneMore(hosts, k);
      assert hosts[..k + 1][..k] == hosts[..k];
      PairsOfOneMore(st, AsSet(hosts[..k]), line);
      var moreHave, moreReadd, gone, moreLeft := PlanLine(st, line);
      have, readd, left := have + moreHave, readd + moreReadd, left + moreLeft;
      if gone {
        remove := remove + [line];
      }
    }
    assert hosts[..|hosts|] == hosts;
    add := SortedSet(set p | p in (WantedPairs(st) - have) + (readd - have) :: HostLine(p));
  }

  predicate Stray(st: Setting, l: string) {
    OwnCname(st, l) && Parsed(l) !in st.wanted
  }

  /** The aliases in NetBox's zones that it doesn't want, in Pi-hole's order: removed when
      deleting is on, else reported. */
  function Unwanted(st: Setting, lines: seq<string>): seq<string> {
    if lines == [] then [] else
      var more, l := Unwanted(st, lines[..|lines| - 1]), lines[|lines| - 1];
      if Stray(st, l) then more + [l] else more
  }

  lemma {:induction false} UnwantedAre(st: Setting, lines: seq<string>, l: string)
    ensures l in Unwanted(st, lines) <==> l in lines && Stray(st, l)
  {
    if lines != [] {
      var k := |lines| - 1;
      UnwantedAre(st, lines[..k], l);
      assert l in lines <==> l in lines[..k] || l == lines[k];
    }
  }

  lemma UnwantedAreRemoved(st: Setting, lines: seq<string>)
    ensures AsSet(if st.delete then Unwanted(st, lines) else []) == RemovedCnames(st, AsSet(lines))
  {
    if st.delete { UnwantedHere(st, lines); }
  }

  lemma UnwantedHere(st: Setting, lines: seq<string>)
    requires st.delete
    ensures AsSet(Unwanted(st, lines)) == RemovedCnames(st, AsSet(lines))
  {
    forall l ensures l in AsSet(Unwanted(st, lines)) <==> l in RemovedCnames(st, AsSet(lines)) {
      UnwantedAre(st, lines, l);
    }
  }

  lemma HaveOfOneMore(st: Setting, some: set<string>, l: string)
    ensures HaveCnames(st, some + {l}) ==
      HaveCnames(st, some) + (if OwnCname(st, l) && Parsed(l) in st.wanted then {Parsed(l)} else {})
  {
  }

  /** One alias: counted as had, stray, or neither. */
  method PlanCname(st: Setting, line: string) returns (had: set<Record>, stray: bool)
    ensures had == if OwnCname(st, line) && Parsed(line) in st.wanted then {Parsed(line)} else {}
    ensures stray <==> Stray(st, line)
  {
    had, stray := {}, false;
    if OwnCname(st, line) {
      if Parsed(line) in st.wanted {
        had := {Parsed(line)};
      } else {
        stray := true;
      }
    }
  }

  /** plan, for the aliases. */
  method PlanCnames(st: Setting, lines: seq<string>) returns (remove: seq<string>, add: seq<string>, left: seq<string>)
    ensures remove == if st.delete then Unwanted(st, lines) else []
    ensures left == if st.delete then [] else Unwanted(st, lines)
    ensures add == SortedSet(AddedCnames(st, AsSet(lines)))
  {
    var have: set<Record> := {};
    remove, left := [], [];
    for k := 0 to |lines|
      invariant have == HaveCnames(st, AsSet(lines[..k]))
      invariant remove == if st.delete then Unwanted(st, lines[..k]) else []
      invariant left == if st.delete then [] else Unwanted(st, lines[..k])
    {
      AsSetOneMore(lines, k);
      HaveOfOneMore(st, AsSet(lines[..k]), lines[k]);
      assert lines[..k + 1][..k] == lines[..k];
      var had, stray := PlanCname(st, lines[k]);
      have := have + had;
      if stray {
        if st.delete {
          remove := remove + [lines[k]];
        } else {
          left := left + [lines[k]];
        }
      }
    }
    assert lines[..|lines|] == lines;
    add := SortedSet(set w | w in WantedCnames(st) - have :: CnameLine(w));
  }

  /** plan: both kinds, and everything a delete would remove, sorted, while deleting is off. */
  method Plan(st: Setting, hosts: seq<string>, cnames: seq<string>)
    returns (rmH: seq<string>, addH: seq<string>, rmC: seq<string>, addC: seq<string>, left: seq<string>)
    requires LinesOk(AsSet(hosts)) && WantedOk(st)
    ensures AsSet(rmH) == RemovedHosts(st, AsSet(hosts)) && addH == SortedSet(AddedHosts(st, AsSet(hosts)))
    ensures AsSet(rmC) == RemovedCnames(st, AsSet(cnames)) && addC == SortedSet(AddedCnames(st, AsSet(cnames)))
    ensures rmH == RemovedInOrder(st, hosts) && rmC == if st.delete then Unwanted(st, cnames) else []
    ensures left == SortByKey(LeftHosts(st, hosts) + (if st.delete then [] else Unwanted(st, cnames)), (x: string) => x)
  {
    var leftH, leftC;
    rmH, addH, leftH := PlanHosts(st, hosts);
    rmC, addC, leftC := PlanCnames(st, cnames);
    RemovedInOrderIs(st, hosts);
    UnwantedAreRemoved(st, cnames);
    left := SortByKey(leftH + leftC, (x: string) => x);
  }

  // ---- Pi-hole (assumed: DELETE drops the line, PUT puts it in, each line held once) --------------------

  class PiHole {
    var hosts: set<string>
    var cnames: set<string>

    /** config/dns, the lines in whatever order Pi-hole gives them. */
    method Lists() returns (h: seq<string>, c: seq<string>)
      ensures AsSet(h) == hosts && AsSet(c) == cnames
    {
      h, c := SortedSet(hosts), SortedSet(cnames);
    }

    method Delete(lines: seq<string>, aliases: seq<string>)
      modifies this
      ensures hosts == old(hosts) - AsSet(lines) && cnames == old(cnames) - AsSet(aliases)
    {
      for k := 0 to |lines|
        invariant hosts == old(hosts) - AsSet(lines[..k]) && cnames == old(cnames)
      {
        AsSetOneMore(lines, k);
        hosts := hosts - {lines[k]};
      }
      for k := 0 to |aliases|
        invariant cnames == old(cnames) - AsSet(aliases[..k]) && hosts == old(hosts) - AsSet(lines[..|lines|])
      {
        AsSetOneMore(aliases, k);
        cnames := cnames - {aliases[k]};
      }
      assert lines[..|lines|] == lines && aliases[..|aliases|] == aliases;
    }

    method Put(lines: seq<string>, aliases: seq<string>)
      modifies this
      ensures hosts == old(hosts) + AsSet(lines) && cnames == old(cnames) + AsSet(aliases)
    {
      for k := 0 to |lines|
        invariant hosts == old(hosts) + AsSet(lines[..k]) && cnames == old(cnames)
      {
        AsSetOneMore(lines, k);
        hosts := hosts + {lines[k]};
      }
      for k := 0 to |aliases|
        invariant cnames == old(cnames) + AsSet(aliases[..k]) && hosts == old(hosts) + AsSet(lines[..|lines|])
      {
        AsSetOneMore(aliases, k);
        cnames := cnames + {aliases[k]};
      }
      assert lines[..|lines|] == lines && aliases[..|aliases|] == aliases;
    }
  }

  /** What a Pi-hole needs, from its own lists; `none` when that is nothing. */
  method Needs(ph: PiHole, st: Setting)
    returns (rmH: seq<string>, addH: seq<string>, rmC: seq<string>, addC: seq<string>, none: bool)
    requires LinesOk(ph.hosts) && WantedOk(st)
    ensures AsSet(rmH) == RemovedHosts(st, ph.hosts) && AsSet(addH) == AddedHosts(st, ph.hosts)
    ensures AsSet(rmC) == RemovedCnames(st, ph.cnames) && AsSet(addC) == AddedCnames(st, ph.cnames)
    ensures none <==> AsSet(rmH) == AsSet(addH) == AsSet(rmC) == AsSet(addC) == {}
  {
    var hosts, cnames := ph.Lists();
    assert AsSet(hosts) == ph.hosts && AsSet(cnames) == ph.cnames;
    var left;
    rmH, addH, rmC, addC, left := Plan(st, hosts, cnames);
    assert AsSet(addH) == AddedHosts(st, ph.hosts) && AsSet(addC) == AddedCnames(st, ph.cnames);
    none := rmH == [] && addH == [] && rmC == [] && addC == [];
    NoLines(rmH, addH, rmC, addC);
  }

  lemma NoLines(a: seq<string>, b: seq<string>, c: seq<string>, d: seq<string>)
    ensures a == [] && b == [] && c == [] && d == [] <==> AsSet(a) == AsSet(b) == AsSet(c) == AsSet(d) == {}
  {
    AsSetEmpty(a);
    AsSetEmpty(b);
    AsSetEmpty(c);
    AsSetEmpty(d);
  }

  /** sync_one: with apply, the Pi-hole ends as planned and the read-back finds nothing outstanding;
      without it, nothing changes. */
  method SyncOne(ph: PiHole, st: Setting, apply: bool) returns (matches: bool)
    requires LinesOk(ph.hosts) && WantedOk(st) && CnamesOk(st)
    modifies ph
    ensures matches
    ensures if apply then ph.hosts == HostsAfter(st, old(ph.hosts)) && ph.cnames == CnamesAfter(st, old(ph.cnames))
      else ph.hosts == old(ph.hosts) && ph.cnames == old(ph.cnames)
  {
    var rmH, addH, rmC, addC, none := Needs(ph, st);
    if !apply || none { return true; }
    ph.Delete(rmH, rmC);
    ph.Put(addH, addC);
    HostsConverge(st, old(ph.hosts));
    CnamesConverge(st, old(ph.cnames));
    rmH, addH, rmC, addC, matches := Needs(ph, st);
  }
}
