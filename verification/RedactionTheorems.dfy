/** What redaction leaves behind: exactly the recorded strings changed, nothing for the detectors
    to find, and nothing for a second run to do. */
module RedactionTheorems {
  import opened Documents
  import opened Redaction
  import opened Text

  // ---- lists of lists -------------------------------------------------------------------------

  lemma {:induction false} InFlat<X>(rss: seq<seq<X>>, x: X)
    ensures x in Flat(rss) <==> exists i :: 0 <= i < |rss| && x in rss[i]
  {
    if rss != [] {
      var more, last := rss[..|rss| - 1], rss[|rss| - 1];
      InFlat(more, x);
      assert forall i :: 0 <= i < |more| ==> more[i] == rss[i];
    }
  }

  lemma FlatEmpty<X>(rss: seq<seq<X>>)
    ensures Flat(rss) == [] <==> forall i :: 0 <= i < |rss| ==> rss[i] == []
  {
    if Flat(rss) == [] {
      forall i | 0 <= i < |rss| ensures rss[i] == [] {
        if rss[i] != [] {
          assert rss[i][0] in rss[i];
          InFlat(rss, rss[i][0]);
        }
      }
    } else {
      InFlat(rss, Flat(rss)[0]);
    }
  }

  /** No path twice. */
  predicate Once(rs: seq<Record>) {
    forall i, j :: 0 <= i < j < |rs| ==> rs[i].path != rs[j].path
  }

  function Paths(rs: seq<Record>): set<seq<nat>> {
    set r | r in rs :: r.path
  }

  lemma OnceJoined(a: seq<Record>, b: seq<Record>)
    requires Once(a) && Once(b) && Paths(a) !! Paths(b)
    ensures Once(a + b) && Paths(a + b) == Paths(a) + Paths(b)
  {
    forall i, j | 0 <= i < j < |a + b| ensures (a + b)[i].path != (a + b)[j].path {
      if i < |a| && |a| <= j {
        assert a[i].path in Paths(a) && b[j - |a|].path in Paths(b);
      }
    }
  }

  lemma {:induction false} FlatOnce(rss: seq<seq<Record>>)
    requires forall i :: 0 <= i < |rss| ==> Once(rss[i])
    requires forall i, j :: 0 <= i < j < |rss| ==> Paths(rss[i]) !! Paths(rss[j])
    ensures Once(Flat(rss))
  {
    if rss != [] {
      var more, last := rss[..|rss| - 1], rss[|rss| - 1];
      assert forall i :: 0 <= i < |more| ==> more[i] == rss[i];
      FlatOnce(more);
      forall q | q in Paths(Flat(more)) ensures q !in Paths(last) {
        var r :| r in Flat(more) && r.path == q;
        InFlat(more, r);
        var i :| 0 <= i < |more| && r in more[i];
        assert q in Paths(rss[i]) && Paths(rss[i]) !! Paths(rss[|rss| - 1]);
      }
      OnceJoined(Flat(more), last);
    }
  }

  // ---- strings at paths --------------------------------------------------------------------------

  /** The document with the placeholder at the strings of some paths. */
  function Put(t: Tree, path: seq<nat>, ps: set<seq<nat>>): Tree
    decreases t, 1
  {
    if t.Text? && path in ps then Tree.Text(PLACEHOLDER) else With(t, PutInto(t, path, ps))
  }

  function PutInto(t: Tree, path: seq<nat>, ps: set<seq<nat>>): seq<Tree>
    decreases t, 0
  {
    seq(|Kids(t)|, i requires 0 <= i < |Kids(t)| => Put(Kids(t)[i], path + [i], ps))
  }

  function TextAt(t: Tree, q: seq<nat>): Option<string> {
    if q == [] then (if t.Text? then Some(t.s) else None)
    else if q[0] < |Kids(t)| then TextAt(Kids(t)[q[0]], q[1..])
    else None
  }

  lemma WithSame(t: Tree)
    ensures With(t, Kids(t)) == t
  {
    match t
    case Dict(es) =>
      assert With(t, Kids(t)).entries == es;
    case _ =>
  }

  lemma {:induction false} PutAgree(t: Tree, path: seq<nat>, a: set<seq<nat>>, b: set<seq<nat>>)
    requires forall q :: path <= q ==> (q in a <==> q in b)
    ensures Put(t, path, a) == Put(t, path, b)
    decreases t
  {
    forall i | 0 <= i < |Kids(t)| ensures Put(Kids(t)[i], path + [i], a) == Put(Kids(t)[i], path + [i], b) {
      forall q | path + [i] <= q ensures q in a <==> q in b {
        assert path <= path + [i];
        assert path <= q;
      }
      PutAgree(Kids(t)[i], path + [i], a, b);
    }
    assert PutInto(t, path, a) == PutInto(t, path, b);
  }

  lemma {:induction false} PutNothing(t: Tree, path: seq<nat>)
    ensures Put(t, path, {}) == t
    decreases t
  {
    forall i | 0 <= i < |Kids(t)| ensures Put(Kids(t)[i], path + [i], {}) == Kids(t)[i] {
      PutNothing(Kids(t)[i], path + [i]);
    }
    assert PutInto(t, path, {}) == Kids(t);
    WithSame(t);
  }

  lemma WithWith(t: Tree, a: seq<Tree>, b: seq<Tree>)
    requires |a| == |b| == |Kids(t)|
    ensures With(With(t, a), b) == With(t, b)
  {
    match t
    case Dict(es) =>
      assert With(With(t, a), b).entries == With(t, b).entries;
    case _ =>
  }

  lemma PutKids(t: Tree, path: seq<nat>, ps: set<seq<nat>>)
    ensures var u := Put(t, path, ps);
      && |Kids(u)| == |Kids(t)| && (u.Dict? <==> t.Dict?) && (u.List? <==> t.List?) && (u.Text? <==> t.Text?)
      && (forall i :: 0 <= i < |Kids(t)| ==> Kids(u)[i] == Put(Kids(t)[i], path + [i], ps))
      && (forall i: nat :: KeyOf(u, i) == KeyOf(t, i))
  {
  }

  lemma {:induction false} PutPut(t: Tree, path: seq<nat>, a: set<seq<nat>>, b: set<seq<nat>>)
    ensures Put(Put(t, path, a), path, b) == Put(t, path, a + b)
    decreases t
  {
    if !t.Text? {
      var u := Put(t, path, a);
      PutKids(t, path, a);
      forall i | 0 <= i < |Kids(t)| ensures Put(Kids(u)[i], path + [i], b) == Put(Kids(t)[i], path + [i], a + b) {
        PutPut(Kids(t)[i], path + [i], a, b);
      }
      assert PutInto(u, path, b) == PutInto(t, path, a + b);
      WithWith(t, PutInto(t, path, a), PutInto(t, path, a + b));
    }
  }

  lemma {:induction false} TextAtPut(t: Tree, path: seq<nat>, ps: set<seq<nat>>, q: seq<nat>)
    ensures TextAt(Put(t, path, ps), q) ==
      if TextAt(t, q).Some? && path + q in ps then Some(PLACEHOLDER) else TextAt(t, q)
    decreases t, q
  {
    PutKids(t, path, ps);
    if q == [] {
      assert path + q == path;
    } else if q[0] < |Kids(t)| {
      TextAtPut(Kids(t)[q[0]], path + [q[0]], ps, q[1..]);
      assert path + [q[0]] + q[1..] == path + q;
    }
  }

  // ---- one pass ---------------------------------------------------------------------------------------

  lemma {:induction false} RecordsBelow(d: Detectors, p: Pass, m: Mode, t: Tree, path: seq<nat>, r: Record)
    requires r in Records(d, p, m, t, path)
    ensures exists i: nat :: i < |Kids(t)| && r in KidRecords(d, p, m, t, i, path) && path + [i] <= r.path
    decreases t
  {
    var rss := KidsRecords(d, p, m, t, path);
    InFlat(rss, r);
    var i: nat :| i < |rss| && r in rss[i];
    assert rss[i] == KidRecords(d, p, m, t, i, path);
    if Flag(d, p, m, t, i).None? {
      RecordsBelow(d, p, Below(m, t, i), Kids(t)[i], path + [i], r);
      var j: nat :| path + [i] + [j] <= r.path;
      assert path + [i] <= path + [i] + [j];
    }
  }

  /** A child's records are those of the whole that lie below it. */
  lemma KidsShare(d: Detectors, p: Pass, m: Mode, t: Tree, i: nat, path: seq<nat>, q: seq<nat>)
    requires i < |Kids(t)| && path + [i] <= q
    ensures q in Paths(Records(d, p, m, t, path)) <==> q in Paths(KidRecords(d, p, m, t, i, path))
  {
    if q in Paths(Records(d, p, m, t, path)) {
      var r :| r in Records(d, p, m, t, path) && r.path == q;
      RecordsBelow(d, p, m, t, path, r);
      var j: nat :| j < |Kids(t)| && r in KidRecords(d, p, m, t, j, path) && path + [j] <= r.path;
      assert q[|path|] == (path + [i])[|path|] == i && q[|path|] == (path + [j])[|path|] == j;
    }
    if q in Paths(KidRecords(d, p, m, t, i, path)) {
      var r :| r in KidRecords(d, p, m, t, i, path) && r.path == q;
      var rss := KidsRecords(d, p, m, t, path);
      assert r in rss[i];
      InFlat(rss, r);
    }
  }

  /** A pass changes exactly the strings it records. */
  lemma {:induction false} WalkedIsPut(d: Detectors, p: Pass, m: Mode, t: Tree, path: seq<nat>)
    ensures Walked(d, p, m, t) == Put(t, path, Paths(Records(d, p, m, t, path)))
    decreases t
  {
    var ps, n := Paths(Records(d, p, m, t, path)), |Kids(t)|;
    forall i | 0 <= i < n ensures WalkedKid(d, p, m, t, i) == Put(Kids(t)[i], path + [i], ps) {
      forall q | path + [i] <= q ensures q in ps <==> q in Paths(KidRecords(d, p, m, t, i, path)) {
        KidsShare(d, p, m, t, i, path, q);
      }
      PutAgree(Kids(t)[i], path + [i], ps, Paths(KidRecords(d, p, m, t, i, path)));
      if Flag(d, p, m, t, i).Some? {
        FlagIsPut(d, p, m, t, i, path);
      } else {
        WalkedIsPut(d, p, Below(m, t, i), Kids(t)[i], path + [i]);
      }
    }
    assert WalkedKids(d, p, m, t) == PutInto(t, path, ps);
    if t.Text? {
      assert KidsRecords(d, p, m, t, path) == [];
    }
  }

  lemma FlagIsPut(d: Detectors, p: Pass, m: Mode, t: Tree, i: nat, path: seq<nat>)
    requires i < |Kids(t)| && Flag(d, p, m, t, i).Some?
    ensures Put(Kids(t)[i], path + [i], Paths(KidRecords(d, p, m, t, i, path))) == Tree.Text(PLACEHOLDER)
  {
    var rs := KidRecords(d, p, m, t, i, path);
    assert rs == [Record(path + [i], Flag(d, p, m, t, i).value)];
    assert rs[0] in rs && path + [i] in Paths(rs);
  }

  /** A pass records no path twice. */
  lemma {:induction false} RecordsOnce(d: Detectors, p: Pass, m: Mode, t: Tree, path: seq<nat>)
    ensures Once(Records(d, p, m, t, path))
    decreases t
  {
    var n := |Kids(t)|;
    var rss := KidsRecords(d, p, m, t, path);
    forall i | 0 <= i < n ensures Once(rss[i]) {
      assert rss[i] == KidRecords(d, p, m, t, i, path);
      if Flag(d, p, m, t, i).None? {
        RecordsOnce(d, p, Below(m, t, i), Kids(t)[i], path + [i]);
      }
    }
    forall i, j | 0 <= i < j < n ensures Paths(rss[i]) !! Paths(rss[j]) {
      KidsApart(d, p, m, t, path, i, j);
    }
    FlatOnce(rss);
  }

  lemma KidPaths(d: Detectors, p: Pass, m: Mode, t: Tree, i: nat, path: seq<nat>, q: seq<nat>)
    requires i < |Kids(t)| && q in Paths(KidRecords(d, p, m, t, i, path))
    ensures path + [i] <= q
  {
    if Flag(d, p, m, t, i).None? {
      var r :| r in KidRecords(d, p, m, t, i, path) && r.path == q;
      RecordsBelow(d, p, Below(m, t, i), Kids(t)[i], path + [i], r);
      var j: nat :| path + [i] + [j] <= q;
      assert path + [i] <= path + [i] + [j];
    }
  }

  lemma KidsApart(d: Detectors, p: Pass, m: Mode, t: Tree, path: seq<nat>, i: nat, j: nat)
    requires i < j < |Kids(t)|
    ensures Paths(KidRecords(d, p, m, t, i, path)) !! Paths(KidRecords(d, p, m, t, j, path))
  {
    forall q | q in Paths(KidRecords(d, p, m, t, i, path)) ensures q !in Paths(KidRecords(d, p, m, t, j, path)) {
      KidPaths(d, p, m, t, i, path, q);
      Branch(path, i, j, q);
      if q in Paths(KidRecords(d, p, m, t, j, path)) {
        KidPaths(d, p, m, t, j, path, q);
      }
    }
  }

  lemma Branch(path: seq<nat>, i: nat, j: nat, q: seq<nat>)
    requires i != j && path + [i] <= q
    ensures !(path + [j] <= q)
  {
    assert (path + [i])[|path|] == q[|path|] && (path + [j])[|path|] == j;
  }

  /** What a pass records is a string, and not the placeholder. */
  lemma {:induction false} RecordIsText(d: Detectors, p: Pass, m: Mode, t: Tree, path: seq<nat>, r: Record)
    requires DetectorsOk(d) && r in Records(d, p, m, t, path)
    ensures |path| < |r.path| && TextAt(t, r.path[|path|..]).Some? && TextAt(t, r.path[|path|..]).value != PLACEHOLDER
    decreases t
  {
    RecordsBelow(d, p, m, t, path, r);
    var i: nat :| i < |Kids(t)| && r in KidRecords(d, p, m, t, i, path) && path + [i] <= r.path;
    var q := r.path[|path|..];
    assert q[0] == r.path[|path|] == (path + [i])[|path|];
    assert q[1..] == r.path[|path + [i]|..];
    PlaceholderIsHarmless(d);
    if Flag(d, p, m, t, i).Some? {
      assert q[1..] == [];
    } else {
      RecordIsText(d, p, Below(m, t, i), Kids(t)[i], path + [i], r);
    }
  }

  // ---- a pass over what a pass left ---------------------------------------------------------------------

  lemma PutKeepsNames(item: Tree, path: seq<nat>, ps: set<seq<nat>>, key: string)
    requires item.Dict?
    ensures var u := Put(item, path, ps);
      && u.Dict? && |u.entries| == |item.entries|
      && Position(u.entries, key) == Position(item.entries, key)
      && (HasKey(item, key) <==> HasKey(u, key))
      && (HasKey(item, key) ==> Get(u, key) == Put(Get(item, key), path + [Position(item.entries, key)], ps))
  {
    var u, i := Put(item, path, ps), Position(item.entries, key);
    PutKids(item, path, ps);
    forall j: nat | j < |item.entries| ensures u.entries[j].key == item.entries[j].key {
      assert KeyOf(u, j) == KeyOf(item, j);
    }
    SamePosition(u.entries, item.entries, key);
    if i < |item.entries| {
      assert u.entries[i].val == Kids(u)[i] && item.entries[i].val == Kids(item)[i];
    }
  }

  lemma PutLooksLikeEnv(t: Tree, path: seq<nat>, ps: set<seq<nat>>)
    ensures LooksLikeEnv(Put(t, path, ps)) <==> LooksLikeEnv(t)
  {
    var u := Put(t, path, ps);
    PutKids(t, path, ps);
    if t.List? {
      forall i | 0 <= i < |t.items| ensures HasKey(u.items[i], "name") <==> HasKey(t.items[i], "name") {
        assert u.items[i] == Kids(u)[i] == Put(Kids(t)[i], path + [i], ps);
        PutKids(t.items[i], path + [i], ps);
        if t.items[i].Dict? {
          PutKeepsNames(t.items[i], path + [i], ps, "name");
        }
      }
    }
  }

  lemma PutKeepsModes(m: Mode, t: Tree, i: nat, path: seq<nat>, ps: set<seq<nat>>)
    requires i < |Kids(t)|
    ensures i < |Kids(Put(t, path, ps))| && Below(m, Put(t, path, ps), i) == Below(m, t, i)
  {
    PutKids(t, path, ps);
    PutLooksLikeEnv(Kids(t)[i], path + [i], ps);
  }

  /** An entry's name and value, where they are still strings other than the placeholder, are as before. */
  lemma PutKeepsEnvName(item: Tree, path: seq<nat>, ps: set<seq<nat>>)
    requires item.Dict? && EnvName(Put(item, path, ps)).Some? && HasKey(Put(item, path, ps), "value")
    requires Get(Put(item, path, ps), "value") != Tree.Text(PLACEHOLDER)
    ensures EnvName(item) == EnvName(Put(item, path, ps))
  {
    PutKeepsNames(item, path, ps, "name");
    PutKeepsNames(item, path, ps, "value");
    var u := Put(item, path, ps);
    OneText(Get(item, "name"), path + [Position(item.entries, "name")], ps);
    OneText(Get(item, "value"), path + [Position(item.entries, "value")], ps);
    assert Suspicious(Get(u, "name").s);
    assert !Suspicious(PLACEHOLDER) by { PlaceholderIsHarmless(Detectors(s => [], s => false)); }
  }

  lemma OneText(t: Tree, path: seq<nat>, ps: set<seq<nat>>)
    ensures Put(t, path, ps).Text? <==> t.Text?
    ensures t.Text? ==> Put(t, path, ps) == t || Put(t, path, ps) == Tree.Text(PLACEHOLDER)
  {
    PutKids(t, path, ps);
  }

  /** Putting placeholders anywhere gives no pass anything new to redact. */
  lemma FlagStable(d: Detectors, p: Pass, m: Mode, t: Tree, i: nat, path: seq<nat>, ps: set<seq<nat>>)
    requires DetectorsOk(d) && i < |Kids(t)|
    ensures i < |Kids(Put(t, path, ps))|
    ensures Flag(d, p, m, Put(t, path, ps), i).Some? ==>
      Flag(d, p, m, t, i).Some? && Kids(Put(t, path, ps))[i] == Kids(t)[i]
  {
    var u := Put(t, path, ps);
    PutKids(t, path, ps);
    OneText(Kids(t)[i], path + [i], ps);
    PlaceholderIsHarmless(d);
    if p == EnvPass && Flag(d, p, m, u, i).Some? {
      assert Kids(u)[i] == u.entries[i].val == Get(u, "value");
      PutKeepsEnvName(t, path, ps);
      PutKeepsNames(t, path, ps, "value");
    }
  }

  predicate KidsClean(d: Detectors, p: Pass, m: Mode, t: Tree, path: seq<nat>) {
    forall i: nat :: i < |Kids(t)| ==> KidRecords(d, p, m, t, i, path) == []
  }

  lemma NoRecords(d: Detectors, p: Pass, m: Mode, t: Tree, path: seq<nat>)
    ensures Records(d, p, m, t, path) == [] <==> KidsClean(d, p, m, t, path)
  {
    var rss := KidsRecords(d, p, m, t, path);
    FlatEmpty(rss);
    assert Records(d, p, m, t, path) == Flat(rss);
    if Records(d, p, m, t, path) == [] {
      forall i: nat | i < |Kids(t)| ensures KidRecords(d, p, m, t, i, path) == [] {
        assert rss[i] == [];
      }
    }
    if KidsClean(d, p, m, t, path) {
      forall i: nat | i < |rss| ensures rss[i] == [] {
        assert KidRecords(d, p, m, t, i, path) == [];
      }
    }
  }

  lemma {:induction false} StaysClean(d: Detectors, p: Pass, m: Mode, t: Tree, path: seq<nat>, ps: set<seq<nat>>)
    requires DetectorsOk(d) && Records(d, p, m, t, path) == []
    ensures Records(d, p, m, Put(t, path, ps), path) == []
    decreases t
  {
    var u := Put(t, path, ps);
    PutKids(t, path, ps);
    NoRecords(d, p, m, t, path);
    forall i | 0 <= i < |Kids(u)| ensures KidRecords(d, p, m, u, i, path) == [] {
      FlagStable(d, p, m, t, i, path, ps);
      PutKeepsModes(m, t, i, path, ps);
      assert KidRecords(d, p, m, t, i, path) == [];
      StaysClean(d, p, Below(m, t, i), Kids(t)[i], path + [i], ps);
    }
    NoRecords(d, p, m, u, path);
  }

  /** A pass leaves itself nothing more to redact. */
  lemma {:induction false} WalkCleans(d: Detectors, p: Pass, m: Mode, t: Tree, path: seq<nat>)
    requires DetectorsOk(d)
    ensures Records(d, p, m, Walked(d, p, m, t), path) == []
    decreases t
  {
    var u, ps := Walked(d, p, m, t), Paths(Records(d, p, m, t, path));
    WalkedIsPut(d, p, m, t, path);
    PutKids(t, path, ps);
    forall i | 0 <= i < |Kids(u)| ensures KidRecords(d, p, m, u, i, path) == [] {
      FlagStable(d, p, m, t, i, path, ps);
      PutKeepsModes(m, t, i, path, ps);
      assert Kids(u)[i] == WalkedKid(d, p, m, t, i);
      if Flag(d, p, m, t, i).Some? {
        FlagNeedsText(d, p, m, u, i);
        assert KidsRecords(d, p, Below(m, u, i), Kids(u)[i], path + [i]) == [];
      } else {
        WalkCleans(d, p, Below(m, t, i), Kids(t)[i], path + [i]);
      }
    }
    NoRecords(d, p, m, u, path);
  }

  lemma FlagNeedsText(d: Detectors, p: Pass, m: Mode, t: Tree, i: nat)
    requires DetectorsOk(d) && i < |Kids(t)| && Kids(t)[i] == Tree.Text(PLACEHOLDER)
    ensures Flag(d, p, m, t, i).None?
  {
    PlaceholderIsHarmless(d);
  }

  lemma CleanIsFixed(d: Detectors, p: Pass, m: Mode, t: Tree)
    requires Records(d, p, m, t, []) == []
    ensures Walked(d, p, m, t) == t
  {
    WalkedIsPut(d, p, m, t, []);
    assert Paths(Records(d, p, m, t, [])) == {};
    PutNothing(t, []);
  }

  // ---- redact_credentials ---------------------------------------------------------------------------------

  function AfterPatterns(d: Detectors, t: Tree): Tree {
    Walked(d, PatternPass, Elsewhere, t)
  }

  function AfterEnv(d: Detectors, t: Tree): Tree {
    Walked(d, EnvPass, Elsewhere, AfterPatterns(d, t))
  }

  function Redacted(d: Detectors, t: Tree): Tree {
    Walked(d, KeyPass, Elsewhere, AfterEnv(d, t))
  }

  function AllRecords(d: Detectors, t: Tree): seq<Record> {
    Records(d, PatternPass, Elsewhere, t, []) + Records(d, EnvPass, Elsewhere, AfterPatterns(d, t), [])
      + Records(d, KeyPass, Elsewhere, AfterEnv(d, t), [])
  }

  /** Records of a pass over `Put(t, [], ps)` are of strings of `t` that `ps` left alone. */
  lemma NextPassIsNew(d: Detectors, p: Pass, t: Tree, ps: set<seq<nat>>)
    requires DetectorsOk(d)
    ensures Paths(Records(d, p, Elsewhere, Put(t, [], ps), [])) !! ps
    ensures forall r :: r in Records(d, p, Elsewhere, Put(t, [], ps), []) ==>
      TextAt(t, r.path).Some? && TextAt(t, r.path).value != PLACEHOLDER
  {
    forall r | r in Records(d, p, Elsewhere, Put(t, [], ps), [])
      ensures r.path !in ps && TextAt(t, r.path).Some? && TextAt(t, r.path).value != PLACEHOLDER
    {
      RecordIsText(d, p, Elsewhere, Put(t, [], ps), [], r);
      assert r.path[0..] == r.path && [] + r.path == r.path;
      TextAtPut(t, [], ps, r.path);
    }
  }

  lemma JoinPass(d: Detectors, p: Pass, t: Tree, rs: seq<Record>)
    requires DetectorsOk(d) && Once(rs)
    requires forall r :: r in rs ==> TextAt(t, r.path).Some? && TextAt(t, r.path).value != PLACEHOLDER
    ensures var u := Put(t, [], Paths(rs));
      var all := rs + Records(d, p, Elsewhere, u, []);
      && Walked(d, p, Elsewhere, u) == Put(t, [], Paths(all)) && Once(all)
      && forall r :: r in all ==> TextAt(t, r.path).Some? && TextAt(t, r.path).value != PLACEHOLDER
  {
    var u := Put(t, [], Paths(rs));
    var more := Records(d, p, Elsewhere, u, []);
    NextPassIsNew(d, p, t, Paths(rs));
    RecordsOnce(d, p, Elsewhere, u, []);
    OnceJoined(rs, more);
    WalkedIsPut(d, p, Elsewhere, u, []);
    PutPut(t, [], Paths(rs), Paths(more));
  }

  /** Exactly the recorded strings change, all to the placeholder: the rest of the document and its
      shape are as they were, no string has two records, and none is recorded without having changed. */
  lemma RedactionChangesExactlyTheRecorded(d: Detectors, t: Tree)
    requires DetectorsOk(d)
    ensures Redacted(d, t) == Put(t, [], Paths(AllRecords(d, t)))
    ensures Once(AllRecords(d, t))
    ensures forall r :: r in AllRecords(d, t) ==> TextAt(t, r.path).Some? && TextAt(t, r.path).value != PLACEHOLDER
  {
    var rs1 := Records(d, PatternPass, Elsewhere, t, []);
    PutNothing(t, []);
    var none: seq<Record> := [];
    assert Paths(none) == {} && none + rs1 == rs1;
    JoinPass(d, PatternPass, t, []);
    JoinPass(d, EnvPass, t, rs1);
    JoinPass(d, KeyPass, t, rs1 + Records(d, EnvPass, Elsewhere, AfterPatterns(d, t), []));
  }

  /** A string is read back as it was unless it is recorded, and then as the placeholder. */
  lemma StringsAfter(d: Detectors, t: Tree, q: seq<nat>)
    requires DetectorsOk(d)
    ensures TextAt(Redacted(d, t), q) == if q in Paths(AllRecords(d, t)) then Some(PLACEHOLDER) else TextAt(t, q)
  {
    RedactionChangesExactlyTheRecorded(d, t);
    TextAtPut(t, [], Paths(AllRecords(d, t)), q);
    assert [] + q == q;
  }

  lemma EveryPassIsDone(d: Detectors, t: Tree)
    requires DetectorsOk(d)
    ensures forall p :: Records(d, p, Elsewhere, Redacted(d, t), []) == []
  {
    var t1, t2 := AfterPatterns(d, t), AfterEnv(d, t);
    WalkCleans(d, PatternPass, Elsewhere, t, []);
    WalkedIsPut(d, EnvPass, Elsewhere, t1, []);
    StaysClean(d, PatternPass, Elsewhere, t1, [], Paths(Records(d, EnvPass, Elsewhere, t1, [])));
    WalkedIsPut(d, KeyPass, Elsewhere, t2, []);
    StaysClean(d, PatternPass, Elsewhere, t2, [], Paths(Records(d, KeyPass, Elsewhere, t2, [])));
    WalkCleans(d, EnvPass, Elsewhere, t1, []);
    StaysClean(d, EnvPass, Elsewhere, t2, [], Paths(Records(d, KeyPass, Elsewhere, t2, [])));
    WalkCleans(d, KeyPass, Elsewhere, t2, []);
    forall p ensures Records(d, p, Elsewhere, Redacted(d, t), []) == [] {
      match p
      case PatternPass =>
      case EnvPass =>
      case KeyPass =>
    }
  }

  /** A second run redacts nothing and changes nothing. */
  lemma SecondRunRedactsNothing(d: Detectors, t: Tree)
    requires DetectorsOk(d)
    ensures AllRecords(d, Redacted(d, t)) == [] && Redacted(d, Redacted(d, t)) == Redacted(d, t)
  {
    var r := Redacted(d, t);
    EveryPassIsDone(d, t);
    CleanIsFixed(d, PatternPass, Elsewhere, r);
    CleanIsFixed(d, EnvPass, Elsewhere, r);
    CleanIsFixed(d, KeyPass, Elsewhere, r);
  }

  // ---- the detectors ------------------------------------------------------------------------------------------

  datatype Finding = Finding(path: seq<nat>, value: string)

  /** find_suspicious_plaintext_values. */
  function FindSuspicious(t: Tree, path: seq<nat>): seq<Finding>
    decreases t, 1
  {
    Flat(SuspiciousIn(t, path))
  }

  function SuspiciousIn(t: Tree, path: seq<nat>): seq<seq<Finding>>
    decreases t, 0
  {
    seq(|Kids(t)|, i requires 0 <= i < |Kids(t)| =>
      (if KeyOf(t, i).Some? && Suspicious(KeyOf(t, i).value) && Kids(t)[i].Text? && Strip(Kids(t)[i].s) != ""
       then [Finding(path + [i], Kids(t)[i].s)] else []) + FindSuspicious(Kids(t)[i], path + [i]))
  }

  /** find_high_entropy_strings. */
  function FindEntropy(d: Detectors, t: Tree, path: seq<nat>): seq<Finding>
    decreases t, 1
  {
    if t.Text? then (if HighEntropy(d, t.s) then [Finding(path, t.s)] else []) else Flat(EntropyIn(d, t, path))
  }

  function EntropyIn(d: Detectors, t: Tree, path: seq<nat>): seq<seq<Finding>>
    decreases t, 0
  {
    seq(|Kids(t)|, i requires 0 <= i < |Kids(t)| => FindEntropy(d, Kids(t)[i], path + [i]))
  }

  /** One env entry's finding. */
  function EntryFinding(item: Tree, path: seq<nat>): seq<Finding> {
    if HasKey(item, "name") && Get(item, "name").Text? && Suspicious(Get(item, "name").s)
      && HasKey(item, "value") && Get(item, "value").Text?
      && Lower(Strip(Get(item, "value").s)) !in NOT_A_CREDENTIAL
    then [Finding(path + [Position(item.entries, "value")], Get(item, "value").s)] else []
  }

  function EntryFindings(list: Tree, path: seq<nat>): seq<seq<Finding>> {
    seq(|Kids(list)|, i requires 0 <= i < |Kids(list)| => EntryFinding(Kids(list)[i], path + [i]))
  }

  /** find_env_var_credentials. */
  function FindEnv(t: Tree, path: seq<nat>): seq<Finding>
    decreases t, 1
  {
    Flat(EnvIn(t, path))
  }

  function EnvIn(t: Tree, path: seq<nat>): seq<seq<Finding>>
    decreases t, 0
  {
    seq(|Kids(t)|, i requires 0 <= i < |Kids(t)| =>
      (if IsEnv(KeyOf(t, i), Kids(t)[i]) then Flat(EntryFindings(Kids(t)[i], path + [i])) else []) +
        FindEnv(Kids(t)[i], path + [i]))
  }

  lemma {:induction false} CleanOfSuspicious(d: Detectors, m: Mode, t: Tree, path: seq<nat>, f: Finding)
    requires Records(d, KeyPass, m, t, path) == [] && f in FindSuspicious(t, path)
    ensures f.value == PLACEHOLDER
    decreases t
  {
    InFlat(SuspiciousIn(t, path), f);
    var i: nat :| i < |Kids(t)| && f in SuspiciousIn(t, path)[i];
    NoRecords(d, KeyPass, m, t, path);
    assert KidRecords(d, KeyPass, m, t, i, path) == [];
    CleanKid(d, KeyPass, m, t, i, path);
    if f in FindSuspicious(Kids(t)[i], path + [i]) {
      CleanOfSuspicious(d, Below(m, t, i), Kids(t)[i], path + [i], f);
    }
  }

  lemma {:induction false} CleanOfEntropy(d: Detectors, m: Mode, t: Tree, path: seq<nat>)
    requires Records(d, PatternPass, m, t, path) == [] && !t.Text?
    ensures FindEntropy(d, t, path) == []
    decreases t
  {
    NoRecords(d, PatternPass, m, t, path);
    var fss := EntropyIn(d, t, path);
    forall i | 0 <= i < |fss| ensures fss[i] == [] {
      assert KidRecords(d, PatternPass, m, t, i, path) == [];
      assert fss[i] == FindEntropy(d, Kids(t)[i], path + [i]) && Flag(d, PatternPass, m, t, i).None?;
      if !Kids(t)[i].Text? {
        CleanOfEntropy(d, Below(m, t, i), Kids(t)[i], path + [i]);
      }
    }
    FlatEmpty(fss);
  }

  lemma {:induction false} CleanOfPatterns(d: Detectors, m: Mode, t: Tree, path: seq<nat>, q: seq<nat>)
    requires Records(d, PatternPass, m, t, path) == [] && q != [] && TextAt(t, q).Some?
    ensures d.patterns(TextAt(t, q).value) == [] && !HighEntropy(d, TextAt(t, q).value)
    decreases t
  {
    NoRecords(d, PatternPass, m, t, path);
    var i := q[0];
    assert KidRecords(d, PatternPass, m, t, i, path) == [];
    if q[1..] != [] {
      CleanOfPatterns(d, Below(m, t, i), Kids(t)[i], path + [i], q[1..]);
    }
  }

  lemma CleanKid(d: Detectors, p: Pass, m: Mode, t: Tree, i: nat, path: seq<nat>)
    requires i < |Kids(t)| && Records(d, p, m, t, path) == []
    ensures Flag(d, p, m, t, i).None?
  {
    NoRecords(d, p, m, t, path);
    assert KidRecords(d, p, m, t, i, path) == [];
  }

  lemma EntryFlag(d: Detectors, item: Tree)
    requires EnvName(item).Some?
    ensures var i := Position(item.entries, "value");
      && i < |Kids(item)| && Kids(item)[i] == Get(item, "value") && Get(item, "value").Text?
      && (Flag(d, EnvPass, EnvEntry, item, i).None? ==> Get(item, "value").s == PLACEHOLDER)
  {
    var i := Position(item.entries, "value");
    assert Get(item, "value") == item.entries[i].val;
  }

  lemma CleanEntry(d: Detectors, item: Tree, path: seq<nat>, f: Finding)
    requires Records(d, EnvPass, EnvEntry, item, path) == [] && f in EntryFinding(item, path)
    ensures f.value == PLACEHOLDER
  {
    EntryFlag(d, item);
    CleanKid(d, EnvPass, EnvEntry, item, Position(item.entries, "value"), path);
  }

  lemma CleanEntries(d: Detectors, list: Tree, path: seq<nat>, f: Finding)
    requires Records(d, EnvPass, EnvList, list, path) == [] && LooksLikeEnv(list) &&
      f in Flat(EntryFindings(list, path))
    ensures f.value == PLACEHOLDER
  {
    InFlat(EntryFindings(list, path), f);
    var i: nat :| i < |Kids(list)| && f in EntryFindings(list, path)[i];
    NoRecords(d, EnvPass, EnvList, list, path);
    assert KidRecords(d, EnvPass, EnvList, list, i, path) == [];
    assert HasKey(list.items[i], "name");
    CleanEntry(d, Kids(list)[i], path + [i], f);
  }

  lemma TextHasNoEnv(t: Tree, path: seq<nat>)
    ensures t.Text? ==> FindEnv(t, path) == []
  {
    assert t.Text? ==> EnvIn(t, path) == [];
  }

  lemma {:induction false} CleanOfEnv(d: Detectors, m: Mode, t: Tree, path: seq<nat>, f: Finding)
    requires Records(d, EnvPass, m, t, path) == [] && (m == EnvList ==> t.List?) && f in FindEnv(t, path)
    ensures f.value == PLACEHOLDER
    decreases t
  {
    InFlat(EnvIn(t, path), f);
    var i: nat :| i < |EnvIn(t, path)| && f in EnvIn(t, path)[i];
    NoRecords(d, EnvPass, m, t, path);
    assert KidRecords(d, EnvPass, m, t, i, path) == [];
    if f in FindEnv(Kids(t)[i], path + [i]) {
      TextHasNoEnv(Kids(t)[i], path + [i]);
      CleanOfEnv(d, Below(m, t, i), Kids(t)[i], path + [i], f);
    } else {
      CleanEntries(d, Kids(t)[i], path + [i], f);
    }
  }

  /** Once redacted, no string below the root matches a pattern or looks like entropy, and the other
      two detectors find only the placeholder. */
  lemma DetectorsFindNothing(d: Detectors, t: Tree)
    requires DetectorsOk(d) && !t.Text?
    ensures FindEntropy(d, Redacted(d, t), []) == []
    ensures forall q :: TextAt(Redacted(d, t), q).Some? ==> d.patterns(TextAt(Redacted(d, t), q).value) == []
    ensures forall f :: f in FindSuspicious(Redacted(d, t), []) ==> f.value == PLACEHOLDER
    ensures forall f :: f in FindEnv(Redacted(d, t), []) ==> f.value == PLACEHOLDER
  {
    var r := Redacted(d, t);
    EveryPassIsDone(d, t);
    CleanOfEntropy(d, Elsewhere, r, []);
    forall q | TextAt(r, q).Some? ensures d.patterns(TextAt(r, q).value) == [] {
      CleanOfPatterns(d, Elsewhere, r, [], q);
    }
    forall f | f in FindSuspicious(r, []) ensures f.value == PLACEHOLDER {
      CleanOfSuspicious(d, Elsewhere, r, [], f);
    }
    forall f | f in FindEnv(r, []) ensures f.value == PLACEHOLDER {
      CleanOfEnv(d, Elsewhere, r, [], f);
    }
  }

  /** A document that is one bare string is left alone, whatever it holds. */
  lemma BareStringIsLeft(d: Detectors, s: string)
    ensures Redacted(d, Tree.Text(s)) == Tree.Text(s) && AllRecords(d, Tree.Text(s)) == []
  {
    var t := Tree.Text(s);
    forall p ensures Records(d, p, Elsewhere, t, []) == [] {
      assert KidsRecords(d, p, Elsewhere, t, []) == [];
    }
    CleanIsFixed(d, PatternPass, Elsewhere, t);
    CleanIsFixed(d, EnvPass, Elsewhere, t);
    CleanIsFixed(d, KeyPass, Elsewhere, t);
  }
}
