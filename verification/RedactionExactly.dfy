/** What redaction redacts, said of the document as it was: the strings its detectors find, with the
    one exception that the order of the passes makes. */
module RedactionExactly {
  import opened Documents
  import opened Redaction
  import opened RedactionTheorems
  import opened Text

  // ---- one pass, string by string ------------------------------------------------------------

  /** Why a pass redacts the string at `q`, if it does. */
  function FlagAt(d: Detectors, p: Pass, m: Mode, t: Tree, q: seq<nat>): Option<Reason>
    decreases q
  {
    if q == [] || q[0] >= |Kids(t)| then None
    else if |q| == 1 then Flag(d, p, m, t, q[0])
    else if Flag(d, p, m, t, q[0]).Some? then None
    else FlagAt(d, p, Below(m, t, q[0]), Kids(t)[q[0]], q[1..])
  }

  lemma KidHasRecord(d: Detectors, p: Pass, m: Mode, t: Tree, path: seq<nat>, i: nat, r: Record)
    requires i < |Kids(t)| && path + [i] <= r.path
    ensures r in Records(d, p, m, t, path) <==> r in KidRecords(d, p, m, t, i, path)
  {
    var rss := KidsRecords(d, p, m, t, path);
    InFlat(rss, r);
    if r in Records(d, p, m, t, path) {
      RecordsBelow(d, p, m, t, path, r);
      var j: nat :| j < |Kids(t)| && r in KidRecords(d, p, m, t, j, path) && path + [j] <= r.path;
      assert r.path[|path|] == (path + [i])[|path|] == (path + [j])[|path|];
    }
    if r in KidRecords(d, p, m, t, i, path) { assert r in rss[i]; }
  }

  /** The records of a pass are of the strings it flags, each with its reason. */
  lemma {:induction false} RecordsAre(d: Detectors, p: Pass, m: Mode, t: Tree, path: seq<nat>, q: seq<nat>, why: Reason)
    requires q != []
    ensures Record(path + q, why) in Records(d, p, m, t, path) <==> FlagAt(d, p, m, t, q) == Some(why)
    decreases q
  {
    var r, i := Record(path + q, why), q[0];
    if i < |Kids(t)| {
      assert path + q == path + [i] + q[1..];
      KidHasRecord(d, p, m, t, path, i, r);
      if Flag(d, p, m, t, i).Some? {
        assert |q| > 1 ==> path + q != path + [i];
        assert |q| == 1 ==> q == [i];
      } else if |q| == 1 {
        assert q == [i];
        NotItself(d, p, Below(m, t, i), Kids(t)[i], path + [i], r);
      } else {
        RecordsAre(d, p, Below(m, t, i), Kids(t)[i], path + [i], q[1..], why);
      }
    } else {
      NotPastKids(d, p, m, t, path, r, i);
    }
  }

  /** A walk records nothing at its own root, and nothing where there is no value. */
  lemma NotItself(d: Detectors, p: Pass, m: Mode, t: Tree, path: seq<nat>, r: Record)
    ensures r in Records(d, p, m, t, path) ==> r.path != path
  {
    if r in Records(d, p, m, t, path) {
      RecordsBelow(d, p, m, t, path, r);
      var j: nat :| path + [j] <= r.path;
      assert |r.path| > |path|;
    }
  }

  lemma NotPastKids(d: Detectors, p: Pass, m: Mode, t: Tree, path: seq<nat>, r: Record, i: nat)
    requires path + [i] <= r.path && |Kids(t)| <= i
    ensures r !in Records(d, p, m, t, path)
  {
    forall j: nat | j < |Kids(t)| && path + [j] <= r.path ensures j == i {
      assert r.path[|path|] == (path + [i])[|path|] == (path + [j])[|path|];
    }
    if r in Records(d, p, m, t, path) { RecordsBelow(d, p, m, t, path, r); }
  }

  // ---- the detectors, string by string ---------------------------------------------------------

  predicate FoundAt(fs: seq<Finding>, q: seq<nat>) {
    exists f :: f in fs && f.path == q
  }

  /** The pattern pass flags what a pattern matches or what looks like entropy. */
  predicate PatternFound(d: Detectors, s: string) {
    d.patterns(s) != [] || HighEntropy(d, s)
  }

  lemma {:induction false} PatternAt(d: Detectors, m: Mode, t: Tree, q: seq<nat>)
    ensures FlagAt(d, PatternPass, m, t, q) ==
      if q != [] && TextAt(t, q).Some? then PatternFlag(d, TextAt(t, q).value) else None
    decreases q
  {
    if q != [] && q[0] < |Kids(t)| {
      var kid := Kids(t)[q[0]];
      if |q| == 1 {
        assert q[1..] == [];
      } else {
        PatternAt(d, Below(m, t, q[0]), kid, q[1..]);
        assert kid.Text? ==> TextAt(kid, q[1..]).None?;
      }
    }
  }

  /** The key of the string at `q`, when it says the string is a credential. */
  function KeyHit(t: Tree, q: seq<nat>): Option<string>
    decreases q
  {
    if q == [] || q[0] >= |Kids(t)| then None
    else if |q| > 1 then KeyHit(Kids(t)[q[0]], q[1..])
    else if KeyOf(t, q[0]).Some? && Suspicious(KeyOf(t, q[0]).value) && Kids(t)[q[0]].Text?
      && Strip(Kids(t)[q[0]].s) != "" then KeyOf(t, q[0])
    else None
  }

  lemma {:induction false} KeyAtFlag(d: Detectors, m: Mode, t: Tree, q: seq<nat>)
    ensures FlagAt(d, KeyPass, m, t, q) ==
      if KeyHit(t, q).Some? && TextAt(t, q) != Some(PLACEHOLDER) then Some(KeyName(KeyHit(t, q).value)) else None
    ensures KeyHit(t, q).Some? ==> TextAt(t, q).Some?
    decreases q
  {
    if q != [] && q[0] < |Kids(t)| {
      if |q| == 1 {
        assert q[1..] == [];
      } else {
        KeyAtFlag(d, Below(m, t, q[0]), Kids(t)[q[0]], q[1..]);
      }
    }
  }

  lemma {:induction false} SuspiciousStarts(t: Tree, path: seq<nat>, f: Finding)
    requires f in FindSuspicious(t, path)
    ensures exists i: nat :: i < |Kids(t)| && f in SuspiciousIn(t, path)[i] && path + [i] <= f.path
    decreases t
  {
    InFlat(SuspiciousIn(t, path), f);
    var i: nat :| i < |Kids(t)| && f in SuspiciousIn(t, path)[i];
    if f in FindSuspicious(Kids(t)[i], path + [i]) {
      SuspiciousStarts(Kids(t)[i], path + [i], f);
      var j: nat :| path + [i] + [j] <= f.path;
      assert path + [i] <= path + [i] + [j];
    }
  }

  lemma Further(path: seq<nat>, q: seq<nat>, w: seq<nat>)
    requires q != [] && w == path + q
    ensures w == path + [q[0]] + q[1..] && path + [q[0]] <= w && w[|path|] == q[0]
    ensures forall i: nat :: path + [i] <= w ==> i == q[0]
    ensures |q| == 1 <==> w == path + [q[0]]
  {
    assert w[..|path| + 1] == path + [q[0]];
    forall i: nat | path + [i] <= w ensures i == q[0] {
      assert (path + [i])[|path|] == w[|path|];
    }
  }

  lemma SuspiciousInKid(t: Tree, path: seq<nat>, q: seq<nat>, w: seq<nat>)
    requires q != [] && w == path + q
    ensures FoundAt(FindSuspicious(t, path), w) <==> q[0] < |Kids(t)| && FoundAt(SuspiciousIn(t, path)[q[0]], w)
  {
    Further(path, q, w);
    if FoundAt(FindSuspicious(t, path), w) {
      var f :| f in FindSuspicious(t, path) && f.path == w;
      SuspiciousStarts(t, path, f);
    }
    if q[0] < |Kids(t)| && FoundAt(SuspiciousIn(t, path)[q[0]], w) {
      var f :| f in SuspiciousIn(t, path)[q[0]] && f.path == w;
      InFlat(SuspiciousIn(t, path), f);
    }
  }

  lemma NoneAtRoot(t: Tree, path: seq<nat>)
    ensures !FoundAt(FindSuspicious(t, path), path)
  {
    forall f | f in FindSuspicious(t, path) ensures f.path != path {
      SuspiciousStarts(t, path, f);
      var i: nat :| path + [i] <= f.path;
      assert |f.path| > |path|;
    }
  }

  lemma OwnSuspicious(t: Tree, path: seq<nat>, q: seq<nat>, w: seq<nat>) returns (own: seq<Finding>)
    requires q != [] && w == path + q && q[0] < |Kids(t)|
    ensures SuspiciousIn(t, path)[q[0]] == own + FindSuspicious(Kids(t)[q[0]], path + [q[0]])
    ensures FoundAt(own, w) <==> |q| == 1 && KeyHit(t, q).Some?
  {
    var i, kid := q[0], Kids(t)[q[0]];
    Further(path, q, w);
    own := if KeyOf(t, i).Some? && Suspicious(KeyOf(t, i).value) && kid.Text? && Strip(kid.s) != ""
      then [Finding(path + [i], kid.s)] else [];
    if own != [] { assert own[0] in own; }
  }

  lemma SuspiciousStep(t: Tree, path: seq<nat>, q: seq<nat>, w: seq<nat>)
    requires q != [] && w == path + q && q[0] < |Kids(t)|
    ensures FoundAt(FindSuspicious(t, path), w) <==>
      (|q| == 1 && KeyHit(t, q).Some?) || FoundAt(FindSuspicious(Kids(t)[q[0]], path + [q[0]]), w)
  {
    SuspiciousInKid(t, path, q, w);
    var own := OwnSuspicious(t, path, q, w);
    FoundInEither(own, FindSuspicious(Kids(t)[q[0]], path + [q[0]]), w);
  }

  /** find_suspicious_plaintext_values finds the strings whose keys say so. */
  lemma {:induction false} SuspiciousAre(t: Tree, path: seq<nat>, q: seq<nat>, w: seq<nat>)
    requires q != [] && w == path + q
    ensures FoundAt(FindSuspicious(t, path), w) <==> KeyHit(t, q).Some?
    decreases q
  {
    Further(path, q, w);
    if q[0] >= |Kids(t)| {
      SuspiciousInKid(t, path, q, w);
    } else {
      SuspiciousStep(t, path, q, w);
      if |q| == 1 {
        NoneAtRoot(Kids(t)[q[0]], w);
      } else {
        SuspiciousAre(Kids(t)[q[0]], path + [q[0]], q[1..], w);
      }
    }
  }

  lemma FoundInEither(a: seq<Finding>, b: seq<Finding>, q: seq<nat>)
    ensures FoundAt(a + b, q) <==> FoundAt(a, q) || FoundAt(b, q)
  {
    assert forall f :: f in a + b <==> f in a || f in b;
  }

  /** The name of the env entry whose value is at `q`, when it says the value is a credential. */
  function EnvHit(t: Tree, q: seq<nat>): Option<string>
    decreases q
  {
    if q == [] || q[0] >= |Kids(t)| then None
    else if EnvHere(t, q).Some? then EnvHere(t, q)
    else EnvHit(Kids(t)[q[0]], q[1..])
  }

  /** The same where the env list is a value of `t` itself. */
  function EnvHere(t: Tree, q: seq<nat>): Option<string> {
    if InEnvList(t, q) then EntryHit(Kids(Kids(t)[q[0]])[q[1]], q[2]) else None
  }

  predicate InEnvList(t: Tree, q: seq<nat>) {
    |q| == 3 && q[0] < |Kids(t)| && IsEnv(KeyOf(t, q[0]), Kids(t)[q[0]]) && q[1] < |Kids(Kids(t)[q[0]])|
  }

  function EntryHit(item: Tree, j: nat): Option<string> {
    if EnvName(item).Some? && j == Position(item.entries, "value") then EnvName(item) else None
  }

  lemma EntryFlagIs(d: Detectors, item: Tree, j: nat)
    requires j < |Kids(item)|
    ensures Flag(d, EnvPass, EnvEntry, item, j) ==
      if EntryHit(item, j).Some? && Kids(item)[j] != Tree.Text(PLACEHOLDER) then
        Some(EnvVar(EntryHit(item, j).value))
      else None
    ensures EntryHit(item, j).Some? ==> Kids(item)[j].Text?
  {
    if EntryHit(item, j).Some? { assert Kids(item)[j] == item.entries[j].val == Get(item, "value"); }
  }

  /** An env value hit is two steps below an env list, so nothing in a string, or at one step. */
  lemma NoShortHit(t: Tree, q: seq<nat>)
    ensures |q| < 3 ==> EnvHit(t, q).None?
    ensures t.Text? ==> EnvHit(t, q).None?
    decreases q
  {
    if q != [] && q[0] < |Kids(t)| { NoShortHit(Kids(t)[q[0]], q[1..]); }
  }

  /** Past its own strings an env entry is walked like anything else. */
  lemma EntryAt(d: Detectors, item: Tree, q: seq<nat>)
    requires q != [] && q[0] < |Kids(item)|
    ensures FlagAt(d, EnvPass, EnvEntry, item, q) ==
      if |q| == 1 then Flag(d, EnvPass, EnvEntry, item, q[0]) else FlagAt(d, EnvPass, Elsewhere, item, q)
  {
    if |q| > 1 && Flag(d, EnvPass, EnvEntry, item, q[0]).Some? {
      assert Kids(Kids(item)[q[0]]) == [];
    }
  }

  lemma ListAt(d: Detectors, list: Tree, q: seq<nat>)
    requires LooksLikeEnv(list) && q != []
    ensures FlagAt(d, EnvPass, EnvList, list, q) ==
      if |q| == 2 && q[0] < |Kids(list)| && q[1] < |Kids(Kids(list)[q[0]])|
      then Flag(d, EnvPass, EnvEntry, Kids(list)[q[0]], q[1]) else FlagAt(d, EnvPass, Elsewhere, list, q)
  {
    if |q| > 1 && q[0] < |Kids(list)| && q[1] < |Kids(Kids(list)[q[0]])| {
      EntryAt(d, Kids(list)[q[0]], q[1..]);
    }
  }

  lemma {:induction false} EnvAt(d: Detectors, t: Tree, q: seq<nat>)
    ensures FlagAt(d, EnvPass, Elsewhere, t, q) ==
      if EnvHit(t, q).Some? && TextAt(t, q) != Some(PLACEHOLDER) then Some(EnvVar(EnvHit(t, q).value)) else None
    ensures EnvHit(t, q).Some? ==> TextAt(t, q).Some?
    decreases q
  {
    NoShortHit(t, q);
    if |q| > 1 && q[0] < |Kids(t)| {
      var kid, more := Kids(t)[q[0]], q[1..];
      EnvAt(d, kid, more);
      NoShortHit(kid, more);
      if IsEnv(KeyOf(t, q[0]), kid) {
        ListAt(d, kid, more);
        if |q| == 3 && q[1] < |Kids(kid)| { EnvValueAt(d, kid, more); }
      }
    }
  }

  lemma EnvValueAt(d: Detectors, list: Tree, q: seq<nat>)
    requires |q| == 2 && q[0] < |Kids(list)|
    ensures var item := Kids(list)[q[0]];
      EntryHit(item, q[1]).Some? ==> q[1] < |Kids(item)| && TextAt(list, q).Some?
    ensures var item := Kids(list)[q[0]];
      var flag := if EntryHit(item, q[1]).Some? && TextAt(list, q) != Some(PLACEHOLDER)
        then Some(EnvVar(EntryHit(item, q[1]).value)) else None;
      q[1] < |Kids(item)| ==> Flag(d, EnvPass, EnvEntry, item, q[1]) == flag
  {
    var item := Kids(list)[q[0]];
    assert q[1..][1..] == [];
    if q[1] < |Kids(item)| {
      EntryFlagIs(d, item, q[1]);
      assert TextAt(list, q) == TextAt(item, q[1..]) == TextAt(Kids(item)[q[1]], []);
    }
  }

  lemma {:induction false} EnvStarts(t: Tree, path: seq<nat>, f: Finding)
    requires f in FindEnv(t, path)
    ensures exists i: nat :: i < |Kids(t)| && f in EnvIn(t, path)[i] && path + [i] <= f.path
    decreases t
  {
    InFlat(EnvIn(t, path), f);
    var i: nat :| i < |Kids(t)| && f in EnvIn(t, path)[i];
    var kid, at := Kids(t)[i], path + [i];
    if f in FindEnv(kid, at) {
      EnvStarts(kid, at, f);
      var j: nat :| at + [j] <= f.path;
      assert at <= at + [j];
    } else {
      var j, k := EntryStarts(kid, at, f);
      assert at <= at + [j] + [k];
    }
  }

  lemma EntryStarts(list: Tree, path: seq<nat>, f: Finding) returns (j: nat, k: nat)
    requires f in Flat(EntryFindings(list, path))
    ensures j < |Kids(list)| && EntryHit(Kids(list)[j], k).Some? && f.path == path + [j] + [k]
  {
    InFlat(EntryFindings(list, path), f);
    j :| 0 <= j < |Kids(list)| && f in EntryFindings(list, path)[j];
    k := Position(Kids(list)[j].entries, "value");
  }

  lemma EntryFindingsAre(list: Tree, path: seq<nat>, q: seq<nat>, w: seq<nat>)
    requires w == path + q
    ensures FoundAt(Flat(EntryFindings(list, path)), w) <==>
      |q| == 2 && q[0] < |Kids(list)| && EntryHit(Kids(list)[q[0]], q[1]).Some?
  {
    if FoundAt(Flat(EntryFindings(list, path)), w) {
      var f :| f in Flat(EntryFindings(list, path)) && f.path == w;
      var j, k := EntryStarts(list, path, f);
      TwoSteps(path, q, j, k);
    }
    if |q| == 2 && q[0] < |Kids(list)| && EntryHit(Kids(list)[q[0]], q[1]).Some? {
      TwoSteps(path, q, q[0], q[1]);
      EntryIsFound(list, path, q[0], q[1]);
    }
  }

  lemma TwoSteps(path: seq<nat>, q: seq<nat>, j: nat, k: nat)
    ensures path + q == path + [j] + [k] <==> q == [j, k]
  {
    if path + q == path + [j] + [k] {
      assert (path + q)[|path|..] == q && (path + [j] + [k])[|path|..] == [j, k];
    }
  }

  lemma EntryIsFound(list: Tree, path: seq<nat>, j: nat, k: nat)
    requires j < |Kids(list)| && EntryHit(Kids(list)[j], k).Some?
    ensures FoundAt(Flat(EntryFindings(list, path)), path + [j] + [k])
  {
    var fs := EntryFindings(list, path);
    var f := fs[j][0];
    assert f in fs[j];
    InFlat(fs, f);
  }

  lemma EnvInKid(t: Tree, path: seq<nat>, q: seq<nat>, w: seq<nat>)
    requires q != [] && w == path + q
    ensures FoundAt(FindEnv(t, path), w) <==> q[0] < |Kids(t)| && FoundAt(EnvIn(t, path)[q[0]], w)
  {
    Further(path, q, w);
    if FoundAt(FindEnv(t, path), w) {
      var f :| f in FindEnv(t, path) && f.path == w;
      EnvStarts(t, path, f);
    }
    if q[0] < |Kids(t)| && FoundAt(EnvIn(t, path)[q[0]], w) {
      var f :| f in EnvIn(t, path)[q[0]] && f.path == w;
      InFlat(EnvIn(t, path), f);
    }
  }

  lemma NoEnvAtRoot(t: Tree, path: seq<nat>)
    ensures !FoundAt(FindEnv(t, path), path)
  {
    forall f | f in FindEnv(t, path) ensures f.path != path {
      EnvStarts(t, path, f);
      var i: nat :| path + [i] <= f.path;
      assert |f.path| > |path|;
    }
  }

  lemma EnvStep(t: Tree, path: seq<nat>, q: seq<nat>, w: seq<nat>)
    requires q != [] && w == path + q && q[0] < |Kids(t)|
    ensures FoundAt(FindEnv(t, path), w) <==>
      EnvHere(t, q).Some? || FoundAt(FindEnv(Kids(t)[q[0]], path + [q[0]]), w)
  {
    EnvInKid(t, path, q, w);
    var own := OwnEnv(t, path, q, w);
    FoundInEither(own, FindEnv(Kids(t)[q[0]], path + [q[0]]), w);
  }

  lemma OwnEnv(t: Tree, path: seq<nat>, q: seq<nat>, w: seq<nat>) returns (own: seq<Finding>)
    requires q != [] && w == path + q && q[0] < |Kids(t)|
    ensures EnvIn(t, path)[q[0]] == own + FindEnv(Kids(t)[q[0]], path + [q[0]])
    ensures FoundAt(own, w) <==> EnvHere(t, q).Some?
  {
    var kid, at := Kids(t)[q[0]], path + [q[0]];
    Further(path, q, w);
    if IsEnv(KeyOf(t, q[0]), kid) {
      own := Flat(EntryFindings(kid, at));
      EntryFindingsAre(kid, at, q[1..], w);
    } else {
      own := [];
    }
  }

  /** find_env_var_credentials finds the values whose entries' names say so. */
  lemma {:induction false} EnvAre(t: Tree, path: seq<nat>, q: seq<nat>, w: seq<nat>)
    requires w == path + q
    ensures FoundAt(FindEnv(t, path), w) <==> EnvHit(t, q).Some?
    decreases q
  {
    if q == [] {
      NoEnvAtRoot(t, path);
    } else {
      Further(path, q, w);
      if q[0] >= |Kids(t)| {
        EnvInKid(t, path, q, w);
      } else {
        EnvStep(t, path, q, w);
        EnvAre(Kids(t)[q[0]], path + [q[0]], q[1..], w);
      }
    }
  }

  // ---- what the earlier passes change for the later ones ------------------------------------------

  /** Where the name of the env entry is whose value is at `q`. */
  function NamePath(t: Tree, q: seq<nat>): seq<nat>
    decreases q
  {
    if |q| <= 1 then (if t.Dict? then [Position(t.entries, "name")] else [])
    else if q[0] < |Kids(t)| then [q[0]] + NamePath(Kids(t)[q[0]], q[1..])
    else []
  }

  lemma EntryName(item: Tree, j: nat)
    requires EntryHit(item, j).Some?
    ensures NamePath(item, [j]) == [Position(item.entries, "name")]
    ensures TextAt(item, NamePath(item, [j])) == EntryHit(item, j)
  {
    var k := Position(item.entries, "name");
    assert Kids(item)[k] == item.entries[k].val == Get(item, "name");
    assert [k][1..] == [];
  }

  lemma {:induction false} HitName(t: Tree, q: seq<nat>)
    requires EnvHit(t, q).Some?
    ensures NamePath(t, q) != [] && TextAt(t, NamePath(t, q)) == EnvHit(t, q)
    decreases q
  {
    var kid := Kids(t)[q[0]];
    NoShortHit(t, q);
    StepDown(t, q[0], NamePath(kid, q[1..]));
    if EnvHere(t, q).Some? {
      assert q[1..][1..] == [q[2]];
      EntryName(Kids(kid)[q[1]], q[2]);
      StepDown(kid, q[1], NamePath(Kids(kid)[q[1]], [q[2]]));
    } else {
      HitName(kid, q[1..]);
    }
  }

  lemma StepDown(t: Tree, i: nat, q: seq<nat>)
    requires i < |Kids(t)|
    ensures TextAt(t, [i] + q) == TextAt(Kids(t)[i], q)
  {
    assert ([i] + q)[1..] == q;
  }

  lemma EntryHitPut(item: Tree, path: seq<nat>, ps: set<seq<nat>>, j: nat)
    requires path + [j] !in ps
    ensures EntryHit(Put(item, path, ps), j) ==
      if EntryHit(item, j).Some? && path + NamePath(item, [j]) !in ps then EntryHit(item, j) else None
  {
    PutKids(item, path, ps);
    if item.Dict? {
      var n := path + [Position(item.entries, "name")];
      PutKeepsNames(item, path, ps, "name");
      PutKeepsNames(item, path, ps, "value");
      if HasKey(item, "name") {
        PutText(Get(item, "name"), n, ps);
      }
      if HasKey(item, "value") && j == Position(item.entries, "value") {
        PutText(Get(item, "value"), path + [j], ps);
      }
      PlaceholderIsHarmless(Detectors(s => [], s => false));
    }
  }

  lemma PutText(t: Tree, path: seq<nat>, ps: set<seq<nat>>)
    ensures Put(t, path, ps).Text? <==> t.Text?
    ensures t.Text? ==> Put(t, path, ps) == if path in ps then Tree.Text(PLACEHOLDER) else t
  {
    PutKids(t, path, ps);
  }

  lemma InEnvListPut(t: Tree, path: seq<nat>, ps: set<seq<nat>>, q: seq<nat>)
    ensures InEnvList(Put(t, path, ps), q) <==> InEnvList(t, q)
    ensures InEnvList(t, q) ==>
      Kids(Kids(Put(t, path, ps))[q[0]])[q[1]] == Put(Kids(Kids(t)[q[0]])[q[1]], path + [q[0]] + [q[1]], ps)
  {
    PutKids(t, path, ps);
    if |q| == 3 && q[0] < |Kids(t)| {
      PutLooksLikeEnv(Kids(t)[q[0]], path + [q[0]], ps);
      PutKids(Kids(t)[q[0]], path + [q[0]], ps);
    }
  }

  lemma EnvHerePut(t: Tree, path: seq<nat>, ps: set<seq<nat>>, q: seq<nat>)
    requires path + q !in ps
    ensures EnvHere(Put(t, path, ps), q) ==
      if EnvHere(t, q).Some? && path + NamePath(t, q) !in ps then EnvHere(t, q) else None
  {
    InEnvListPut(t, path, ps, q);
    if InEnvList(t, q) {
      NamePathHere(t, path, q);
      EntryThere(Kids(Kids(t)[q[0]])[q[1]], path, q, ps);
    }
  }

  lemma EntryThere(item: Tree, path: seq<nat>, q: seq<nat>, ps: set<seq<nat>>)
    requires |q| == 3 && path + q !in ps
    ensures var here := path + [q[0]] + [q[1]];
      EntryHit(Put(item, here, ps), q[2]) ==
        if EntryHit(item, q[2]).Some? && here + NamePath(item, [q[2]]) !in ps then EntryHit(item, q[2]) else None
  {
    var here := path + [q[0]] + [q[1]];
    assert path + q == here + [q[2]];
    EntryHitPut(item, here, ps, q[2]);
  }

  lemma NamePathHere(t: Tree, path: seq<nat>, q: seq<nat>)
    requires |q| == 3 && q[0] < |Kids(t)| && q[1] < |Kids(Kids(t)[q[0]])|
    ensures path + NamePath(t, q) == path + [q[0]] + [q[1]] + NamePath(Kids(Kids(t)[q[0]])[q[1]], [q[2]])
  {
    assert q[1..][1..] == [q[2]];
  }

  ghost predicate HitSurvives(t: Tree, path: seq<nat>, ps: set<seq<nat>>, q: seq<nat>) {
    EnvHit(Put(t, path, ps), q) ==
      if EnvHit(t, q).Some? && path + NamePath(t, q) !in ps then EnvHit(t, q) else None
  }

  /** Of a hit here and a hit further in, the first there is: kept or lost together. */
  lemma EitherSurvives(here: Option<string>, further: Option<string>, here': Option<string>, further': Option<string>,
                       kept: bool)
    requires here' == (if here.Some? && kept then here else None)
    requires further' == (if further.Some? && kept then further else None)
    ensures var was, left := if here.Some? then here else further, if here'.Some? then here' else further';
      left == if was.Some? && kept then was else None
  {
  }

  lemma NamePathOnward(t: Tree, path: seq<nat>, q: seq<nat>)
    requires |q| >= 3 && q[0] < |Kids(t)|
    ensures path + NamePath(t, q) == path + [q[0]] + NamePath(Kids(t)[q[0]], q[1..])
  {
  }

  lemma OnwardSurvives(t: Tree, path: seq<nat>, ps: set<seq<nat>>, q: seq<nat>)
    requires |q| >= 3 && q[0] < |Kids(t)| && path + q !in ps
    requires HitSurvives(Kids(t)[q[0]], path + [q[0]], ps, q[1..])
    ensures HitSurvives(t, path, ps, q)
  {
    var kid, at, u := Kids(t)[q[0]], path + [q[0]], Put(t, path, ps);
    PutKids(t, path, ps);
    NamePathOnward(t, path, q);
    EnvHerePut(t, path, ps, q);
    var kept := path + NamePath(t, q) !in ps;
    EitherSurvives(EnvHere(t, q), EnvHit(kid, q[1..]), EnvHere(u, q), EnvHit(Put(kid, at, ps), q[1..]), kept);
  }

  lemma {:induction false} EnvHitPut(t: Tree, path: seq<nat>, ps: set<seq<nat>>, q: seq<nat>)
    requires path + q !in ps
    ensures HitSurvives(t, path, ps, q)
    decreases q
  {
    PutKids(t, path, ps);
    NoShortHit(t, q);
    NoShortHit(Put(t, path, ps), q);
    if |q| >= 3 && q[0] < |Kids(t)| {
      assert path + q == path + [q[0]] + q[1..];
      EnvHitPut(Kids(t)[q[0]], path + [q[0]], ps, q[1..]);
      OnwardSurvives(t, path, ps, q);
    }
  }

  lemma {:induction false} KeyHitPut(t: Tree, path: seq<nat>, ps: set<seq<nat>>, q: seq<nat>)
    requires path + q !in ps
    ensures KeyHit(Put(t, path, ps), q) == KeyHit(t, q)
    decreases q
  {
    PutKids(t, path, ps);
    if q != [] && q[0] < |Kids(t)| {
      var kid, at := Kids(t)[q[0]], path + [q[0]];
      assert path + q == at + q[1..];
      if |q| == 1 {
        assert q[1..] == [] && at + [] == at;
        PutText(kid, at, ps);
      } else {
        KeyHitPut(kid, at, ps, q[1..]);
      }
    }
  }

  // ---- redact_credentials, exactly -----------------------------------------------------------------

  /** The key the string at `q` is held under. */
  function KeyAt(t: Tree, q: seq<nat>): Option<string>
    decreases q
  {
    if q == [] || q[0] >= |Kids(t)| then None
    else if |q| == 1 then KeyOf(t, q[0])
    else KeyAt(Kids(t)[q[0]], q[1..])
  }

  lemma {:induction false} HitKey(t: Tree, q: seq<nat>)
    ensures KeyHit(t, q).Some? ==> KeyHit(t, q) == KeyAt(t, q)
    decreases q
  {
    if q != [] && q[0] < |Kids(t)| && |q| > 1 { HitKey(Kids(t)[q[0]], q[1..]); }
  }

  /** The name beside an env value is not itself a credential, so the pattern pass leaves it there. */
  predicate NameIsKept(d: Detectors, t: Tree, q: seq<nat>) {
    TextAt(t, NamePath(t, q)).Some? && !PatternFound(d, TextAt(t, NamePath(t, q)).value)
  }

  /** Why the string at `q` of the document as it was is redacted, if it is. */
  function ReasonFor(d: Detectors, t: Tree, q: seq<nat>): Option<Reason> {
    if q == [] || TextAt(t, q).None? || TextAt(t, q) == Some(PLACEHOLDER) then None
    else
      var s := TextAt(t, q).value;
      if d.patterns(s) != [] then Some(Patterns(d.patterns(s)))
      else if HighEntropy(d, s) then Some(Entropy)
      else if FoundAt(FindEnv(t, []), q) && NameIsKept(d, t, q) then Some(EnvVar(TextAt(t, NamePath(t, q)).value))
      else if FoundAt(FindSuspicious(t, []), q) && KeyAt(t, q).Some? then Some(KeyName(KeyAt(t, q).value))
      else None
  }

  lemma PathsAre(d: Detectors, p: Pass, t: Tree, q: seq<nat>)
    ensures q in Paths(Records(d, p, Elsewhere, t, [])) <==> FlagAt(d, p, Elsewhere, t, q).Some?
  {
    var rs := Records(d, p, Elsewhere, t, []);
    assert [] + q == q;
    if q in Paths(rs) {
      var r :| r in rs && r.path == q;
      NotItself(d, p, Elsewhere, t, [], r);
      RecordsAre(d, p, Elsewhere, t, [], q, r.reason);
      assert r == Record([] + q, r.reason);
    }
    if FlagAt(d, p, Elsewhere, t, q).Some? {
      RecordsAre(d, p, Elsewhere, t, [], q, FlagAt(d, p, Elsewhere, t, q).value);
    }
  }

  lemma PatternPaths(d: Detectors, t: Tree, q: seq<nat>)
    ensures q in Paths(Records(d, PatternPass, Elsewhere, t, [])) <==>
      q != [] && TextAt(t, q).Some? && PatternFound(d, TextAt(t, q).value)
  {
    PathsAre(d, PatternPass, t, q);
    PatternAt(d, Elsewhere, t, q);
  }

  /** The env pass's flag on what the pattern pass left. */
  lemma EnvFlagIs(d: Detectors, t: Tree, q: seq<nat>)
    requires DetectorsOk(d)
    ensures FlagAt(d, EnvPass, Elsewhere, AfterPatterns(d, t), q) ==
      if q !in Paths(Records(d, PatternPass, Elsewhere, t, [])) && TextAt(t, q) != Some(PLACEHOLDER)
        && FoundAt(FindEnv(t, []), q) && NameIsKept(d, t, q)
      then Some(EnvVar(TextAt(t, NamePath(t, q)).value)) else None
  {
    var ps, u := Paths(Records(d, PatternPass, Elsewhere, t, [])), AfterPatterns(d, t);
    WalkedIsPut(d, PatternPass, Elsewhere, t, []);
    assert u == Put(t, [], ps);
    assert [] + q == q && [] + NamePath(t, q) == NamePath(t, q);
    EnvAt(d, u, q);
    TextAtPut(t, [], ps, q);
    EnvAre(t, [], q, q);
    if q !in ps {
      EnvHitPut(t, [], ps, q);
      PatternPaths(d, t, NamePath(t, q));
      if EnvHit(t, q).Some? { HitName(t, q); }
    } else {
      PatternPaths(d, t, q);
    }
  }

  lemma AfterEnvIs(d: Detectors, t: Tree)
    ensures AfterEnv(d, t) == Put(t, [], Paths(Records(d, PatternPass, Elsewhere, t, []))
      + Paths(Records(d, EnvPass, Elsewhere, AfterPatterns(d, t), [])))
  {
    var u := AfterPatterns(d, t);
    WalkedIsPut(d, PatternPass, Elsewhere, t, []);
    WalkedIsPut(d, EnvPass, Elsewhere, u, []);
    PutPut(t, [], Paths(Records(d, PatternPass, Elsewhere, t, [])), Paths(Records(d, EnvPass, Elsewhere, u, [])));
  }

  /** The key pass's flag on what the other two left. */
  lemma KeyFlagIs(d: Detectors, t: Tree, q: seq<nat>)
    requires DetectorsOk(d)
    ensures var ps := Paths(Records(d, PatternPass, Elsewhere, t, []))
        + Paths(Records(d, EnvPass, Elsewhere, AfterPatterns(d, t), []));
      FlagAt(d, KeyPass, Elsewhere, AfterEnv(d, t), q) ==
      if q !in ps && TextAt(t, q) != Some(PLACEHOLDER) && FoundAt(FindSuspicious(t, []), q) && KeyAt(t, q).Some?
      then Some(KeyName(KeyAt(t, q).value)) else None
  {
    var ps := Paths(Records(d, PatternPass, Elsewhere, t, []))
      + Paths(Records(d, EnvPass, Elsewhere, AfterPatterns(d, t), []));
    AfterEnvIs(d, t);
    assert [] + q == q;
    KeyAtFlag(d, Elsewhere, AfterEnv(d, t), q);
    TextAtPut(t, [], ps, q);
    HitKey(t, q);
    if q == [] {
      NoneAtRoot(t, []);
    } else {
      SuspiciousAre(t, [], q, q);
      if q !in ps {
        KeyHitPut(t, [], ps, q);
      } else {
        PathIsText(d, t, q);
      }
    }
  }

  lemma PathIsText(d: Detectors, t: Tree, q: seq<nat>)
    requires DetectorsOk(d)
    ensures q in Paths(Records(d, PatternPass, Elsewhere, t, [])) ==> TextAt(t, q).Some?
    ensures q in Paths(Records(d, EnvPass, Elsewhere, AfterPatterns(d, t), [])) ==> TextAt(t, q).Some?
  {
    PatternPaths(d, t, q);
    PathsAre(d, EnvPass, AfterPatterns(d, t), q);
    EnvAt(d, AfterPatterns(d, t), q);
    WalkedIsPut(d, PatternPass, Elsewhere, t, []);
    TextAtPut(t, [], Paths(Records(d, PatternPass, Elsewhere, t, [])), q);
  }

  /** A string is recorded with a reason exactly when the detectors, run on the document as it was, give
      that reason: a pattern that matches it, entropy, an env entry's name, or its key. */
  lemma RecordedExactly(d: Detectors, t: Tree, q: seq<nat>, why: Reason)
    requires DetectorsOk(d)
    ensures Record(q, why) in AllRecords(d, t) <==> ReasonFor(d, t, q) == Some(why)
  {
    var u, v, r := AfterPatterns(d, t), AfterEnv(d, t), Record(q, why);
    assert [] + q == q;
    if q == [] {
      NotItself(d, PatternPass, Elsewhere, t, [], r);
      NotItself(d, EnvPass, Elsewhere, u, [], r);
      NotItself(d, KeyPass, Elsewhere, v, [], r);
    } else {
      RecordsAre(d, PatternPass, Elsewhere, t, [], q, why);
      RecordsAre(d, EnvPass, Elsewhere, u, [], q, why);
      RecordsAre(d, KeyPass, Elsewhere, v, [], q, why);
      FlagsAre(d, t, q);
    }
  }

  lemma FlagsAre(d: Detectors, t: Tree, q: seq<nat>)
    requires DetectorsOk(d) && q != []
    ensures var a := FlagAt(d, PatternPass, Elsewhere, t, q);
      var b := FlagAt(d, EnvPass, Elsewhere, AfterPatterns(d, t), q);
      var c := FlagAt(d, KeyPass, Elsewhere, AfterEnv(d, t), q);
      && ReasonFor(d, t, q) == (if a.Some? then a else if b.Some? then b else c)
      && (a.Some? ==> b.None? && c.None?) && (b.Some? ==> c.None?)
  {
    PatternPaths(d, t, q);
    PatternAt(d, Elsewhere, t, q);
    PathsAre(d, PatternPass, t, q);
    PathsAre(d, EnvPass, AfterPatterns(d, t), q);
    EnvFlagIs(d, t, q);
    KeyFlagIs(d, t, q);
    PlaceholderIsHarmless(d);
    FoundIsText(t, q);
  }

  lemma FoundIsText(t: Tree, q: seq<nat>)
    requires q != []
    ensures (FoundAt(FindEnv(t, []), q) || FoundAt(FindSuspicious(t, []), q)) ==> TextAt(t, q).Some?
  {
    assert [] + q == q;
    EnvAre(t, [], q, q);
    SuspiciousAre(t, [], q, q);
    var none := Detectors(s => [], s => false);
    EnvAt(none, t, q);
    KeyAtFlag(none, Elsewhere, t, q);
  }

  /** A string of the document changes exactly when a pattern matches it, it looks like entropy, or the
      key-name or the env-var detector finds it in the document as it was: the last only while the
      entry's name isn't itself redacted first. */
  lemma RedactedExactly(d: Detectors, t: Tree, q: seq<nat>)
    requires DetectorsOk(d)
    ensures TextAt(Redacted(d, t), q) != TextAt(t, q) <==>
      && q != [] && TextAt(t, q).Some? && TextAt(t, q).value != PLACEHOLDER
      && (PatternFound(d, TextAt(t, q).value) || FoundAt(FindSuspicious(t, []), q)
          || (FoundAt(FindEnv(t, []), q) && NameIsKept(d, t, q)))
  {
    StringsAfter(d, t, q);
    RecordedWhenReason(d, t, q);
    if q != [] { SuspiciousHasKey(t, q); }
  }

  lemma SuspiciousHasKey(t: Tree, q: seq<nat>)
    requires q != []
    ensures FoundAt(FindSuspicious(t, []), q) ==> KeyAt(t, q).Some?
  {
    assert [] + q == q;
    SuspiciousAre(t, [], q, q);
    HitKey(t, q);
  }

  lemma RecordedWhenReason(d: Detectors, t: Tree, q: seq<nat>)
    requires DetectorsOk(d)
    ensures q in Paths(AllRecords(d, t)) <==> ReasonFor(d, t, q).Some?
    ensures q in Paths(AllRecords(d, t)) ==> TextAt(t, q).Some? && TextAt(t, q).value != PLACEHOLDER
  {
    if q in Paths(AllRecords(d, t)) {
      var r :| r in AllRecords(d, t) && r.path == q;
      RecordedExactly(d, t, q, r.reason);
      assert r == Record(q, r.reason);
    }
    if ReasonFor(d, t, q).Some? {
      RecordedExactly(d, t, q, ReasonFor(d, t, q).value);
      assert Record(q, ReasonFor(d, t, q).value) in AllRecords(d, t);
    }
  }

  /** The exception, on an input: the name of an env entry is itself a credential, so the value beside it,
      which the detector finds in the document as it was, is left. */
  lemma ValueBesideARedactedName(d: Detectors, name: string, value: string)
    requires DetectorsOk(d) && Suspicious(name) && d.patterns(name) != []
    requires d.patterns(value) == [] && !HighEntropy(d, value) && value != PLACEHOLDER
    requires Lower(Strip(value)) !in NOT_A_CREDENTIAL
    ensures var item := Dict([Entry("name", Tree.Text(name)), Entry("value", Tree.Text(value))]);
      var t := Dict([Entry("env", List([item]))]);
      FoundAt(FindEnv(t, []), [0, 0, 1]) && TextAt(Redacted(d, t), [0, 0, 1]) == TextAt(t, [0, 0, 1]) == Some(value)
  {
    var item := Dict([Entry("name", Tree.Text(name)), Entry("value", Tree.Text(value))]);
    var t, q := Dict([Entry("env", List([item]))]), [0, 0, 1];
    SampleIs(item, t, name, value);
    assert [] + q == q;
    EnvAre(t, [], q, q);
    SuspiciousAre(t, [], q, q);
    ValueIsNoWord();
    RedactedExactly(d, t, q);
  }

  predicate Sample(item: Tree, t: Tree, name: string, value: string) {
    && item == Dict([Entry("name", Tree.Text(name)), Entry("value", Tree.Text(value))])
    && t == Dict([Entry("env", List([item]))])
  }

  lemma SampleEntry(item: Tree, t: Tree, name: string, value: string)
    requires Sample(item, t, name, value) && Suspicious(name) && Lower(Strip(value)) !in NOT_A_CREDENTIAL
    ensures EntryHit(item, 1) == Some(name) && LooksLikeEnv(List([item])) && Position(item.entries, "name") == 0
    ensures Kids(item) == [Tree.Text(name), Tree.Text(value)]
  {
    assert Position(item.entries, "name") == 0;
    assert item.entries[1..][0] == item.entries[1];
    assert Position(item.entries, "value") == 1;
    assert HasKey(item, "name") && HasKey(item, "value");
  }

  lemma SampleTexts(item: Tree, t: Tree, name: string, value: string)
    requires Sample(item, t, name, value) && Kids(item) == [Tree.Text(name), Tree.Text(value)]
    requires Position(item.entries, "name") == 0
    ensures TextAt(t, [0, 0, 1]) == Some(value) && TextAt(t, [0, 0, 0]) == Some(name)
    ensures NamePath(t, [0, 0, 1]) == [0, 0, 0]
  {
    var list := List([item]);
    assert Kids(t) == [list];
    assert [0, 0, 1] == [0] + [0, 1] && [0, 1] == [0] + [1] && [1] == [1] + [];
    StepDown(t, 0, [0, 1]);
    StepDown(list, 0, [1]);
    StepDown(item, 1, []);
    assert [0, 0, 0] == [0] + [0, 0] && [0, 0] == [0] + [0] && [0] == [0] + [];
    StepDown(t, 0, [0, 0]);
    StepDown(list, 0, [0]);
    StepDown(item, 0, []);
    assert [0, 0, 1][1..] == [0, 1] && [0, 1][1..] == [1];
    assert NamePath(item, [1]) == [0] && NamePath(list, [0, 1]) == [0] + [0];
  }

  lemma SampleIs(item: Tree, t: Tree, name: string, value: string)
    requires Sample(item, t, name, value) && Suspicious(name) && Lower(Strip(value)) !in NOT_A_CREDENTIAL
    ensures TextAt(t, [0, 0, 1]) == Some(value) && NamePath(t, [0, 0, 1]) == [0, 0, 0]
    ensures TextAt(t, [0, 0, 0]) == Some(name) && EnvHit(t, [0, 0, 1]) == Some(name)
    ensures KeyHit(t, [0, 0, 1]).Some? ==> Suspicious("value")
  {
    var list := List([item]);
    SampleEntry(item, t, name, value);
    SampleTexts(item, t, name, value);
    assert Kids(t) == [list] && Kids(list) == [item] && KeyOf(t, 0) == Some("env");
    assert EnvHere(t, [0, 0, 1]) == Some(name);
    assert [0, 0, 1][1..] == [0, 1] && [0, 1][1..] == [1];
    assert KeyHit(t, [0, 0, 1]) == KeyHit(list, [0, 1]) == KeyHit(item, [1]);
  }

  lemma ValueIsNoWord()
    ensures !Suspicious("value")
  {
    var s := "value";
    assert Lower(s) == s;
    forall w, k | w in SUSPICIOUS_WORDS ensures !OccursAt(w, s, k) {
      OccursIn(w, s, k);
      WordsHave(w);
      WordChars(w);
    }
  }

  lemma OccursIn(w: string, s: string, k: int)
    ensures OccursAt(w, s, k) ==> forall c :: c in w ==> c in s
  {
    if OccursAt(w, s, k) {
      forall c | c in w ensures c in s {
        var i :| 0 <= i < |w| && w[i] == c;
        assert s[k..k + |w|][i] == s[k + i];
      }
    }
  }

  lemma WordChars(w: string)
    requires |w| >= 3
    ensures w[0] in w && w[1] in w && w[2] in w
  {
  }
}
