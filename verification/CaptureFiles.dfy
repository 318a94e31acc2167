/** What a capture run leaves in the files (scripts/k8s_backup/capture.py): each at the path its object
    says, with the content of an object that says so. */
module CaptureFiles {
  import opened CaptureRun
  import opened FileTracker
  import opened Ownership
  import opened Text
  import PS = PromotedSecrets

  // ---- one path through several writes ----------------------------------------------------------

  predicate SameAt(a: Files, b: Files, p: string) {
    (p in a <==> p in b) && (p in a ==> a[p] == b[p])
  }

  /** The path holds one of the contents said for it, or, when none is, what it held. */
  ghost predicate Rewritten(a: Files, b: Files, p: string, said: iset<string>) {
    if said != iset{} then p in b && b[p] in said else SameAt(a, b, p)
  }

  lemma RewrittenTwice(a: Files, b: Files, c: Files, p: string, first: iset<string>, second: iset<string>)
    requires Rewritten(a, b, p, first) && Rewritten(b, c, p, second)
    ensures Rewritten(a, c, p, first + second)
  {
    if second == iset{} {
      assert first + second == first;
    } else {
      var x :| x in second;
      assert x in first + second;
    }
  }

  ghost function SaidBy(fs: seq<File>, p: string): iset<string> {
    iset x | File(p, x) in fs
  }

  lemma {:induction false} WrittenHolds(s: Snapshot, fs: seq<File>, p: string)
    ensures Rewritten(s.files, Written(s, false, fs).files, p, SaidBy(fs, p))
  {
    if fs == [] {
      assert SaidBy(fs, p) == iset{};
    } else {
      var more, last := fs[..|fs| - 1], fs[|fs| - 1];
      WrittenHolds(s, more, p);
      assert fs == more + [last];
      assert SaidBy(fs, p) == SaidBy(more, p) + SaidBy([last], p);
      var m := Written(s, false, more);
      if last.path == p {
        assert File(p, last.content) in [last];
        assert last.content in SaidBy([last], p);
      } else {
        assert SaidBy([last], p) == iset{};
      }
      RewrittenTwice(s.files, m.files, Written(s, false, fs).files, p, SaidBy(more, p), SaidBy([last], p));
    }
  }

  // ---- cluster-scoped objects --------------------------------------------------------------------

  /** Where a cluster-scoped object goes: to the tracked folder, or, when it isn't the operator's own, to
      the one kept out of git. */
  function ClusterTarget(kind: string, i: ClusterItem): string {
    (if i.local then "kubernetes/.local/cluster/" else "kubernetes/cluster/") + kind + "/" + i.file + ".yaml"
  }

  ghost predicate ClusterSays(ks: seq<ClusterKind>, p: string, x: string) {
    exists k, i :: k in ks && k.listing.Listed? && i in k.listing.items && !i.skipped
      && i.content == x && p == ClusterTarget(k.kind, i)
  }

  ghost function ClusterSaid(ks: seq<ClusterKind>, p: string): iset<string> {
    iset x | ClusterSays(ks, p, x)
  }

  lemma ClusterFileIs(kind: string, i: ClusterItem)
    ensures ClusterFile(kind, i) == File(ClusterTarget(kind, i), i.content)
  {
    assert LOCAL + "cluster/" == "kubernetes/.local/cluster/";
    var dir := if i.local then "kubernetes/.local/cluster/" else "kubernetes/cluster/";
    assert dir + kind + "/" + (i.file + ".yaml") == dir + kind + "/" + i.file + ".yaml";
  }

  lemma {:induction false} ClusterFilesAre(kind: string, items: seq<ClusterItem>, f: File)
    ensures f in ClusterFiles(kind, items) <==>
      exists i :: i in items && !i.skipped && f == File(ClusterTarget(kind, i), i.content)
  {
    if items != [] {
      var more, last := items[..|items| - 1], items[|items| - 1];
      ClusterFilesAre(kind, more, f);
      ClusterFileIs(kind, last);
      assert forall i :: i in items <==> i in more || i == last;
    }
  }

  lemma OneKindSays(k: ClusterKind, p: string)
    ensures ClusterSaid([k], p) ==
      if k.listing.Listed? then SaidBy(ClusterFiles(k.kind, k.listing.items), p) else iset{}
  {
    if k.listing.Listed? {
      forall x ensures ClusterSays([k], p, x) <==> File(p, x) in ClusterFiles(k.kind, k.listing.items) {
        ClusterFilesAre(k.kind, k.listing.items, File(p, x));
        assert k in [k];
      }
    }
  }

  lemma LastKindHolds(m: Snapshot, before: set<string>, k: ClusterKind, p: string)
    ensures Rewritten(m.files, AfterClusterKind(m, before, false, k).files, p, ClusterSaid([k], p))
  {
    OneKindSays(k, p);
    if k.listing.Listed? { WrittenHolds(m, ClusterFiles(k.kind, k.listing.items), p); }
  }

  lemma {:induction false} ClusterHolds(s: Snapshot, before: set<string>, ks: seq<ClusterKind>, p: string)
    ensures Rewritten(s.files, AfterCluster(s, before, false, ks).files, p, ClusterSaid(ks, p))
  {
    if ks == [] {
      assert ClusterSaid(ks, p) == iset{};
    } else {
      ClusterHolds(s, before, ks[..|ks| - 1], p);
      LastKindAdds(s, AfterCluster(s, before, false, ks[..|ks| - 1]), before, ks, p);
    }
  }

  lemma LastKindAdds(s: Snapshot, m: Snapshot, before: set<string>, ks: seq<ClusterKind>, p: string)
    requires ks != [] && Rewritten(s.files, m.files, p, ClusterSaid(ks[..|ks| - 1], p))
    ensures Rewritten(s.files, AfterClusterKind(m, before, false, ks[|ks| - 1]).files, p, ClusterSaid(ks, p))
  {
    var more, last := ks[..|ks| - 1], ks[|ks| - 1];
    LastKindHolds(m, before, last, p);
    OneMoreKind(s.files, m.files, AfterClusterKind(m, before, false, last).files, more, last, p);
    assert ks == more + [last];
  }

  lemma OneMoreKind(a: Files, b: Files, e: Files, ks: seq<ClusterKind>, k: ClusterKind, p: string)
    requires Rewritten(a, b, p, ClusterSaid(ks, p)) && Rewritten(b, e, p, ClusterSaid([k], p))
    ensures Rewritten(a, e, p, ClusterSaid(ks + [k], p))
  {
    ClusterSaidMore(ks, k, p);
    RewrittenTwice(a, b, e, p, ClusterSaid(ks, p), ClusterSaid([k], p));
  }

  lemma ClusterSaidMore(ks: seq<ClusterKind>, k: ClusterKind, p: string)
    ensures ClusterSaid(ks + [k], p) == ClusterSaid(ks, p) + ClusterSaid([k], p)
  {
    assert forall j :: j in ks + [k] <==> j in ks || j in [k];
  }

  // ---- namespaced objects -----------------------------------------------------------------------

  /** The filters let it through, and its namespace is neither Kubernetes' own nor one whose markers
      contradict each other. */
  predicate GetsThrough(c: Cluster, i: Item) {
    && !i.skipped && i.namespace !in {"", "default", "kube-system", "kube-public", "kube-node-lease"}
    && i.namespace !in c.ambiguous.Keys
  }

  ghost predicate RawSays(c: Cluster, kinds: seq<Kind>, p: string, x: string) {
    exists k, i :: k in kinds && k.listing.Listed? && i in k.listing.items && GetsThrough(c, i)
      && (forall pr :: pr in c.promotions ==> pr.namespace != i.namespace)
      && i.content == x && p == RawTarget(k.kind, i)
  }

  function RawTarget(kind: string, i: Item): string {
    "kubernetes/raw/" + i.namespace + "/" + kind + "/" + i.file + ".yaml"
  }

  ghost function RawSaid(c: Cluster, kinds: seq<Kind>, p: string): iset<string> {
    iset x | RawSays(c, kinds, p, x)
  }

  lemma RawFileIs(kind: string, i: Item)
    ensures RawFile(kind, i) == File(RawTarget(kind, i), i.content)
  {
    assert RAW + (i.namespace + ("/" + (kind + "/" + (i.file + ".yaml")))) ==
      "kubernetes/raw/" + i.namespace + "/" + kind + "/" + i.file + ".yaml";
  }

  lemma {:induction false} RawFilesAre(c: Cluster, kind: string, items: seq<Item>, f: File)
    ensures f in RawFiles(c, kind, items) <==>
      exists i :: i in items && Considered(c, i) && !IsPromoted(c, i.namespace) &&
        f == File(RawTarget(kind, i), i.content)
  {
    if items != [] {
      var more, last := items[..|items| - 1], items[|items| - 1];
      RawFilesAre(c, kind, more, f);
      RawFileIs(kind, last);
      assert forall i :: i in items <==> i in more || i == last;
    }
  }

  lemma OneRawSays(c: Cluster, k: Kind, p: string)
    ensures RawSaid(c, [k], p) == if k.listing.Listed? then SaidBy(RawFiles(c, k.kind, k.listing.items), p) else iset{}
  {
    if k.listing.Listed? {
      forall x ensures RawSays(c, [k], p, x) <==> File(p, x) in RawFiles(c, k.kind, k.listing.items) {
        RawFilesAre(c, k.kind, k.listing.items, File(p, x));
        assert k in [k];
      }
    }
  }

  lemma RawSaidMore(c: Cluster, kinds: seq<Kind>, k: Kind, p: string)
    ensures RawSaid(c, kinds + [k], p) == RawSaid(c, kinds, p) + RawSaid(c, [k], p)
  {
    assert forall j :: j in kinds + [k] <==> j in kinds || j in [k];
  }

  lemma {:induction false} RawHolds(s: Snapshot, c: Cluster, kinds: seq<Kind>, p: string)
    ensures Rewritten(s.files, AfterRaw(s, false, c, kinds).files, p, RawSaid(c, kinds, p))
  {
    if kinds == [] {
      assert RawSaid(c, kinds, p) == iset{};
    } else {
      var more, last := kinds[..|kinds| - 1], kinds[|kinds| - 1];
      var m := AfterRaw(s, false, c, more);
      RawHolds(s, c, more, p);
      OneRawSays(c, last, p);
      if last.listing.Listed? { WrittenHolds(m, RawFiles(c, last.kind, last.listing.items), p); }
      RewrittenTwice(s.files, m.files, AfterRaw(s, false, c, kinds).files, p, RawSaid(c, more, p),
        RawSaid(c, [last], p));
      RawSaidMore(c, more, last, p);
      assert kinds == more + [last];
    }
  }

  // ---- promoted manifests --------------------------------------------------------------------------

  /** Where a promoted namespace's object goes: its release's app/ folder. */
  function AppTarget(r: Release, kind: string, i: Item): string {
    App(r) + (Lower(kind[..Find(kind, '.', 0)]) + "-" + i.file + ".yaml")
  }

  ghost predicate DocSays(c: Cluster, kinds: seq<Kind>, pr: Promotion, p: string, x: string) {
    exists k, i :: k in kinds && IsDoc(c, pr, k, i, p, x)
  }

  predicate IsDoc(c: Cluster, pr: Promotion, k: Kind, i: Item, p: string, x: string) {
    && k.listing.Listed? && i in k.listing.items && GetsThrough(c, i)
    && i.namespace == pr.namespace && i.content == x && p == AppTarget(pr.release, k.kind, i)
  }

  /** A Secret's manifest is written only once Flux's variables hold exactly its values. */
  ghost predicate SecretSays(c: Cluster, pr: Promotion, p: string, x: string) {
    && RawSecrets(c, pr.namespace).Listed?
    && exists q :: q in RawSecrets(c, pr.namespace).items && IsSecret(c, pr, q, p, x)
  }

  predicate IsSecret(c: Cluster, pr: Promotion, q: PromotedSecret, p: string, x: string) {
    && PS.Live(PS.Templated(q.secret), c.live)
    && p == App(pr.release) + q.file && x == c.render(q.secret, WrittenData(c, q.secret))
  }

  ghost predicate PromotionSays(c: Cluster, kinds: seq<Kind>, pr: Promotion, p: string, x: string) {
    !IsHeld(c, kinds, pr.namespace) && (DocSays(c, kinds, pr, p, x) || SecretSays(c, pr, p, x))
  }

  ghost function PromotionSaid(c: Cluster, kinds: seq<Kind>, pr: Promotion, p: string): iset<string> {
    iset x | PromotionSays(c, kinds, pr, p, x)
  }

  ghost function AppSaid(c: Cluster, kinds: seq<Kind>, prs: seq<Promotion>, p: string): iset<string> {
    iset x | AnySays(c, kinds, prs, p, x)
  }

  ghost predicate AnySays(c: Cluster, kinds: seq<Kind>, prs: seq<Promotion>, p: string, x: string) {
    exists pr :: pr in prs && PromotionSays(c, kinds, pr, p, x)
  }

  lemma {:induction false} DocsAre(c: Cluster, kind: string, items: seq<Item>, ns: string, f: File)
    ensures f in Docs(c, kind, items, ns) <==>
      exists i :: i in items && Considered(c, i) && i.namespace == ns &&
        f == File(ManifestFilename(KindPrefix(kind), i.file), i.content)
  {
    if items != [] {
      var more, last := items[..|items| - 1], items[|items| - 1];
      DocsAre(c, kind, more, ns, f);
      assert forall i :: i in items <==> i in more || i == last;
    }
  }

  ghost predicate DocOf(c: Cluster, k: Kind, ns: string, f: File) {
    k.listing.Listed? && f in Docs(c, k.kind, k.listing.items, ns)
  }

  lemma {:induction false} AllDocsAre(c: Cluster, kinds: seq<Kind>, ns: string, f: File)
    ensures f in AllDocs(c, kinds, ns) <==> exists k :: k in kinds && DocOf(c, k, ns, f)
  {
    if kinds != [] {
      var more, last := kinds[..|kinds| - 1], kinds[|kinds| - 1];
      AllDocsAre(c, more, ns, f);
      assert f in AllDocs(c, kinds, ns) <==> f in AllDocs(c, more, ns) || DocOf(c, last, ns, f);
      assert forall k :: k in kinds <==> k in more || k == last;
      if k :| k in more && DocOf(c, k, ns, f) { assert k in kinds; }
    }
  }

  lemma InAppAre(r: Release, docs: seq<File>, p: string, x: string)
    ensures File(p, x) in InApp(r, docs) <==> exists f :: f in docs && p == App(r) + f.path && f.content == x
  {
    if File(p, x) in InApp(r, docs) {
      var i :| 0 <= i < |docs| && InApp(r, docs)[i] == File(p, x);
      assert docs[i] in docs;
    }
    if f :| f in docs && p == App(r) + f.path && f.content == x {
      var i :| 0 <= i < |docs| && docs[i] == f;
      assert InApp(r, docs)[i] == File(p, x);
    }
  }

  lemma DocsSay(c: Cluster, kinds: seq<Kind>, pr: Promotion, p: string, x: string)
    ensures File(p, x) in InApp(pr.release, AllDocs(c, kinds, pr.namespace)) <==> DocSays(c, kinds, pr, p, x)
  {
    var docs, ns := AllDocs(c, kinds, pr.namespace), pr.namespace;
    InAppAre(pr.release, docs, p, x);
    if f :| f in docs && p == App(pr.release) + f.path && f.content == x {
      AllDocsAre(c, kinds, ns, f);
      var k :| k in kinds && DocOf(c, k, ns, f);
      DocsAre(c, k.kind, k.listing.items, ns, f);
      var i :| i in k.listing.items && Considered(c, i) && i.namespace == ns
        && f == File(ManifestFilename(KindPrefix(k.kind), i.file), i.content);
      assert IsDoc(c, pr, k, i, p, x);
    }
    if k, i :| k in kinds && IsDoc(c, pr, k, i, p, x) {
      var f := File(ManifestFilename(KindPrefix(k.kind), i.file), i.content);
      DocsAre(c, k.kind, k.listing.items, ns, f);
      assert DocOf(c, k, ns, f);
      AllDocsAre(c, kinds, ns, f);
    }
  }

  lemma SecretsSay(c: Cluster, pr: Promotion, p: string, x: string)
    requires RawSecrets(c, pr.namespace).Listed?
    ensures File(p, x) in InApp(pr.release, LiveSecrets(AllPrepared(c, RawSecrets(c, pr.namespace).items))) <==>
      SecretSays(c, pr, p, x)
  {
    var qs := RawSecrets(c, pr.namespace).items;
    var all := AllPrepared(c, qs);
    InAppAre(pr.release, LiveSecrets(all), p, x);
    if f :| f in LiveSecrets(all) && p == App(pr.release) + f.path && f.content == x {
      LiveSecretsAre(all, f);
      var m :| m in all && m.live && File(m.file, m.content) == f;
      var q := PreparedFrom(c, qs, m);
      assert IsSecret(c, pr, q, p, x);
    }
    if q :| q in qs && IsSecret(c, pr, q, p, x) {
      PreparedIn(c, qs, q);
      var f := File(q.file, Prepared(c, q).content);
      LiveSecretsAre(all, f);
      assert f in LiveSecrets(all);
    }
  }

  lemma InAppJoined(r: Release, a: seq<File>, b: seq<File>)
    ensures InApp(r, a + b) == InApp(r, a) + InApp(r, b)
  {
  }

  lemma ManifestsSay(c: Cluster, kinds: seq<Kind>, pr: Promotion, p: string)
    requires !IsHeld(c, kinds, pr.namespace)
    ensures SaidBy(InApp(pr.release, ManifestsFor(c, kinds, pr.namespace)), p) == PromotionSaid(c, kinds, pr, p)
  {
    var r, ns := pr.release, pr.namespace;
    forall x ensures File(p, x) in InApp(r, ManifestsFor(c, kinds, ns)) <==> PromotionSays(c, kinds, pr, p, x) {
      DocsSay(c, kinds, pr, p, x);
      if RawSecrets(c, ns).Listed? {
        SecretsSay(c, pr, p, x);
        InAppJoined(r, AllDocs(c, kinds, ns), LiveSecrets(AllPrepared(c, RawSecrets(c, ns).items)));
      }
    }
  }

  lemma PromotionHolds(s: Snapshot, before: set<string>, c: Cluster, kinds: seq<Kind>, pr: Promotion, p: string)
    requires p != NamespaceFile(pr.release)
    ensures Rewritten(s.files,
      AfterPromotion(s, before, false, c, pr, AllDocs(c, kinds, pr.namespace), IsHeld(c, kinds, pr.namespace)).files,
                      p, PromotionSaid(c, kinds, pr, p))
  {
    var m, ns := AfterNamespaceFile(s, before, false, c, pr), pr.namespace;
    assert SameAt(s.files, m.files, p);
    if IsHeld(c, kinds, ns) {
      assert PromotionSaid(c, kinds, pr, p) == iset{};
    } else {
      ManifestsSay(c, kinds, pr, p);
      ManifestsHold(m, before, c, kinds, pr, p);
    }
  }

  lemma ManifestsHold(m: Snapshot, before: set<string>, c: Cluster, kinds: seq<Kind>, pr: Promotion, p: string)
    ensures Rewritten(m.files, AfterManifests(m, before, false, c, pr, AllDocs(c, kinds, pr.namespace)).files, p,
                      SaidBy(InApp(pr.release, ManifestsFor(c, kinds, pr.namespace)), p))
  {
    var r := pr.release;
    match SecretsOf(c, pr.namespace)
    case Failed =>
      WrittenHolds(Keeping(m, set x | x in before && IsSecretFile(r, x)), InApp(r, AllDocs(c, kinds, pr.namespace)), p);
    case Listed(secrets) =>
      WrittenHolds(Keeping(m, WaitingSecrets(r, secrets) * before),
        InApp(r, AllDocs(c, kinds, pr.namespace) + LiveSecrets(secrets)), p);
  }

  lemma AppSaidMore(c: Cluster, kinds: seq<Kind>, prs: seq<Promotion>, pr: Promotion, p: string)
    ensures AppSaid(c, kinds, prs + [pr], p) == AppSaid(c, kinds, prs, p) + PromotionSaid(c, kinds, pr, p)
  {
    assert forall j :: j in prs + [pr] <==> j in prs || j == pr;
  }

  lemma {:induction false} PromotionsHold(s: Snapshot, before: set<string>, c: Cluster, kinds: seq<Kind>,
                                          prs: seq<Promotion>, p: string)
    requires forall pr :: pr in prs ==> pr in c.promotions && p != NamespaceFile(pr.release)
    ensures Rewritten(s.files,
      AfterPromotions(s, before, false, c, KindsPass(c, Start(c, AnyFailed(kinds)), kinds), prs).files,
                      p, AppSaid(c, kinds, prs, p))
  {
    if prs == [] {
      assert AppSaid(c, kinds, prs, p) == iset{};
    } else {
      var q, more, last := KindsPass(c, Start(c, AnyFailed(kinds)), kinds), prs[..|prs| - 1], prs[|prs| - 1];
      PromotionsHold(s, before, c, kinds, more, p);
      OnePromotionHolds(s, before, c, kinds, prs, p);
      assert prs == more + [last];
      OneMorePromotion(s.files, AfterPromotions(s, before, false, c, q, more).files,
                       AfterPromotions(s, before, false, c, q, prs).files, c, kinds, more, last, p);
    }
  }

  lemma OneMorePromotion(a: Files, b: Files, e: Files, c: Cluster, kinds: seq<Kind>, prs: seq<Promotion>,
                         pr: Promotion, p: string)
    requires Rewritten(a, b, p, AppSaid(c, kinds, prs, p)) && Rewritten(b, e, p, PromotionSaid(c, kinds, pr, p))
    ensures Rewritten(a, e, p, AppSaid(c, kinds, prs + [pr], p))
  {
    AppSaidMore(c, kinds, prs, pr, p);
    RewrittenTwice(a, b, e, p, AppSaid(c, kinds, prs, p), PromotionSaid(c, kinds, pr, p));
  }

  lemma OnePromotionHolds(s: Snapshot, before: set<string>, c: Cluster, kinds: seq<Kind>, prs: seq<Promotion>,
                          p: string)
    requires prs != [] && forall pr :: pr in prs ==> pr in c.promotions && p != NamespaceFile(pr.release)
    ensures var q, last := KindsPass(c, Start(c, AnyFailed(kinds)), kinds), prs[|prs| - 1];
      Rewritten(AfterPromotions(s, before, false, c, q, prs[..|prs| - 1]).files,
        AfterPromotions(s, before, false, c, q, prs).files,
                p, PromotionSaid(c, kinds, last, p))
  {
    var q, last := KindsPass(c, Start(c, AnyFailed(kinds)), kinds), prs[|prs| - 1];
    assert last in prs;
    assert IsPromoted(c, last.namespace);
    PassIs(c, kinds, last.namespace);
    PromotionHolds(AfterPromotions(s, before, false, c, q, prs[..|prs| - 1]), before, c, kinds, last, p);
  }

  // ---- the run ---------------------------------------------------------------------------------------

  ghost function CaptureSaid(ks: seq<ClusterKind>, c: Cluster, kinds: seq<Kind>, p: string): iset<string> {
    ClusterSaid(ks, p) + RawSaid(c, kinds, p) + AppSaid(c, kinds, c.promotions, p)
  }

  /** The files after both passes: a path holds the content of an object whose file it is, and where it
      is none's, what it held. The namespace.yaml of a promoted release apart. */
  lemma CaptureHolds(s: Snapshot, before: set<string>, ks: seq<ClusterKind>, c: Cluster, kinds: seq<Kind>, p: string)
    requires forall pr :: pr in c.promotions ==> p != NamespaceFile(pr.release)
    ensures Rewritten(s.files, AfterCapture(s, before, false, ks, c, kinds).files, p, CaptureSaid(ks, c, kinds, p))
  {
    var a := AfterCluster(s, before, false, ks);
    var b := AfterRaw(a, false, c, kinds);
    var q := KindsPass(c, Start(c, AnyFailed(kinds)), kinds);
    var e := AfterPromotions(b, before, false, c, q, c.promotions);
    ClusterHolds(s, before, ks, p);
    RawHolds(a, c, kinds, p);
    PromotionsHold(b, before, c, kinds, c.promotions, p);
    RewrittenTwice(s.files, a.files, b.files, p, ClusterSaid(ks, p), RawSaid(c, kinds, p));
    RewrittenTwice(s.files, b.files, e.files, p, ClusterSaid(ks, p) + RawSaid(c, kinds, p),
      AppSaid(c, kinds, c.promotions, p));
    assert AfterCapture(s, before, false, ks, c, kinds).files == e.files;
  }

  lemma SaidIsWritten(ks: seq<ClusterKind>, c: Cluster, kinds: seq<Kind>, p: string, x: string)
    requires x in CaptureSaid(ks, c, kinds, p)
    ensures CaptureWrites(ks, c, kinds, p)
  {
    if ClusterSays(ks, p, x) {
      SaidIsClusterWritten(ks, p, x);
    } else if RawSays(c, kinds, p, x) {
      RawIsWritten(c, kinds, p, x);
    } else {
      var pr :| pr in c.promotions && PromotionSays(c, kinds, pr, p, x);
      AppIsWritten(c, kinds, pr, p, x);
    }
  }

  lemma SaidIsClusterWritten(ks: seq<ClusterKind>, p: string, x: string)
    requires ClusterSays(ks, p, x)
    ensures ClusterWrites(ks, p)
  {
    var k, i :| k in ks && k.listing.Listed? && i in k.listing.items && !i.skipped
      && i.content == x && p == ClusterTarget(k.kind, i);
    ClusterFilesAre(k.kind, k.listing.items, File(p, x));
    assert File(p, x) in ClusterFiles(k.kind, k.listing.items);
    assert KindWrites(k, p);
  }

  lemma RawIsWritten(c: Cluster, kinds: seq<Kind>, p: string, x: string)
    requires RawSays(c, kinds, p, x)
    ensures RawWrites(c, kinds, p)
  {
    var k, i :| k in kinds && k.listing.Listed? && i in k.listing.items && GetsThrough(c, i)
      && (forall pr :: pr in c.promotions ==> pr.namespace != i.namespace)
      && i.content == x && p == RawTarget(k.kind, i);
    RawFilesAre(c, k.kind, k.listing.items, File(p, x));
    assert File(p, x) in RawFiles(c, k.kind, k.listing.items);
  }

  lemma AppIsWritten(c: Cluster, kinds: seq<Kind>, pr: Promotion, p: string, x: string)
    requires PromotionSays(c, kinds, pr, p, x)
    ensures PromotionWrites(c, kinds, pr, p)
  {
    ManifestsSay(c, kinds, pr, p);
    assert x in PromotionSaid(c, kinds, pr, p);
    assert File(p, x) in InApp(pr.release, ManifestsFor(c, kinds, pr.namespace));
  }

  /** And after the sweep: a path that is some object's file is there with an object's content, and any
      other is as it was or swept. */
  lemma FilesAfterRun(s: Snapshot, before: set<string>, ks: seq<ClusterKind>, c: Cluster, kinds: seq<Kind>, p: string)
    requires forall pr :: pr in c.promotions ==> p != NamespaceFile(pr.release)
    ensures var end := AfterCapture(s, before, false, ks, c, kinds);
      var orphans := before - end.seen;
      var files := end.files - orphans;
      && (p in orphans ==> p !in files)
      && (p !in orphans ==> Rewritten(s.files, files, p, CaptureSaid(ks, c, kinds, p)))
      && (CaptureSaid(ks, c, kinds, p) != iset{} ==> p !in orphans)
  {
    CaptureHolds(s, before, ks, c, kinds, p);
    SweptExactly(s, before, false, ks, c, kinds, p);
    if x :| x in CaptureSaid(ks, c, kinds, p) { SaidIsWritten(ks, c, kinds, p, x); }
  }

  // ---- a promoted namespace's namespace.yaml -----------------------------------------------------------

  /** As capture groups the marked releases: a namespace has one, in a folder of its name. */
  predicate PromotedOnce(c: Cluster) {
    && (forall pr :: pr in c.promotions ==> ReleaseOk(pr.release) && pr.release.namespace == pr.namespace)
    && (forall a, b :: a in c.promotions && b in c.promotions && a.namespace == b.namespace ==> a == b)
  }

  /** The live Namespace, unless the file is seen before the promotions or a hand-written release needs it. */
  function NamespaceSaid(seen: set<string>, c: Cluster, pr: Promotion): iset<string> {
    var p := NamespaceFile(pr.release);
    if p !in seen && p !in c.protected && pr.namespace in c.namespaces then iset{c.namespaces[pr.namespace]} else iset{}
  }

  lemma NamespaceParts(r: Release)
    requires ReleaseOk(r)
    ensures var s := NamespaceFile(r);
      && PROD <= s && First(s[|PROD|..]) == r.category
      && First(AfterSlash(s[|PROD|..])) == r.namespace
      && AfterSlash(AfterSlash(s[|PROD|..])) == "namespace.yaml"
  {
    var s, s2 := NamespaceFile(r), r.namespace + "/" + "namespace.yaml";
    var s1 := r.category + "/" + s2;
    assert s == PROD + s1;
    SegmentEnds(r.category, s1);
    assert AfterSlash(s1) == s2;
    SegmentEnds(r.namespace, s2);
    assert AfterSlash(s2) == "namespace.yaml";
  }

  lemma AppHasASlashMore(a: Release, s: string)
    requires ReleaseOk(a)
    ensures App(a) <= s ==> PROD <= s && '/' in AfterSlash(AfterSlash(s[|PROD|..]))
  {
    if App(a) <= s {
      AppParts(a, s);
      SegmentEnds(a.category, s[|PROD|..]);
      SegmentEnds(a.namespace, AfterSlash(s[|PROD|..]));
      var last := AfterSlash(AfterSlash(s[|PROD|..]));
      assert last == s[|PROD| + |a.category| + 1 + |a.namespace| + 1..];
      assert last[|a.name|] == (a.name + "/")[|a.name|] == '/';
    }
  }

  /** It is in no app/ folder. */
  lemma NamespaceNotInApp(a: Release, r: Release)
    requires ReleaseOk(a) && ReleaseOk(r)
    ensures !(App(a) <= NamespaceFile(r))
  {
    var s := NamespaceFile(r);
    NamespaceParts(r);
    assert '/' !in AfterSlash(AfterSlash(s[|PROD|..]));
    AppHasASlashMore(a, s);
  }

  /** Another promotion's step neither writes the file nor counts it as seen. */
  lemma OtherPromotionLeaves(m: Snapshot, before: set<string>, c: Cluster, kinds: seq<Kind>, pr: Promotion, p: string)
    requires p != NamespaceFile(pr.release) && !(App(pr.release) <= p)
    ensures var e :=
        AfterPromotion(m, before, false, c, pr, AllDocs(c, kinds, pr.namespace), IsHeld(c, kinds, pr.namespace));
      SameAt(m.files, e.files, p) && (p in e.seen <==> p in m.seen)
    ensures !PromotionWrites(c, kinds, pr, p) && !PromotionKeeps(c, kinds, pr, p)
  {
    PromotionHolds(m, before, c, kinds, pr, p);
    PromotionSees(m, before, false, c, kinds, pr, p);
    NothingInApp(c, kinds, pr, p);
  }

  lemma DocIsInApp(c: Cluster, pr: Promotion, k: Kind, i: Item, p: string, x: string)
    ensures IsDoc(c, pr, k, i, p, x) ==> App(pr.release) <= p
  {
    Cut(App(pr.release), Lower(k.kind[..Find(k.kind, '.', 0)]) + "-" + i.file + ".yaml");
  }

  lemma NothingInApp(c: Cluster, kinds: seq<Kind>, pr: Promotion, p: string)
    requires !(App(pr.release) <= p)
    ensures PromotionSaid(c, kinds, pr, p) == iset{}
    ensures p !in Paths(InApp(pr.release, ManifestsFor(c, kinds, pr.namespace)))
    ensures !KeepsSecret(c, pr, p)
  {
    forall k, i, x ensures IsDoc(c, pr, k, i, p, x) ==> App(pr.release) <= p { DocIsInApp(c, pr, k, i, p, x); }
    Cut(App(pr.release), "");
    assert App(pr.release) + "secret-" <= p ==> App(pr.release) <= p;
  }

  /** Its own promotion's step. */
  lemma OwnPromotionHolds(m: Snapshot, before: set<string>, c: Cluster, kinds: seq<Kind>, pr: Promotion)
    requires ReleaseOk(pr.release)
    ensures var e :=
        AfterPromotion(m, before, false, c, pr, AllDocs(c, kinds, pr.namespace), IsHeld(c, kinds, pr.namespace));
      Rewritten(m.files, e.files, NamespaceFile(pr.release), NamespaceSaid(m.seen, c, pr))
  {
    var p, ns := NamespaceFile(pr.release), pr.namespace;
    var n := AfterNamespaceFile(m, before, false, c, pr);
    NamespaceNotInApp(pr.release, pr.release);
    NothingInApp(c, kinds, pr, p);
    assert Rewritten(m.files, n.files, p, NamespaceSaid(m.seen, c, pr));
    if !IsHeld(c, kinds, ns) {
      ManifestsSay(c, kinds, pr, p);
      ManifestsHold(n, before, c, kinds, pr, p);
      assert SameAt(n.files, AfterManifests(n, before, false, c, pr, AllDocs(c, kinds, ns)).files, p);
    }
  }

  /** The promotions' steps, one by one. */
  lemma {:induction false} NamespacesHold(s: Snapshot, before: set<string>, c: Cluster, kinds: seq<Kind>,
                                          prs: seq<Promotion>, pr: Promotion)
    requires PromotedOnce(c) && pr in c.promotions && forall o :: o in prs ==> o in c.promotions
    ensures var p := NamespaceFile(pr.release);
      var e := AfterPromotions(s, before, false, c, KindsPass(c, Start(c, AnyFailed(kinds)), kinds), prs);
      && Rewritten(s.files, e.files, p, if pr in prs then NamespaceSaid(s.seen, c, pr) else iset{})
      && (pr !in prs ==> (p in e.seen <==> p in s.seen))
      && (pr in prs && p !in c.protected && pr.namespace in c.namespaces ==> p in e.seen)
      && (p in s.seen ==> p in e.seen)
  {
    if prs != [] {
      var more, last := prs[..|prs| - 1], prs[|prs| - 1];
      NamespacesHold(s, before, c, kinds, more, pr);
      assert forall o :: o in prs <==> o in more || o == last;
      var q := KindsPass(c, Start(c, AnyFailed(kinds)), kinds);
      OneMoreNamespace(AfterPromotions(s, before, false, c, q, more), before, c, kinds, last, pr);
      StepIs(s, before, c, kinds, prs);
    }
  }

  lemma StepIs(s: Snapshot, before: set<string>, c: Cluster, kinds: seq<Kind>, prs: seq<Promotion>)
    requires prs != [] && forall o :: o in prs ==> o in c.promotions
    ensures var q, last := KindsPass(c, Start(c, AnyFailed(kinds)), kinds), prs[|prs| - 1];
      AfterPromotions(s, before, false, c, q, prs) ==
        AfterPromotion(AfterPromotions(s, before, false, c, q, prs[..|prs| - 1]), before, false, c, last,
          AllDocs(c, kinds, last.namespace), IsHeld(c, kinds, last.namespace))
  {
    var last := prs[|prs| - 1];
    assert last in prs;
    assert IsPromoted(c, last.namespace);
    PassIs(c, kinds, last.namespace);
  }

  lemma OneMoreNamespace(m: Snapshot, before: set<string>, c: Cluster, kinds: seq<Kind>, last: Promotion, pr: Promotion)
    requires PromotedOnce(c) && pr in c.promotions && last in c.promotions
    ensures var p := NamespaceFile(pr.release);
      var e :=
        AfterPromotion(m, before, false, c, last, AllDocs(c, kinds, last.namespace), IsHeld(c, kinds, last.namespace));
      && Rewritten(m.files, e.files, p, if last == pr then NamespaceSaid(m.seen, c, pr) else iset{})
      && (last != pr ==> (p in e.seen <==> p in m.seen))
      && (last == pr && p !in c.protected && pr.namespace in c.namespaces ==> p in e.seen)
      && (p in m.seen ==> p in e.seen)
  {
    var p := NamespaceFile(pr.release);
    if last == pr {
      OwnPromotionHolds(m, before, c, kinds, pr);
      PromotionSees(m, before, false, c, kinds, pr, p);
    } else {
      NamespaceParts(pr.release);
      NamespaceParts(last.release);
      NamespaceNotInApp(last.release, pr.release);
      OtherPromotionLeaves(m, before, c, kinds, last, p);
    }
  }

  lemma ProdUntouched(s: Snapshot, before: set<string>, ks: seq<ClusterKind>, c: Cluster, kinds: seq<Kind>, p: string)
    requires PROD <= p
    ensures ClusterSaid(ks, p) == iset{} && RawSaid(c, kinds, p) == iset{}
    ensures p in AfterRaw(AfterCluster(s, before, false, ks), false, c, kinds).seen <==> p in s.seen
  {
    forall k | k in ks ensures !KindWrites(k, p) && !KindKeeps(k, p) { NotInCluster(k, p); }
    forall k | k in kinds && k.listing.Listed? ensures p !in Paths(RawFiles(c, k.kind, k.listing.items)) {
      NotRaw(c, k, p);
    }
    ClusterSees(s, before, false, ks, p);
    RawSees(AfterCluster(s, before, false, ks), false, c, kinds, p);
    forall x ensures !ClusterSays(ks, p, x) {
      if ClusterSays(ks, p, x) { SaidIsClusterWritten(ks, p, x); }
    }
    forall x ensures !RawSays(c, kinds, p, x) {
      if RawSays(c, kinds, p, x) { RawIsWritten(c, kinds, p, x); }
    }
  }

  /** After both passes a promoted namespace's file is its live Namespace, if that could be read, and else
      as it was, and isn't swept: as it was too where an earlier phase has it or a hand-written release
      needs it. */
  lemma NamespaceHolds(s: Snapshot, before: set<string>, ks: seq<ClusterKind>, c: Cluster, kinds: seq<Kind>,
                       pr: Promotion)
    requires PromotedOnce(c) && pr in c.promotions
    ensures var p, end := NamespaceFile(pr.release), AfterCapture(s, before, false, ks, c, kinds);
      && Rewritten(s.files, end.files, p, NamespaceSaid(s.seen, c, pr))
      && (p !in c.protected ==> p !in before - end.seen)
  {
    var p := NamespaceFile(pr.release);
    var a := AfterCluster(s, before, false, ks);
    var b := AfterRaw(a, false, c, kinds);
    NamespaceParts(pr.release);
    ProdUntouched(s, before, ks, c, kinds, p);
    ClusterHolds(s, before, ks, p);
    RawHolds(a, c, kinds, p);
    NamespacesHold(b, before, c, kinds, c.promotions, pr);
    SweptExactly(s, before, false, ks, c, kinds, p);
    assert p !in c.protected ==> PromotionWrites(c, kinds, pr, p) || PromotionKeeps(c, kinds, pr, p);
  }

  // ---- what is held back -------------------------------------------------------------------------------

  lemma PromotedElsewhere(c: Cluster, kinds: seq<Kind>, pr: Promotion, p: string)
    requires PromotedOnce(c) && pr in c.promotions && IsHeld(c, kinds, pr.namespace) && App(pr.release) <= p
    ensures AppSaid(c, kinds, c.promotions, p) == iset{}
  {
    forall o | o in c.promotions ensures PromotionSaid(c, kinds, o, p) == iset{} {
      if o == pr {
        assert forall x :: !PromotionSays(c, kinds, pr, p, x);
      } else {
        if App(o.release) <= p { AppsApart(o.release, pr.release, p); }
        NothingInApp(c, kinds, o, p);
      }
    }
    forall x ensures !AnySays(c, kinds, c.promotions, p, x) {
      forall o | o in c.promotions ensures !PromotionSays(c, kinds, o, p, x) {
        assert x !in PromotionSaid(c, kinds, o, p);
      }
    }
  }

  /** One of the namespace's objects needed redaction. */
  predicate NeedsRedaction(c: Cluster, kinds: seq<Kind>, ns: string) {
    exists k, i :: k in kinds && k.listing.Listed? && i in k.listing.items && Redacts(c, i, ns)
  }

  predicate Redacts(c: Cluster, i: Item, ns: string) {
    GetsThrough(c, i) && i.namespace == ns && i.redacted
  }

  /** Once a listing failed, or an object of the namespace needed redaction, the promoted manifests stay
      as they are: none is written, and none is swept. */
  lemma HeldStays(s: Snapshot, before: set<string>, ks: seq<ClusterKind>, c: Cluster, kinds: seq<Kind>, pr: Promotion,
                  p: string)
    requires PromotedOnce(c) && pr in c.promotions && PromotedManifest(App(pr.release), p)
    requires (exists k :: k in kinds && k.listing.Failed?) || NeedsRedaction(c, kinds, pr.namespace)
    ensures var end := AfterCapture(s, before, false, ks, c, kinds);
      SameAt(s.files, end.files, p) && p !in before - end.seen
  {
    assert IsHeld(c, kinds, pr.namespace) by {
      if k, i :| k in kinds && k.listing.Listed? && i in k.listing.items && Redacts(c, i, pr.namespace) {
        assert Considered(c, i) && RedactedIn(c, k, pr.namespace);
      }
    }
    HeldBackIsNotSwept(s, before, false, ks, c, kinds, pr, p);
    PromotedElsewhere(c, kinds, pr, p);
    ProdReleases(pr.release, p);
    ProdUntouched(s, before, ks, c, kinds, p);
    forall o | o in c.promotions ensures p != NamespaceFile(o.release) { NamespaceNotInApp(pr.release, o.release); }
    CaptureHolds(s, before, ks, c, kinds, p);
  }
}
