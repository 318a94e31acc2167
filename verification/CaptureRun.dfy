/** What a capture run keeps when a listing fails (scripts/k8s_backup/capture.py): the cluster and
    namespaced passes driving the tracker, promoted releases included, up to the sweep. */
module CaptureRun {
  import opened FileTracker
  import opened Ownership
  import opened Sorting
  import opened Text
  import S = Substitution
  import PS = PromotedSecrets

  datatype Listing<T> = Failed | Listed(items: seq<T>)

  datatype File = File(path: string, content: string)

  // ---- what the tracker has seen, and the disk ----------------------------------------------------

  datatype Snapshot = Snapshot(seen: set<string>, files: Files)

  function Wrote(s: Snapshot, dryRun: bool, f: File): Snapshot {
    Snapshot(s.seen + {f.path}, if dryRun then s.files else s.files[f.path := f.content])
  }

  function Written(s: Snapshot, dryRun: bool, fs: seq<File>): Snapshot {
    if fs == [] then s else Wrote(Written(s, dryRun, fs[..|fs| - 1]), dryRun, fs[|fs| - 1])
  }

  lemma WrittenMore(s: Snapshot, dryRun: bool, fs: seq<File>, f: File)
    ensures Written(s, dryRun, fs + [f]) == Wrote(Written(s, dryRun, fs), dryRun, f)
  {
    assert (fs + [f])[..|fs|] == fs;
  }

  function Keeping(s: Snapshot, kept: set<string>): Snapshot {
    s.(seen := s.seen + kept)
  }

  function Paths(fs: seq<File>): set<string> {
    set f | f in fs :: f.path
  }

  lemma {:induction false} WrittenSees(s: Snapshot, dryRun: bool, fs: seq<File>)
    ensures Written(s, dryRun, fs).seen == s.seen + Paths(fs)
  {
    if fs != [] {
      var more, last := fs[..|fs| - 1], fs[|fs| - 1];
      WrittenSees(s, dryRun, more);
      assert fs == more + [last];
      assert Paths(fs) == Paths(more) + {last.path};
    }
  }

  function Now(t: Tracker): Snapshot
    reads t, t.root
  {
    Snapshot(t.seen, t.root.files)
  }

  method WriteAll(t: Tracker, fs: seq<File>)
    requires t.Valid()
    modifies t, t.root
    ensures t.Valid() && t.before == old(t.before) && t.report.removed == old(t.report.removed)
    ensures Now(t) == Written(old(Now(t)), t.dryRun, fs)
  {
    var i := 0;
    while i < |fs|
      invariant i <= |fs|
      invariant t.Valid() && t.before == old(t.before) && t.report.removed == old(t.report.removed)
      invariant Now(t) == Written(old(Now(t)), t.dryRun, fs[..i])
    {
      assert fs[..i + 1][..i] == fs[..i];
      WriteOne(t, fs[i]);
      i := i + 1;
    }
    assert fs[..i] == fs;
  }

  method WriteOne(t: Tracker, f: File)
    requires t.Valid()
    modifies t, t.root
    ensures t.Valid() && t.before == old(t.before) && t.report.removed == old(t.report.removed)
    ensures Now(t) == Wrote(old(Now(t)), t.dryRun, f)
  {
    t.Write(f.path, f.content);
    ghost var state := t.State();
    assert state.before == t.before && state.seen == t.seen && state.report == t.report;
  }

  /** keep_existing of the files a glob gives: of those there at the start, all that match. */
  method Keep(t: Tracker, rels: seq<string>)
    requires t.Valid()
    modifies t
    ensures t.Valid() && t.before == old(t.before) && t.report.removed == old(t.report.removed)
    ensures t.seen == old(t.seen) + set p | p in t.before && p in rels
  {
    ghost var l := t.State();
    t.KeepExisting(rels);
    ghost var state := t.State();
    assert state.seen == t.seen && state.report == t.report;
    KeptRemovesNothing(l, rels);
    forall p ensures p in t.seen <==> p in l.seen || (p in rels && p in l.before) {
      KeptSees(l, rels, p);
    }
  }

  /** `Path.glob` over the files there are. */
  method Glob(files: Files, wanted: string -> bool) returns (rels: seq<string>)
    ensures forall p :: p in rels <==> p in files && wanted(p)
  {
    rels := [];
    var todo := files.Keys;
    while todo != {}
      invariant todo <= files.Keys
      invariant forall p :: p in rels <==> p in files && p !in todo && wanted(p)
      decreases |todo|
    {
      var p :| p in todo;
      todo := todo - {p};
      if wanted(p) {
        rels := rels + [p];
      }
    }
  }

  method KeepGlob(t: Tracker, wanted: string -> bool)
    requires t.Valid()
    modifies t
    ensures t.Valid() && t.before == old(t.before) && t.report.removed == old(t.report.removed)
    ensures t.seen == old(t.seen) + set p | p in t.before && wanted(p)
  {
    var rels := Glob(t.root.files, wanted);
    Keep(t, rels);
  }

  // ---- cluster-scoped kinds -----------------------------------------------------------------------

  /** A listed object as the filters and _neat_and_redact leave it. */
  datatype ClusterItem = ClusterItem(file: string, content: string, skipped: bool, local: bool)

  datatype ClusterKind = ClusterKind(kind: string, listing: Listing<ClusterItem>)

  function TrackedDir(kind: string): string {
    CLUSTER + kind + "/"
  }

  function LocalDir(kind: string): string {
    LOCAL + "cluster/" + kind + "/"
  }

  /** `dir.glob("*.yaml")`. */
  predicate YamlIn(dir: string, p: string) {
    dir <= p && '/' !in p[|dir|..] && EndsWith(p, ".yaml")
  }

  predicate OfClusterKind(kind: string, p: string) {
    YamlIn(TrackedDir(kind), p) || YamlIn(LocalDir(kind), p)
  }

  function ClusterFile(kind: string, i: ClusterItem): File {
    File((if i.local then LocalDir(kind) else TrackedDir(kind)) + (i.file + ".yaml"), i.content)
  }

  function ClusterFiles(kind: string, items: seq<ClusterItem>): seq<File> {
    if items == [] then []
    else
      var more, last := ClusterFiles(kind, items[..|items| - 1]), items[|items| - 1];
      if last.skipped then more else more + [ClusterFile(kind, last)]
  }

  function AfterClusterKind(s: Snapshot, before: set<string>, dryRun: bool, k: ClusterKind): Snapshot {
    match k.listing
    case Failed => Keeping(s, set p | p in before && OfClusterKind(k.kind, p))
    case Listed(items) => Written(s, dryRun, ClusterFiles(k.kind, items))
  }

  function AfterCluster(s: Snapshot, before: set<string>, dryRun: bool, ks: seq<ClusterKind>): Snapshot {
    if ks == [] then s
    else AfterClusterKind(AfterCluster(s, before, dryRun, ks[..|ks| - 1]), before, dryRun, ks[|ks| - 1])
  }

  method CaptureClusterKind(t: Tracker, k: ClusterKind)
    requires t.Valid()
    modifies t, t.root
    ensures t.Valid() && t.before == old(t.before) && t.report.removed == old(t.report.removed)
    ensures Now(t) == AfterClusterKind(old(Now(t)), t.before.Keys, t.dryRun, k)
  {
    if k.listing.Failed? {
      KeepGlob(t, p => OfClusterKind(k.kind, p));
    } else {
      CaptureClusterItems(t, k.kind, k.listing.items);
    }
  }

  method CaptureClusterItems(t: Tracker, kind: string, items: seq<ClusterItem>)
    requires t.Valid()
    modifies t, t.root
    ensures t.Valid() && t.before == old(t.before) && t.report.removed == old(t.report.removed)
    ensures Now(t) == Written(old(Now(t)), t.dryRun, ClusterFiles(kind, items))
  {
    ghost var was := Now(t);
    var i := 0;
    while i < |items|
      invariant i <= |items|
      invariant t.Valid() && t.before == old(t.before) && t.report.removed == old(t.report.removed)
      invariant Now(t) == Written(was, t.dryRun, ClusterFiles(kind, items[..i]))
    {
      MoreClusterFiles(kind, items, i);
      if !items[i].skipped {
        WrittenMore(was, t.dryRun, ClusterFiles(kind, items[..i]), ClusterFile(kind, items[i]));
        WriteOne(t, ClusterFile(kind, items[i]));
      }
      i := i + 1;
    }
    assert items[..i] == items;
  }

  lemma MoreClusterFiles(kind: string, items: seq<ClusterItem>, i: nat)
    requires i < |items|
    ensures var more := ClusterFiles(kind, items[..i]);
      ClusterFiles(kind, items[..i + 1]) == if items[i].skipped then more else more + [ClusterFile(kind, items[i])]
  {
    assert items[..i + 1][..i] == items[..i];
  }

  lemma ClusterMore(s: Snapshot, before: set<string>, dryRun: bool, ks: seq<ClusterKind>, i: nat)
    requires i < |ks|
    ensures AfterCluster(s, before, dryRun, ks[..i + 1]) ==
      AfterClusterKind(AfterCluster(s, before, dryRun, ks[..i]), before, dryRun, ks[i])
  {
    assert ks[..i + 1][..i] == ks[..i];
  }

  /** _capture_cluster_resources, as far as files go. */
  method CaptureCluster(t: Tracker, ks: seq<ClusterKind>)
    requires t.Valid()
    modifies t, t.root
    ensures t.Valid() && t.before == old(t.before) && t.report.removed == old(t.report.removed)
    ensures Now(t) == AfterCluster(old(Now(t)), t.before.Keys, t.dryRun, ks)
  {
    var i := 0;
    while i < |ks|
      invariant i <= |ks|
      invariant t.Valid() && t.before == old(t.before) && t.report.removed == old(t.report.removed)
      invariant Now(t) == AfterCluster(old(Now(t)), t.before.Keys, t.dryRun, ks[..i])
    {
      ClusterMore(old(Now(t)), t.before.Keys, t.dryRun, ks, i);
      CaptureClusterKind(t, ks[i]);
      i := i + 1;
    }
    assert ks[..i] == ks;
  }

  predicate KindWrites(k: ClusterKind, p: string) {
    k.listing.Listed? && p in Paths(ClusterFiles(k.kind, k.listing.items))
  }

  predicate KindKeeps(k: ClusterKind, p: string) {
    k.listing.Failed? && OfClusterKind(k.kind, p)
  }

  predicate ClusterWrites(ks: seq<ClusterKind>, p: string) {
    exists k :: k in ks && KindWrites(k, p)
  }

  predicate ClusterKeeps(ks: seq<ClusterKind>, p: string) {
    exists k :: k in ks && KindKeeps(k, p)
  }

  lemma KindSees(s: Snapshot, before: set<string>, dryRun: bool, k: ClusterKind, p: string)
    ensures p in AfterClusterKind(s, before, dryRun, k).seen <==>
      p in s.seen || KindWrites(k, p) || (p in before && KindKeeps(k, p))
  {
    if k.listing.Listed? {
      WrittenSees(s, dryRun, ClusterFiles(k.kind, k.listing.items));
    }
  }

  predicate KindTouches(before: set<string>, k: ClusterKind, p: string) {
    KindWrites(k, p) || (p in before && KindKeeps(k, p))
  }

  predicate AnyKindTouches(before: set<string>, ks: seq<ClusterKind>, p: string) {
    ks != [] && (AnyKindTouches(before, ks[..|ks| - 1], p) || KindTouches(before, ks[|ks| - 1], p))
  }

  lemma {:induction false} AnyKindTouchesIs(before: set<string>, ks: seq<ClusterKind>, p: string)
    ensures AnyKindTouches(before, ks, p) <==> exists k :: k in ks && KindTouches(before, k, p)
  {
    if ks != [] {
      var more, last := ks[..|ks| - 1], ks[|ks| - 1];
      AnyKindTouchesIs(before, more, p);
      assert forall k :: k in ks <==> k in more || k == last;
    }
  }

  lemma LastKindSees(s: Snapshot, before: set<string>, dryRun: bool, ks: seq<ClusterKind>, p: string)
    requires ks != []
    ensures var more, last := ks[..|ks| - 1], ks[|ks| - 1];
      p in AfterCluster(s, before, dryRun, ks).seen <==>
      p in AfterCluster(s, before, dryRun, more).seen || KindTouches(before, last, p)
  {
    var more, last := ks[..|ks| - 1], ks[|ks| - 1];
    KindSees(AfterCluster(s, before, dryRun, more), before, dryRun, last, p);
  }

  lemma {:induction false} ClusterTouches(s: Snapshot, before: set<string>, dryRun: bool, ks: seq<ClusterKind>,
                                          p: string)
    ensures p in AfterCluster(s, before, dryRun, ks).seen <==> p in s.seen || AnyKindTouches(before, ks, p)
  {
    if ks != [] {
      ClusterTouches(s, before, dryRun, ks[..|ks| - 1], p);
      LastKindSees(s, before, dryRun, ks, p);
    }
  }

  lemma ClusterSees(s: Snapshot, before: set<string>, dryRun: bool, ks: seq<ClusterKind>, p: string)
    ensures p in AfterCluster(s, before, dryRun, ks).seen <==>
      p in s.seen || ClusterWrites(ks, p) || (p in before && ClusterKeeps(ks, p))
  {
    ClusterTouches(s, before, dryRun, ks, p);
    AnyKindTouchesIs(before, ks, p);
  }

  // ---- namespaced kinds ------------------------------------------------------------------------------

  /** A listed object as the filters and _neat_and_redact leave it; `redacted` when a credential in
      it had to be replaced. */
  datatype Item = Item(namespace: string, file: string, content: string, skipped: bool, redacted: bool)

  datatype Kind = Kind(kind: string, listing: Listing<Item>)

  /** A promoted release's Secret, and its file name in app/. */
  datatype PromotedSecret = PromotedSecret(file: string, secret: PS.Secret)

  /** The same as a manifest; `live` when cluster-secrets holds all its values. */
  datatype SecretManifest = SecretManifest(file: string, content: string, live: bool)

  datatype Promotion = Promotion(namespace: string, release: Release)

  /** What the pass reads besides the listings: the promoted namespaces with the one release of
      each, the releases of the ambiguous ones, each promoted namespace's Secrets (Failed when they
      couldn't be listed, no entry for none), the live Namespaces' manifests, the protected paths,
      Flux's live variables and the names capture knows, and the YAML text of a Secret manifest. */
  datatype Cluster = Cluster(
    promotions: seq<Promotion>,
    ambiguous: map<string, seq<Release>>,
    secrets: map<string, Listing<PromotedSecret>>,
    namespaces: map<string, string>,
    protected: set<string>,
    live: map<string, string>,
    known: set<string>,
    render: (PS.Secret, map<string, string>) -> string)

  const BUILTIN_NAMESPACES: set<string> := {"default", "kube-system", "kube-public", "kube-node-lease"}

  predicate Considered(c: Cluster, i: Item) {
    i.namespace != "" && i.namespace !in BUILTIN_NAMESPACES && i.namespace !in c.ambiguous && !i.skipped
  }

  predicate IsPromoted(c: Cluster, ns: string) {
    exists pr :: pr in c.promotions && pr.namespace == ns
  }

  function RawFile(kind: string, i: Item): File {
    File(RAW + (i.namespace + ("/" + (kind + "/" + (i.file + ".yaml")))), i.content)
  }

  function RawFiles(c: Cluster, kind: string, items: seq<Item>): seq<File> {
    if items == [] then []
    else
      var more, last := RawFiles(c, kind, items[..|items| - 1]), items[|items| - 1];
      if Considered(c, last) && !IsPromoted(c, last.namespace) then more + [RawFile(kind, last)] else more
  }

  /** `kind.split(".", 1)[0].lower()`. */
  function KindPrefix(kind: string): string {
    Lower(kind[..Find(kind, '.', 0)])
  }

  /** A promoted namespace's manifests: file names in app/ and contents. */
  function Docs(c: Cluster, kind: string, items: seq<Item>, ns: string): seq<File> {
    if items == [] then []
    else
      var more, last := Docs(c, kind, items[..|items| - 1], ns), items[|items| - 1];
      if Considered(c, last) && last.namespace == ns
        then more + [File(ManifestFilename(KindPrefix(kind), last.file), last.content)] else more
  }

  predicate Redacted(c: Cluster, items: seq<Item>, ns: string) {
    exists i :: i in items && Considered(c, i) && i.namespace == ns && i.redacted
  }

  function AllDocs(c: Cluster, kinds: seq<Kind>, ns: string): seq<File> {
    if kinds == [] then []
    else
      var more, last := AllDocs(c, kinds[..|kinds| - 1], ns), kinds[|kinds| - 1];
      if last.listing.Failed? then more else more + Docs(c, last.kind, last.listing.items, ns)
  }

  predicate AnyFailed(kinds: seq<Kind>) {
    exists k :: k in kinds && k.listing.Failed?
  }

  predicate RedactedIn(c: Cluster, k: Kind, ns: string) {
    k.listing.Listed? && Redacted(c, k.listing.items, ns)
  }

  /** A namespace's promoted manifests are left as they are: a kind couldn't be listed, or one of
      its objects needed redaction. */
  predicate IsHeld(c: Cluster, kinds: seq<Kind>, ns: string) {
    AnyFailed(kinds) || exists k :: k in kinds && RedactedIn(c, k, ns)
  }

  function AfterRaw(s: Snapshot, dryRun: bool, c: Cluster, kinds: seq<Kind>): Snapshot {
    if kinds == [] then s
    else
      var m, last := AfterRaw(s, dryRun, c, kinds[..|kinds| - 1]), kinds[|kinds| - 1];
      if last.listing.Failed? then m else Written(m, dryRun, RawFiles(c, last.kind, last.listing.items))
  }

  // ---- the item loop: promoted_docs and held -------------------------------------------------------

  datatype Pass = Pass(docs: map<string, seq<File>>, held: set<string>)

  function Got(p: Pass, ns: string): seq<File> {
    if ns in p.docs then p.docs[ns] else []
  }

  function Start(c: Cluster, failed: bool): Pass {
    Pass(map[], if failed then set pr | pr in c.promotions :: pr.namespace else {})
  }

  function ItemPass(c: Cluster, kind: string, p: Pass, i: Item): Pass {
    if Considered(c, i) && IsPromoted(c, i.namespace) then
      Pass(p.docs[i.namespace := Got(p, i.namespace) + [File(ManifestFilename(KindPrefix(kind), i.file), i.content)]],
           if i.redacted then p.held + {i.namespace} else p.held)
    else p
  }

  function ItemsPass(c: Cluster, kind: string, p: Pass, items: seq<Item>): Pass {
    if items == [] then p else ItemPass(c, kind, ItemsPass(c, kind, p, items[..|items| - 1]), items[|items| - 1])
  }

  function KindsPass(c: Cluster, p: Pass, kinds: seq<Kind>): Pass {
    if kinds == [] then p
    else
      var m, last := KindsPass(c, p, kinds[..|kinds| - 1]), kinds[|kinds| - 1];
      if last.listing.Failed? then m else ItemsPass(c, last.kind, m, last.listing.items)
  }

  method CaptureItems(t: Tracker, c: Cluster, kind: string, items: seq<Item>, p: Pass) returns (q: Pass)
    requires t.Valid()
    modifies t, t.root
    ensures t.Valid() && t.before == old(t.before) && t.report.removed == old(t.report.removed)
    ensures Now(t) == Written(old(Now(t)), t.dryRun, RawFiles(c, kind, items))
    ensures q == ItemsPass(c, kind, p, items)
  {
    ghost var was := Now(t);
    q := p;
    var i := 0;
    while i < |items|
      invariant i <= |items|
      invariant t.Valid() && t.before == old(t.before) && t.report.removed == old(t.report.removed)
      invariant Now(t) == Written(was, t.dryRun, RawFiles(c, kind, items[..i]))
      invariant q == ItemsPass(c, kind, p, items[..i])
    {
      MoreItems(c, kind, items, i, p);
      if Considered(c, items[i]) {
        if IsPromoted(c, items[i].namespace) {
          q := ItemPass(c, kind, q, items[i]);
        } else {
          WrittenMore(was, t.dryRun, RawFiles(c, kind, items[..i]), RawFile(kind, items[i]));
          WriteOne(t, RawFile(kind, items[i]));
        }
      }
      i := i + 1;
    }
    assert items[..i] == items;
  }

  lemma MoreItems(c: Cluster, kind: string, items: seq<Item>, i: nat, p: Pass)
    requires i < |items|
    ensures var more := RawFiles(c, kind, items[..i]);
      RawFiles(c, kind, items[..i + 1]) ==
      if Considered(c, items[i]) && !IsPromoted(c, items[i].namespace) then more + [RawFile(kind, items[i])] else more
    ensures ItemsPass(c, kind, p, items[..i + 1]) == ItemPass(c, kind, ItemsPass(c, kind, p, items[..i]), items[i])
  {
    assert items[..i + 1][..i] == items[..i];
  }

  method CaptureKinds(t: Tracker, c: Cluster, kinds: seq<Kind>, p: Pass) returns (q: Pass)
    requires t.Valid()
    modifies t, t.root
    ensures t.Valid() && t.before == old(t.before) && t.report.removed == old(t.report.removed)
    ensures Now(t) == AfterRaw(old(Now(t)), t.dryRun, c, kinds)
    ensures q == KindsPass(c, p, kinds)
  {
    ghost var was := Now(t);
    q := p;
    var i := 0;
    while i < |kinds|
      invariant i <= |kinds|
      invariant t.Valid() && t.before == old(t.before) && t.report.removed == old(t.report.removed)
      invariant Now(t) == AfterRaw(was, t.dryRun, c, kinds[..i])
      invariant q == KindsPass(c, p, kinds[..i])
    {
      assert kinds[..i + 1][..i] == kinds[..i];
      if kinds[i].listing.Listed? {
        q := CaptureItems(t, c, kinds[i].kind, kinds[i].listing.items, q);
      }
      i := i + 1;
    }
    assert kinds[..i] == kinds;
  }

  lemma Joined(a: seq<File>, b: seq<File>, d: seq<File>)
    ensures a + b + d == a + (b + d)
  {
  }

  lemma ItemPassIs(c: Cluster, kind: string, p: Pass, i: Item, ns: string)
    requires IsPromoted(c, ns)
    ensures var q := ItemPass(c, kind, p, i);
      && (Considered(c, i) && i.namespace == ns ==>
          Got(q, ns) == Got(p, ns) + [File(ManifestFilename(KindPrefix(kind), i.file), i.content)])
      && (!(Considered(c, i) && i.namespace == ns) ==> Got(q, ns) == Got(p, ns))
      && (ns in q.held <==> ns in p.held || (Considered(c, i) && i.namespace == ns && i.redacted))
  {
  }

  lemma {:induction false} ItemsPassIs(c: Cluster, kind: string, p: Pass, items: seq<Item>, ns: string)
    requires IsPromoted(c, ns)
    ensures Got(ItemsPass(c, kind, p, items), ns) == Got(p, ns) + Docs(c, kind, items, ns)
    ensures ns in ItemsPass(c, kind, p, items).held <==> ns in p.held || Redacted(c, items, ns)
  {
    if items != [] {
      var more, last := items[..|items| - 1], items[|items| - 1];
      ItemsPassIs(c, kind, p, more, ns);
      ItemPassIs(c, kind, ItemsPass(c, kind, p, more), last, ns);
      Joined(Got(p, ns), Docs(c, kind, more, ns), [File(ManifestFilename(KindPrefix(kind), last.file), last.content)]);
      assert items == more + [last];
    }
  }

  lemma {:induction false} KindsPassIs(c: Cluster, p: Pass, kinds: seq<Kind>, ns: string)
    requires IsPromoted(c, ns)
    ensures Got(KindsPass(c, p, kinds), ns) == Got(p, ns) + AllDocs(c, kinds, ns)
    ensures ns in KindsPass(c, p, kinds).held <==> ns in p.held || exists k :: k in kinds && RedactedIn(c, k, ns)
  {
    if kinds == [] {
      assert Got(p, ns) + [] == Got(p, ns);
    } else {
      var more, last := kinds[..|kinds| - 1], kinds[|kinds| - 1];
      KindsPassIs(c, p, more, ns);
      assert kinds == more + [last];
      if last.listing.Listed? {
        ItemsPassIs(c, last.kind, KindsPass(c, p, more), last.listing.items, ns);
        assert RedactedIn(c, last, ns) <==> Redacted(c, last.listing.items, ns);
        Joined(Got(p, ns), AllDocs(c, more, ns), Docs(c, last.kind, last.listing.items, ns));
      }
    }
  }

  /** After the loop each promoted namespace has its own manifests, in listing order, and is held
      exactly when a kind couldn't be listed or one of its objects needed redaction. */
  lemma PassIs(c: Cluster, kinds: seq<Kind>, ns: string)
    requires IsPromoted(c, ns)
    ensures var q := KindsPass(c, Start(c, AnyFailed(kinds)), kinds);
      Got(q, ns) == AllDocs(c, kinds, ns) && (ns in q.held <==> IsHeld(c, kinds, ns))
  {
    KindsPassIs(c, Start(c, AnyFailed(kinds)), kinds, ns);
    assert [] + AllDocs(c, kinds, ns) == AllDocs(c, kinds, ns);
  }

  // ---- promoted releases -----------------------------------------------------------------------------

  /** A Secret manifest's data as it is written: foreign references escaped. */
  function WrittenData(c: Cluster, s: PS.Secret): map<string, string> {
    Escapes(PS.Templated(s).data, c.known)
  }

  function Escapes(data: map<string, string>, known: set<string>): map<string, string> {
    map k | k in data :: S.Escape(data[k], known)
  }

  function Manifest(c: Cluster, p: PromotedSecret, t: PS.Template): SecretManifest {
    SecretManifest(p.file, c.render(p.secret, Escapes(t.data, c.known)), PS.Live(t, c.live))
  }

  function Prepared(c: Cluster, p: PromotedSecret): SecretManifest {
    Manifest(c, p, PS.Templated(p.secret))
  }

  function AllPrepared(c: Cluster, ps: seq<PromotedSecret>): (all: seq<SecretManifest>)
    ensures |all| == |ps|
  {
    seq(|ps|, i requires 0 <= i < |ps| => Prepared(c, ps[i]))
  }

  function RawSecrets(c: Cluster, ns: string): Listing<PromotedSecret> {
    if ns in c.secrets then c.secrets[ns] else Listed([])
  }

  function SecretsOf(c: Cluster, ns: string): Listing<SecretManifest> {
    match RawSecrets(c, ns)
    case Failed => Failed
    case Listed(ps) => Listed(AllPrepared(c, ps))
  }

  /** Each Secret templated, and checked against the live values. */
  method PrepareSecrets(c: Cluster, ns: string) returns (secrets: Listing<SecretManifest>)
    ensures secrets == SecretsOf(c, ns)
  {
    if RawSecrets(c, ns).Failed? {
      return Failed;
    }
    var ps := RawSecrets(c, ns).items;
    var all := PrepareEach(c, ps);
    return Listed(all);
  }

  method PrepareEach(c: Cluster, ps: seq<PromotedSecret>) returns (all: seq<SecretManifest>)
    ensures all == AllPrepared(c, ps)
  {
    ghost var goal := AllPrepared(c, ps);
    all := [];
    for i := 0 to |ps|
      invariant all == goal[..i]
    {
      var m := PrepareOne(c, ps[i]);
      PreparedAt(c, ps, i);
      all := all + [m];
    }
  }

  lemma PreparedAt(c: Cluster, ps: seq<PromotedSecret>, i: nat)
    requires i < |ps|
    ensures AllPrepared(c, ps)[i] == Prepared(c, ps[i])
  {
  }

  method PrepareOne(c: Cluster, p: PromotedSecret) returns (m: SecretManifest)
    ensures m == Prepared(c, p)
  {
    var t := PS.TemplatedSecret(p.secret);
    m := Render(c, p, t);
  }

  method Render(c: Cluster, p: PromotedSecret, t: PS.Template) returns (m: SecretManifest)
    ensures m == Manifest(c, p, t)
  {
    var live := forall v :: v in t.values ==> v in c.live && c.live[v] == t.values[v];
    m := SecretManifest(p.file, c.render(p.secret, Escapes(t.data, c.known)), live);
  }

  predicate IsSecretFile(r: Release, p: string) {
    App(r) + "secret-" <= p && '/' !in p[|App(r)|..] && EndsWith(p, ".yaml")
  }

  /** Doc files in the release's app/. */
  function InApp(r: Release, docs: seq<File>): seq<File> {
    seq(|docs|, i requires 0 <= i < |docs| => File(App(r) + docs[i].path, docs[i].content))
  }

  function LiveSecrets(secrets: seq<SecretManifest>): seq<File> {
    if secrets == [] then []
    else
      var more, last := LiveSecrets(secrets[..|secrets| - 1]), secrets[|secrets| - 1];
      if last.live then more + [File(last.file, last.content)] else more
  }

  function WaitingSecrets(r: Release, secrets: seq<SecretManifest>): set<string> {
    set m | m in secrets && !m.live :: App(r) + m.file
  }

  /** The namespace.yaml step of _write_promoted_release. */
  function AfterNamespaceFile(s: Snapshot, before: set<string>, dryRun: bool, c: Cluster, pr: Promotion): Snapshot {
    var p := NamespaceFile(pr.release);
    if p in s.seen || p in c.protected then s
    else if pr.namespace in c.namespaces then Wrote(s, dryRun, File(p, c.namespaces[pr.namespace]))
    else Keeping(s, {p} * before)
  }

  function AfterManifests(s: Snapshot, before: set<string>, dryRun: bool, c: Cluster, pr: Promotion,
                          docs: seq<File>): Snapshot
  {
    var r := pr.release;
    match SecretsOf(c, pr.namespace)
    case Failed => Written(Keeping(s, set p | p in before && IsSecretFile(r, p)), dryRun, InApp(r, docs))
    case Listed(secrets) => Written(Keeping(s, WaitingSecrets(r, secrets) * before), dryRun,
      InApp(r, docs + LiveSecrets(secrets)))
  }

  function AfterPromotion(s: Snapshot, before: set<string>, dryRun: bool, c: Cluster, pr: Promotion, docs: seq<File>,
                          held: bool): Snapshot
  {
    var m := AfterNamespaceFile(s, before, dryRun, c, pr);
    if held then Keeping(m, set p | p in before && PromotedManifest(App(pr.release), p))
    else AfterManifests(m, before, dryRun, c, pr, docs)
  }

  method WriteNamespaceFile(t: Tracker, c: Cluster, pr: Promotion)
    requires t.Valid()
    modifies t, t.root
    ensures t.Valid() && t.before == old(t.before) && t.report.removed == old(t.report.removed)
    ensures Now(t) == AfterNamespaceFile(old(Now(t)), t.before.Keys, t.dryRun, c, pr)
  {
    var p := NamespaceFile(pr.release);
    if p !in t.seen && p !in c.protected {
      if pr.namespace in c.namespaces {
        WriteOne(t, File(p, c.namespaces[pr.namespace]));
      } else {
        Keep(t, [p]);
        assert (set x | x in t.before && x in [p]) == {p} * t.before.Keys;
      }
    }
  }

  method AddSecrets(t: Tracker, r: Release, secrets: seq<SecretManifest>) returns (docs: seq<File>)
    requires t.Valid()
    modifies t
    ensures t.Valid() && t.before == old(t.before) && t.report.removed == old(t.report.removed)
    ensures Now(t) == Keeping(old(Now(t)), WaitingSecrets(r, secrets) * t.before.Keys)
    ensures docs == LiveSecrets(secrets)
  {
    docs := [];
    var i := 0;
    while i < |secrets|
      invariant i <= |secrets|
      invariant t.Valid() && t.before == old(t.before) && t.report.removed == old(t.report.removed)
      invariant t.seen == old(t.seen) + WaitingSecrets(r, secrets[..i]) * t.before.Keys
      invariant docs == LiveSecrets(secrets[..i])
    {
      assert secrets[..i + 1][..i] == secrets[..i];
      MoreWaiting(r, secrets, i);
      if secrets[i].live {
        docs := docs + [File(secrets[i].file, secrets[i].content)];
      } else {
        Keep(t, [App(r) + secrets[i].file]);
      }
      i := i + 1;
    }
    assert secrets[..i] == secrets;
  }

  lemma MoreWaiting(r: Release, secrets: seq<SecretManifest>, i: nat)
    requires i < |secrets|
    ensures WaitingSecrets(r, secrets[..i + 1]) ==
      WaitingSecrets(r, secrets[..i]) + (if secrets[i].live then {} else {App(r) + secrets[i].file})
  {
    assert secrets[..i + 1] == secrets[..i] + [secrets[i]];
  }

  method WriteManifests(t: Tracker, c: Cluster, pr: Promotion, docs: seq<File>)
    requires t.Valid()
    modifies t, t.root
    ensures t.Valid() && t.before == old(t.before) && t.report.removed == old(t.report.removed)
    ensures Now(t) == AfterManifests(old(Now(t)), t.before.Keys, t.dryRun, c, pr, docs)
  {
    ghost var was := Now(t);
    var r := pr.release;
    var secrets := PrepareSecrets(c, pr.namespace);
    if secrets.Failed? {
      KeepGlob(t, p => IsSecretFile(r, p));
      assert Now(t) == Keeping(was, set p | p in t.before.Keys && IsSecretFile(r, p));
      WriteAll(t, InApp(r, docs));
    } else {
      var more := AddSecrets(t, r, secrets.items);
      WriteAll(t, InApp(r, docs + more));
    }
  }

  /** _write_promoted_release. */
  method WritePromotedRelease(t: Tracker, c: Cluster, pr: Promotion, docs: seq<File>, held: bool)
    requires t.Valid()
    modifies t, t.root
    ensures t.Valid() && t.before == old(t.before) && t.report.removed == old(t.report.removed)
    ensures Now(t) == AfterPromotion(old(Now(t)), t.before.Keys, t.dryRun, c, pr, docs, held)
  {
    WriteNamespaceFile(t, c, pr);
    if held {
      KeepGlob(t, p => PromotedManifest(App(pr.release), p));
    } else {
      WriteManifests(t, c, pr, docs);
    }
  }

  function AfterPromotions(s: Snapshot, before: set<string>, dryRun: bool, c: Cluster, q: Pass,
                           prs: seq<Promotion>): Snapshot
  {
    if prs == [] then s
    else
      var last := prs[|prs| - 1];
      AfterPromotion(AfterPromotions(s, before, dryRun, c, q, prs[..|prs| - 1]), before, dryRun, c, last,
                     Got(q, last.namespace), last.namespace in q.held)
  }

  // ---- the whole pass ------------------------------------------------------------------------------------

  /** Everything there was that an ambiguous namespace's releases or a failed kind's raw folder hold. */
  predicate OfAmbiguous(c: Cluster, p: string) {
    exists ns, r :: ns in c.ambiguous && r in c.ambiguous[ns] && (PromotedManifest(App(r), p) || p == NamespaceFile(r))
  }

  // The raw folder's glob: any namespace, then the kind, then a .yaml file.
  predicate RawOf(kind: string, p: string) {
    && RAW <= p
    && var rest := p[|RAW|..];
       var ns := Find(rest, '/', 0);
       ns < |rest| && YamlIn(kind + "/", rest[ns + 1..])
  }

  predicate OfFailedKind(kinds: seq<Kind>, p: string) {
    exists k :: k in kinds && k.listing.Failed? && RawOf(k.kind, p)
  }

  function AfterNamespaced(s: Snapshot, before: set<string>, dryRun: bool, c: Cluster, kinds: seq<Kind>): Snapshot {
    var q := KindsPass(c, Start(c, AnyFailed(kinds)), kinds);
    var m := AfterPromotions(AfterRaw(s, dryRun, c, kinds), before, dryRun, c, q, c.promotions);
    Keeping(m, set p | p in before && (OfAmbiguous(c, p) || OfFailedKind(kinds, p)))
  }

  lemma MorePromotions(s: Snapshot, before: set<string>, dryRun: bool, c: Cluster, q: Pass, prs: seq<Promotion>, i: nat)
    requires i < |prs|
    ensures AfterPromotions(s, before, dryRun, c, q, prs[..i + 1]) ==
      AfterPromotion(AfterPromotions(s, before, dryRun, c, q, prs[..i]), before, dryRun, c, prs[i],
                     Got(q, prs[i].namespace), prs[i].namespace in q.held)
  {
    assert prs[..i + 1][..i] == prs[..i];
  }

  method WritePromotions(t: Tracker, c: Cluster, q: Pass)
    requires t.Valid()
    modifies t, t.root
    ensures t.Valid() && t.before == old(t.before) && t.report.removed == old(t.report.removed)
    ensures Now(t) == AfterPromotions(old(Now(t)), t.before.Keys, t.dryRun, c, q, c.promotions)
  {
    ghost var was := Now(t);
    var prs := c.promotions;
    var i := 0;
    while i < |prs|
      invariant i <= |prs|
      invariant t.Valid() && t.before == old(t.before) && t.report.removed == old(t.report.removed)
      invariant Now(t) == AfterPromotions(was, t.before.Keys, t.dryRun, c, q, prs[..i])
    {
      MorePromotions(was, t.before.Keys, t.dryRun, c, q, prs, i);
      WritePromotedRelease(t, c, prs[i], Got(q, prs[i].namespace), prs[i].namespace in q.held);
      i := i + 1;
    }
    assert prs[..i] == prs;
  }

  /** The first loop: the kinds that couldn't be listed. */
  method FailedKinds(kinds: seq<Kind>) returns (failed: seq<string>)
    ensures failed != [] <==> AnyFailed(kinds)
    ensures forall x :: x in failed <==> exists k :: k in kinds && k.listing.Failed? && k.kind == x
  {
    failed := [];
    for i := 0 to |kinds|
      invariant failed != [] <==> exists k :: k in kinds[..i] && k.listing.Failed?
      invariant forall x :: x in failed <==> exists k :: k in kinds[..i] && k.listing.Failed? && k.kind == x
    {
      assert kinds[..i + 1] == kinds[..i] + [kinds[i]];
      if kinds[i].listing.Failed? {
        failed := failed + [kinds[i].kind];
      }
    }
    assert kinds[..|kinds|] == kinds;
  }

  /** The last two loops: hold the ambiguous releases' files and the failed kinds' raw copies. */
  method KeepTheRest(t: Tracker, c: Cluster, failed: seq<string>)
    requires t.Valid()
    modifies t
    ensures t.Valid() && t.before == old(t.before) && t.report.removed == old(t.report.removed)
    ensures t.seen == old(t.seen) + set p | p in t.before &&
      (OfAmbiguous(c, p) || exists x :: x in failed && RawOf(x, p))
  {
    KeepGlob(t, p => OfAmbiguous(c, p));
    var i := 0;
    ghost var was := t.seen;
    while i < |failed|
      invariant i <= |failed|
      invariant t.Valid() && t.before == old(t.before) && t.report.removed == old(t.report.removed)
      invariant t.seen == was + set p | p in t.before && exists x :: x in failed[..i] && RawOf(x, p)
    {
      assert failed[..i + 1] == failed[..i] + [failed[i]];
      var kind := failed[i];
      KeepGlob(t, p => RawOf(kind, p));
      i := i + 1;
    }
    assert failed[..i] == failed;
  }

  /** _capture_namespaced_resources, as far as files go. */
  method CaptureNamespaced(t: Tracker, c: Cluster, kinds: seq<Kind>)
    requires t.Valid()
    modifies t, t.root
    ensures t.Valid() && t.before == old(t.before) && t.report.removed == old(t.report.removed)
    ensures Now(t) == AfterNamespaced(old(Now(t)), t.before.Keys, t.dryRun, c, kinds)
  {
    var failed := FailedKinds(kinds);
    var q := CaptureKinds(t, c, kinds, Start(c, failed != []));
    WritePromotions(t, c, q);
    ghost var was := Now(t);
    KeepTheRest(t, c, failed);
    forall p ensures (exists x :: x in failed && RawOf(x, p)) <==> OfFailedKind(kinds, p) {}
    assert t.seen == Keeping(was, set p | p in t.before && (OfAmbiguous(c, p) || OfFailedKind(kinds, p))).seen;
  }

  // ---- what the pass has seen, path by path -------------------------------------------------------------

  predicate RawWrites(c: Cluster, kinds: seq<Kind>, p: string) {
    exists k :: k in kinds && k.listing.Listed? && p in Paths(RawFiles(c, k.kind, k.listing.items))
  }

  lemma {:induction false} RawSees(s: Snapshot, dryRun: bool, c: Cluster, kinds: seq<Kind>, p: string)
    ensures p in AfterRaw(s, dryRun, c, kinds).seen <==> p in s.seen || RawWrites(c, kinds, p)
  {
    if kinds != [] {
      var more, last := kinds[..|kinds| - 1], kinds[|kinds| - 1];
      RawSees(s, dryRun, c, more, p);
      assert kinds == more + [last];
      if last.listing.Listed? {
        WrittenSees(AfterRaw(s, dryRun, c, more), dryRun, RawFiles(c, last.kind, last.listing.items));
      }
    }
  }

  /** What a promoted release's step writes, once its manifests aren't held. */
  predicate PromotionWrites(c: Cluster, kinds: seq<Kind>, pr: Promotion, p: string) {
    || (p == NamespaceFile(pr.release) && p !in c.protected && pr.namespace in c.namespaces)
    || (!IsHeld(c, kinds, pr.namespace) && p in Paths(InApp(pr.release, ManifestsFor(c, kinds, pr.namespace))))
  }

  /** A namespace's promoted manifests and those of its Secrets that cluster-secrets can fill. */
  function ManifestsFor(c: Cluster, kinds: seq<Kind>, ns: string): seq<File> {
    match SecretsOf(c, ns)
    case Failed => AllDocs(c, kinds, ns)
    case Listed(secrets) => AllDocs(c, kinds, ns) + LiveSecrets(secrets)
  }

  /** What a promoted release's step leaves as it was. */
  predicate PromotionKeeps(c: Cluster, kinds: seq<Kind>, pr: Promotion, p: string) {
    || (p == NamespaceFile(pr.release) && p !in c.protected && pr.namespace !in c.namespaces)
    || (IsHeld(c, kinds, pr.namespace) && PromotedManifest(App(pr.release), p))
    || (!IsHeld(c, kinds, pr.namespace) && KeepsSecret(c, pr, p))
  }

  predicate KeepsSecret(c: Cluster, pr: Promotion, p: string) {
    match SecretsOf(c, pr.namespace)
    case Failed => IsSecretFile(pr.release, p)
    case Listed(secrets) => p in WaitingSecrets(pr.release, secrets)
  }

  lemma NamespaceFileSees(s: Snapshot, before: set<string>, dryRun: bool, c: Cluster, pr: Promotion, p: string)
    ensures p in AfterNamespaceFile(s, before, dryRun, c, pr).seen <==>
      || p in s.seen
      || (p == NamespaceFile(pr.release) && p !in c.protected && (pr.namespace in c.namespaces || p in before))
  {
  }

  lemma ManifestsSee(s: Snapshot, before: set<string>, dryRun: bool, c: Cluster, pr: Promotion, docs: seq<File>,
                     p: string)
    ensures p in AfterManifests(s, before, dryRun, c, pr, docs).seen <==>
      || p in s.seen
      || (p in before && KeepsSecret(c, pr, p))
      || p in Paths(InApp(pr.release, match SecretsOf(c, pr.namespace)
                                      case Failed => docs
                                      case Listed(secrets) => docs + LiveSecrets(secrets)))
  {
    var r := pr.release;
    match SecretsOf(c, pr.namespace)
    case Failed =>
      WrittenSees(Keeping(s, set x | x in before && IsSecretFile(r, x)), dryRun, InApp(r, docs));
    case Listed(secrets) =>
      WrittenSees(Keeping(s, WaitingSecrets(r, secrets) * before), dryRun, InApp(r, docs + LiveSecrets(secrets)));
  }

  lemma PromotionSees(s: Snapshot, before: set<string>, dryRun: bool, c: Cluster, kinds: seq<Kind>, pr: Promotion,
                      p: string)
    ensures var docs := AllDocs(c, kinds, pr.namespace);
      p in AfterPromotion(s, before, dryRun, c, pr, docs, IsHeld(c, kinds, pr.namespace)).seen <==>
      p in s.seen || PromotionWrites(c, kinds, pr, p) || (p in before && PromotionKeeps(c, kinds, pr, p))
  {
    NamespaceFileSees(s, before, dryRun, c, pr, p);
    var m := AfterNamespaceFile(s, before, dryRun, c, pr);
    ManifestsSee(m, before, dryRun, c, pr, AllDocs(c, kinds, pr.namespace), p);
  }

  predicate AnyWrites(c: Cluster, kinds: seq<Kind>, prs: seq<Promotion>, p: string) {
    exists pr :: pr in prs && PromotionWrites(c, kinds, pr, p)
  }

  predicate AnyKeeps(c: Cluster, kinds: seq<Kind>, prs: seq<Promotion>, p: string) {
    exists pr :: pr in prs && PromotionKeeps(c, kinds, pr, p)
  }

  lemma AnyOfOneMore(c: Cluster, kinds: seq<Kind>, prs: seq<Promotion>, last: Promotion, p: string)
    ensures AnyWrites(c, kinds, prs + [last], p) <==> AnyWrites(c, kinds, prs, p) || PromotionWrites(c, kinds, last, p)
    ensures AnyKeeps(c, kinds, prs + [last], p) <==> AnyKeeps(c, kinds, prs, p) || PromotionKeeps(c, kinds, last, p)
  {
    var all := prs + [last];
    assert forall pr :: pr in all <==> pr in prs || pr == last;
    if AnyWrites(c, kinds, prs, p) {
      var pr :| pr in prs && PromotionWrites(c, kinds, pr, p);
      assert pr in all;
    }
    if AnyKeeps(c, kinds, prs, p) {
      var pr :| pr in prs && PromotionKeeps(c, kinds, pr, p);
      assert pr in all;
    }
    assert last in all;
  }

  predicate Touches(c: Cluster, kinds: seq<Kind>, before: set<string>, pr: Promotion, p: string) {
    PromotionWrites(c, kinds, pr, p) || (p in before && PromotionKeeps(c, kinds, pr, p))
  }

  predicate AnyTouches(c: Cluster, kinds: seq<Kind>, before: set<string>, prs: seq<Promotion>, p: string) {
    prs != [] && (AnyTouches(c, kinds, before, prs[..|prs| - 1], p) || Touches(c, kinds, before, prs[|prs| - 1], p))
  }

  lemma {:induction false} AnyTouchesIs(c: Cluster, kinds: seq<Kind>, before: set<string>, prs: seq<Promotion>,
                                        p: string)
    ensures AnyTouches(c, kinds, before, prs, p) <==>
      AnyWrites(c, kinds, prs, p) || (p in before && AnyKeeps(c, kinds, prs, p))
  {
    if prs != [] {
      var more, last := prs[..|prs| - 1], prs[|prs| - 1];
      AnyTouchesIs(c, kinds, before, more, p);
      AnyOfOneMore(c, kinds, more, last, p);
      assert prs == more + [last];
    }
  }

  lemma OnePromotionSees(s: Snapshot, before: set<string>, dryRun: bool, c: Cluster, kinds: seq<Kind>,
                         prs: seq<Promotion>, p: string)
    requires prs != [] && forall pr :: pr in prs ==> pr in c.promotions
    ensures var q := KindsPass(c, Start(c, AnyFailed(kinds)), kinds);
      var more, last := prs[..|prs| - 1], prs[|prs| - 1];
      p in AfterPromotions(s, before, dryRun, c, q, prs).seen <==>
      p in AfterPromotions(s, before, dryRun, c, q, more).seen || Touches(c, kinds, before, last, p)
  {
    var more, last := prs[..|prs| - 1], prs[|prs| - 1];
    var q := KindsPass(c, Start(c, AnyFailed(kinds)), kinds);
    assert last in prs;
    assert IsPromoted(c, last.namespace);
    PassIs(c, kinds, last.namespace);
    PromotionSees(AfterPromotions(s, before, dryRun, c, q, more), before, dryRun, c, kinds, last, p);
  }

  lemma {:induction false} PromotionsTouch(s: Snapshot, before: set<string>, dryRun: bool, c: Cluster, kinds: seq<Kind>,
                                           prs: seq<Promotion>, p: string)
    requires forall pr :: pr in prs ==> pr in c.promotions
    ensures var q := KindsPass(c, Start(c, AnyFailed(kinds)), kinds);
      p in AfterPromotions(s, before, dryRun, c, q, prs).seen <==> p in s.seen || AnyTouches(c, kinds, before, prs, p)
  {
    if prs != [] {
      PromotionsTouch(s, before, dryRun, c, kinds, prs[..|prs| - 1], p);
      OnePromotionSees(s, before, dryRun, c, kinds, prs, p);
    }
  }

  lemma PromotionsSee(s: Snapshot, before: set<string>, dryRun: bool, c: Cluster, kinds: seq<Kind>,
                      prs: seq<Promotion>, p: string)
    requires forall pr :: pr in prs ==> pr in c.promotions
    ensures var q := KindsPass(c, Start(c, AnyFailed(kinds)), kinds);
      p in AfterPromotions(s, before, dryRun, c, q, prs).seen <==>
      p in s.seen || AnyWrites(c, kinds, prs, p) || (p in before && AnyKeeps(c, kinds, prs, p))
  {
    PromotionsTouch(s, before, dryRun, c, kinds, prs, p);
    AnyTouchesIs(c, kinds, before, prs, p);
  }

  predicate NamespacedWrites(c: Cluster, kinds: seq<Kind>, p: string) {
    RawWrites(c, kinds, p) || exists pr :: pr in c.promotions && PromotionWrites(c, kinds, pr, p)
  }

  predicate NamespacedKeeps(c: Cluster, kinds: seq<Kind>, p: string) {
    || (exists pr :: pr in c.promotions && PromotionKeeps(c, kinds, pr, p))
    || OfAmbiguous(c, p) || OfFailedKind(kinds, p)
  }

  lemma NamespacedSees(s: Snapshot, before: set<string>, dryRun: bool, c: Cluster, kinds: seq<Kind>, p: string)
    ensures p in AfterNamespaced(s, before, dryRun, c, kinds).seen <==>
      p in s.seen || NamespacedWrites(c, kinds, p) || (p in before && NamespacedKeeps(c, kinds, p))
  {
    RawSees(s, dryRun, c, kinds, p);
    PromotionsSee(AfterRaw(s, dryRun, c, kinds), before, dryRun, c, kinds, c.promotions, p);
  }

  // ---- the run ----------------------------------------------------------------------------------------------

  function AfterCapture(s: Snapshot, before: set<string>, dryRun: bool, ks: seq<ClusterKind>, c: Cluster,
                        kinds: seq<Kind>): Snapshot
  {
    AfterNamespaced(AfterCluster(s, before, dryRun, ks), before, dryRun, c, kinds)
  }

  /** The two passes and the sweep, after whatever else the run wrote or kept. */
  method CaptureAndSweep(t: Tracker, ks: seq<ClusterKind>, c: Cluster, kinds: seq<Kind>)
    requires t.Valid()
    modifies t, t.root
    ensures var end := AfterCapture(old(Now(t)), old(t.before.Keys), t.dryRun, ks, c, kinds);
      var orphans := old(t.before.Keys) - end.seen;
      && t.report.removed == old(t.report.removed) + SortedSet(orphans)
      && t.root.files == if t.dryRun then end.files else end.files - orphans
  {
    CaptureCluster(t, ks);
    CaptureNamespaced(t, c, kinds);
    ghost var l := t.State();
    assert Orphans(l) == t.before.Keys - t.seen;
    t.SweepOrphans();
    ghost var swept := t.State();
    assert swept.report == t.report;
  }

  predicate CaptureWrites(ks: seq<ClusterKind>, c: Cluster, kinds: seq<Kind>, p: string) {
    ClusterWrites(ks, p) || NamespacedWrites(c, kinds, p)
  }

  predicate CaptureKeeps(ks: seq<ClusterKind>, c: Cluster, kinds: seq<Kind>, p: string) {
    ClusterKeeps(ks, p) || NamespacedKeeps(c, kinds, p)
  }

  /** A file is swept exactly when it was there at the start and nothing wrote or kept it: not the
      run so far (`s`), and not either pass. */
  lemma SweptExactly(s: Snapshot, before: set<string>, dryRun: bool, ks: seq<ClusterKind>, c: Cluster,
                     kinds: seq<Kind>, p: string)
    ensures p in before - AfterCapture(s, before, dryRun, ks, c, kinds).seen <==>
      p in before && p !in s.seen && !CaptureWrites(ks, c, kinds, p) && !CaptureKeeps(ks, c, kinds, p)
  {
    ClusterSees(s, before, dryRun, ks, p);
    NamespacedSees(AfterCluster(s, before, dryRun, ks), before, dryRun, c, kinds, p);
  }

  /** Whichever listings fail, no file of a failed kind is swept: not a cluster kind's tracked or
      local copies, not a namespaced kind's raw copies, and after any namespaced failure no promoted
      manifest, of any kind. */
  lemma FailedListingsLoseNothing(s: Snapshot, before: set<string>, dryRun: bool, ks: seq<ClusterKind>, c: Cluster,
                                  kinds: seq<Kind>, p: string)
    requires
      || (exists k :: k in ks && k.listing.Failed? && OfClusterKind(k.kind, p))
      || (exists k :: k in kinds && k.listing.Failed? && RawOf(k.kind, p))
      || (AnyFailed(kinds) && exists pr :: pr in c.promotions && PromotedManifest(App(pr.release), p))
    ensures p !in before - AfterCapture(s, before, dryRun, ks, c, kinds).seen
  {
    SweptExactly(s, before, dryRun, ks, c, kinds, p);
    if exists k :: k in ks && k.listing.Failed? && OfClusterKind(k.kind, p) {
      var k :| k in ks && k.listing.Failed? && OfClusterKind(k.kind, p);
      assert KindKeeps(k, p);
    }
    if AnyFailed(kinds) && exists pr :: pr in c.promotions && PromotedManifest(App(pr.release), p) {
      var pr :| pr in c.promotions && PromotedManifest(App(pr.release), p);
      assert PromotionKeeps(c, kinds, pr, p);
    }
  }

  /** The same for what a namespace's redaction, its Secrets' failed listing, or a Secret whose
      values cluster-secrets lacks, holds back. */
  lemma HeldBackIsNotSwept(s: Snapshot, before: set<string>, dryRun: bool, ks: seq<ClusterKind>, c: Cluster,
                           kinds: seq<Kind>, pr: Promotion, p: string)
    requires pr in c.promotions
    requires
      || (IsHeld(c, kinds, pr.namespace) && PromotedManifest(App(pr.release), p))
      || (!IsHeld(c, kinds, pr.namespace) && KeepsSecret(c, pr, p))
    ensures p !in before - AfterCapture(s, before, dryRun, ks, c, kinds).seen
  {
    SweptExactly(s, before, dryRun, ks, c, kinds, p);
    assert PromotionKeeps(c, kinds, pr, p);
  }

  /** What the releases of an ambiguous namespace have is left as it is. */
  lemma AmbiguousIsNotSwept(s: Snapshot, before: set<string>, dryRun: bool, ks: seq<ClusterKind>, c: Cluster,
                            kinds: seq<Kind>, ns: string, r: Release, p: string)
    requires ns in c.ambiguous && r in c.ambiguous[ns]
    requires p == PROD + r.category + "/" + r.namespace + "/namespace.yaml" || PromotedManifest(App(r), p)
    ensures p !in before - AfterCapture(s, before, dryRun, ks, c, kinds).seen
  {
    SweptExactly(s, before, dryRun, ks, c, kinds, p);
    assert p == NamespaceFile(r) || PromotedManifest(App(r), p);
    assert OfAmbiguous(c, p);
  }

  // ---- the Secrets a run writes ------------------------------------------------------------------------------

  /** Each Secret of a namespace has its own file name. */
  predicate FilesOnce(ps: seq<PromotedSecret>) {
    forall a, b :: a in ps && b in ps && a.file == b.file ==> a == b
  }

  /** The namespace's own step can write its Secrets: nothing holds it and they were listed. */
  predicate SecretsGo(c: Cluster, kinds: seq<Kind>, ns: string) {
    !IsHeld(c, kinds, ns) && RawSecrets(c, ns).Listed?
  }

  /** A promoted namespace's Secret that this run writes. */
  predicate WritesSecret(c: Cluster, kinds: seq<Kind>, ns: string, p: PromotedSecret) {
    && SecretsGo(c, kinds, ns) && p in RawSecrets(c, ns).items
    && File(p.file, Prepared(c, p).content) in LiveSecrets(AllPrepared(c, RawSecrets(c, ns).items))
  }

  lemma {:induction false} LiveSecretsAre(secrets: seq<SecretManifest>, f: File)
    ensures f in LiveSecrets(secrets) <==> exists m :: m in secrets && m.live && File(m.file, m.content) == f
  {
    if secrets != [] {
      var more, last := secrets[..|secrets| - 1], secrets[|secrets| - 1];
      LiveSecretsAre(more, f);
      assert secrets == more + [last];
    }
  }

  lemma PreparedIn(c: Cluster, ps: seq<PromotedSecret>, p: PromotedSecret)
    requires p in ps
    ensures Prepared(c, p) in AllPrepared(c, ps)
  {
    var i :| 0 <= i < |ps| && ps[i] == p;
    assert AllPrepared(c, ps)[i] == Prepared(c, p);
  }

  lemma PreparedFrom(c: Cluster, ps: seq<PromotedSecret>, m: SecretManifest) returns (p: PromotedSecret)
    requires m in AllPrepared(c, ps)
    ensures p in ps && Prepared(c, p) == m
  {
    var i :| 0 <= i < |ps| && AllPrepared(c, ps)[i] == m;
    p := ps[i];
  }

  /** Written means live: a Secret's manifest is written exactly when cluster-secrets holds all its values. */
  lemma WritesExactlyTheLive(c: Cluster, kinds: seq<Kind>, ns: string, p: PromotedSecret)
    requires SecretsGo(c, kinds, ns) && p in RawSecrets(c, ns).items && FilesOnce(RawSecrets(c, ns).items)
    ensures WritesSecret(c, kinds, ns, p) <==> PS.Live(PS.Templated(p.secret), c.live)
  {
    var ps, mine := RawSecrets(c, ns).items, Prepared(c, p);
    var all, f := AllPrepared(c, ps), File(p.file, mine.content);
    LiveSecretsAre(all, f);
    PreparedIn(c, ps, p);
    if f in LiveSecrets(all) {
      var m :| m in all && m.live && File(m.file, m.content) == f;
      var q := PreparedFrom(c, ps, m);
      assert q == p;
    }
  }

  /** What is not written is kept: either way the sweep leaves the Secret's file. */
  lemma WrittenOrKept(c: Cluster, kinds: seq<Kind>, pr: Promotion, p: PromotedSecret)
    requires SecretsGo(c, kinds, pr.namespace) && p in RawSecrets(c, pr.namespace).items
    ensures PromotionWrites(c, kinds, pr, App(pr.release) + p.file) ||
      PromotionKeeps(c, kinds, pr, App(pr.release) + p.file)
  {
    var ps, mine := RawSecrets(c, pr.namespace).items, Prepared(c, p);
    var f := File(p.file, mine.content);
    PreparedIn(c, ps, p);
    LiveSecretsAre(AllPrepared(c, ps), f);
    if mine.live {
      var docs := ManifestsFor(c, kinds, pr.namespace);
      assert f in docs;
      var i :| 0 <= i < |docs| && docs[i] == f;
      assert InApp(pr.release, docs)[i] in InApp(pr.release, docs);
    }
  }

  /** Every Secret manifest a run writes has the Secret's keys, and comes out of Flux as exactly the
      Secret's data if and only if no two of its keys share a variable with different values. */
  lemma WrittenSecretComesBackExactlyWhen(c: Cluster, kinds: seq<Kind>, ns: string, p: PromotedSecret)
    requires WritesSecret(c, kinds, ns, p) && FilesOnce(RawSecrets(c, ns).items) && c.live.Keys <= c.known
    ensures WrittenData(c, p.secret).Keys == p.secret.data.Keys
    ensures (forall k :: k in p.secret.data ==> S.Expand(WrittenData(c, p.secret)[k], c.live) == Some(p.secret.data[k]))
      <==> PS.NoClash(p.secret)
  {
    WritesExactlyTheLive(c, kinds, ns, p);
    PS.WrittenExpandsExactlyWhen(p.secret, c.live, c.known);
    WrittenKeys(c, p.secret);
    forall k | k in p.secret.data
      ensures PS.ComesBack(p.secret, c.live, c.known, k) <==>
        S.Expand(WrittenData(c, p.secret)[k], c.live) == Some(p.secret.data[k])
    {
      assert k in PS.Templated(p.secret).data;
    }
  }

  lemma WrittenKeys(c: Cluster, s: PS.Secret)
    ensures WrittenData(c, s).Keys == PS.Templated(s).data.Keys
  {
  }

  /** No two Secrets a run writes, of whatever namespaces, give one variable different values. */
  lemma WrittenSecretsAgree(c: Cluster, kinds: seq<Kind>, nsA: string, a: PromotedSecret, nsB: string,
                            b: PromotedSecret, v: string)
    requires WritesSecret(c, kinds, nsA, a) && FilesOnce(RawSecrets(c, nsA).items)
    requires WritesSecret(c, kinds, nsB, b) && FilesOnce(RawSecrets(c, nsB).items)
    requires v in PS.Values(a.secret) && v in PS.Values(b.secret)
    ensures PS.Values(a.secret)[v] == PS.Values(b.secret)[v]
  {
    WritesExactlyTheLive(c, kinds, nsA, a);
    WritesExactlyTheLive(c, kinds, nsB, b);
    PS.LiveOnesAgree(PS.Templated(a.secret), PS.Templated(b.secret), c.live, v);
  }

  // ---- a listed kind's files ----------------------------------------------------------------------------------

  lemma Cut(a: string, b: string)
    ensures a <= a + b && (a + b)[|a|..] == b
  {
  }

  lemma YamlBelow(dir: string, file: string)
    requires '/' !in file
    ensures YamlIn(dir, dir + (file + ".yaml"))
  {
    var name := file + ".yaml";
    var p := dir + name;
    Cut(dir, name);
    assert p[|p| - 5..] == ".yaml";
  }

  lemma RawFileIsRaw(kind: string, i: Item)
    requires '/' !in i.namespace && '/' !in kind && '/' !in i.file
    ensures RawOf(kind, RawFile(kind, i).path)
  {
    var more := kind + "/" + (i.file + ".yaml");
    var rest := i.namespace + ("/" + more);
    Cut(RAW, rest);
    FirstSlash(i.namespace, more);
    YamlBelow(kind + "/", i.file);
  }

  lemma FirstSlash(ns: string, more: string)
    requires '/' !in ns
    ensures var rest := ns + ("/" + more);
      Find(rest, '/', 0) == |ns| < |rest| && rest[|ns| + 1..] == more
  {
    var rest := ns + ("/" + more);
    assert rest[|ns|] == '/' && forall x :: 0 <= x < |ns| ==> rest[x] == ns[x];
  }

  /** The raw folder of a path names one kind. */
  lemma OneRawKind(a: string, b: string, p: string)
    requires '/' !in a && '/' !in b && RawOf(a, p) && RawOf(b, p)
    ensures a == b
  {
    var rest := p[|RAW|..];
    var more := rest[Find(rest, '/', 0) + 1..];
    SegmentEnds(a, more);
    SegmentEnds(b, more);
  }

  lemma OneClusterKind(a: string, b: string, p: string)
    requires '/' !in a && '/' !in b && OfClusterKind(a, p) && OfClusterKind(b, p)
    ensures a == b
  {
    Folders(p);
    var dir := if CLUSTER <= p then CLUSTER else LOCAL + "cluster/";
    StartsIn(a, p);
    StartsIn(b, p);
    SegmentEnds(a, p[|dir|..]);
    SegmentEnds(b, p[|dir|..]);
  }

  lemma StartsIn(kind: string, p: string)
    requires OfClusterKind(kind, p)
    ensures CLUSTER <= p ==> kind + "/" <= p[|CLUSTER|..]
    ensures !(CLUSTER <= p) ==> LOCAL + "cluster/" <= p && kind + "/" <= p[|LOCAL + "cluster/"|..]
  {
    if YamlIn(TrackedDir(kind), p) {
      assert p == CLUSTER + (kind + "/" + p[|TrackedDir(kind)|..]);
    } else {
      assert p == (LOCAL + "cluster/") + (kind + "/" + p[|LocalDir(kind)|..]);
    }
    assert LOCAL <= p ==> !(CLUSTER <= p) by { Folders(p); }
  }

  predicate NamesOk(c: Cluster, kinds: seq<Kind>) {
    && (forall k :: k in kinds ==> '/' !in k.kind)
    && (forall k, i :: k in kinds && k.listing.Listed? && i in k.listing.items ==>
         '/' !in i.namespace && '/' !in i.file)
  }

  /** Every kind is listed once. */
  predicate KindsOnce(kinds: seq<Kind>) {
    forall a, b :: a in kinds && b in kinds && a.kind == b.kind ==> a == b
  }

  lemma {:induction false} FromItem(c: Cluster, kind: string, items: seq<Item>, p: string)
    requires p in Paths(RawFiles(c, kind, items))
    ensures exists i :: i in items && p == RawFile(kind, i).path
  {
    var more, last := items[..|items| - 1], items[|items| - 1];
    assert items == more + [last];
    if p in Paths(RawFiles(c, kind, more)) {
      FromItem(c, kind, more, p);
    }
  }

  lemma RawKindWrites(c: Cluster, kinds: seq<Kind>, k: Kind, p: string)
    requires NamesOk(c, kinds) && KindsOnce(kinds) && k in kinds && k.listing.Listed? && RawOf(k.kind, p)
    ensures RawWrites(c, kinds, p) <==> p in Paths(RawFiles(c, k.kind, k.listing.items))
    ensures !OfFailedKind(kinds, p)
  {
    forall other | other in kinds && other.listing.Listed? && p in Paths(RawFiles(c, other.kind, other.listing.items))
      ensures other == k
    {
      FromItem(c, other.kind, other.listing.items, p);
      var i :| i in other.listing.items && p == RawFile(other.kind, i).path;
      RawFileIsRaw(other.kind, i);
      OneRawKind(k.kind, other.kind, p);
    }
    forall other | other in kinds && RawOf(other.kind, p) ensures other == k {
      OneRawKind(k.kind, other.kind, p);
    }
  }

  /** Nothing but a raw listing touches the raw folder. */
  lemma OnlyRaw(ks: seq<ClusterKind>, c: Cluster, kinds: seq<Kind>, p: string)
    requires RAW <= p
    ensures !ClusterWrites(ks, p) && !ClusterKeeps(ks, p) && !OfAmbiguous(c, p)
    ensures forall pr :: pr in c.promotions ==> !PromotionWrites(c, kinds, pr, p) && !PromotionKeeps(c, kinds, pr, p)
  {
    Folders(p);
    forall k | k in ks ensures !KindWrites(k, p) && !KindKeeps(k, p) {
      NotInCluster(k, p);
    }
    forall r: Release ensures !(App(r) <= p) && p != NamespaceFile(r) {
      ProdReleases(r, p);
    }
    forall pr | pr in c.promotions ensures p !in Paths(InApp(pr.release, ManifestsFor(c, kinds, pr.namespace))) {
      Cut(App(pr.release), "");
    }
  }

  lemma NotInCluster(k: ClusterKind, p: string)
    requires RAW <= p || PROD <= p
    ensures !KindWrites(k, p) && !KindKeeps(k, p)
  {
    Folders(p);
    if KindWrites(k, p) {
      FromClusterItem(k.kind, k.listing.items, p);
      var i :| i in k.listing.items && p == ClusterFile(k.kind, i).path;
      ClusterFileIn(k.kind, i);
    }
    if KindKeeps(k, p) {
      StartsIn(k.kind, p);
    }
  }

  lemma ProdReleases(r: Release, p: string)
    ensures App(r) <= p || p == NamespaceFile(r) ==> PROD <= p
  {
    assert App(r) == PROD + (r.category + "/" + r.namespace + "/" + r.name + "/app/");
    assert NamespaceFile(r) == PROD + (r.category + "/" + r.namespace + "/namespace.yaml");
  }

  lemma {:induction false} FromClusterItem(kind: string, items: seq<ClusterItem>, p: string)
    requires p in Paths(ClusterFiles(kind, items))
    ensures exists i :: i in items && p == ClusterFile(kind, i).path
  {
    var more, last := items[..|items| - 1], items[|items| - 1];
    assert items == more + [last];
    if p in Paths(ClusterFiles(kind, more)) {
      FromClusterItem(kind, more, p);
    }
  }

  lemma ClusterFileIn(kind: string, i: ClusterItem)
    ensures CLUSTER <= ClusterFile(kind, i).path || LOCAL <= ClusterFile(kind, i).path
  {
    var p, name := ClusterFile(kind, i).path, i.file + ".yaml";
    if i.local {
      assert p == LOCAL + ("cluster/" + kind + "/" + name);
    } else {
      assert p == CLUSTER + (kind + "/" + name);
    }
  }

  /** The backup of a listed kind is exact: its raw file is swept if and only if none of the listed
      objects is written there. */
  lemma ListedRawFileSwept(s: Snapshot, before: set<string>, dryRun: bool, ks: seq<ClusterKind>, c: Cluster,
                           kinds: seq<Kind>, k: Kind, p: string)
    requires NamesOk(c, kinds) && KindsOnce(kinds) && k in kinds && k.listing.Listed? && RawOf(k.kind, p)
    requires p in before && p !in s.seen
    ensures p in before - AfterCapture(s, before, dryRun, ks, c, kinds).seen <==>
      p !in Paths(RawFiles(c, k.kind, k.listing.items))
  {
    SweptExactly(s, before, dryRun, ks, c, kinds, p);
    RawKindWrites(c, kinds, k, p);
    OnlyRaw(ks, c, kinds, p);
  }

  predicate ClusterNamesOk(ks: seq<ClusterKind>) {
    && (forall k :: k in ks ==> '/' !in k.kind)
    && (forall k, i :: k in ks && k.listing.Listed? && i in k.listing.items ==> '/' !in i.file)
    && (forall a, b :: a in ks && b in ks && a.kind == b.kind ==> a == b)
  }

  lemma ClusterKindWrites(ks: seq<ClusterKind>, k: ClusterKind, p: string)
    requires ClusterNamesOk(ks) && k in ks && k.listing.Listed? && OfClusterKind(k.kind, p)
    ensures ClusterWrites(ks, p) <==> p in Paths(ClusterFiles(k.kind, k.listing.items))
    ensures !ClusterKeeps(ks, p)
  {
    forall other | other in ks && KindWrites(other, p) ensures other == k {
      FromClusterItem(other.kind, other.listing.items, p);
      var i :| i in other.listing.items && p == ClusterFile(other.kind, i).path;
      YamlBelow(if i.local then LocalDir(other.kind) else TrackedDir(other.kind), i.file);
      OneClusterKind(k.kind, other.kind, p);
    }
    assert KindWrites(k, p) <==> p in Paths(ClusterFiles(k.kind, k.listing.items));
    forall other | other in ks && KindKeeps(other, p) ensures other == k {
      OneClusterKind(k.kind, other.kind, p);
    }
  }

  lemma OnlyCluster(c: Cluster, kinds: seq<Kind>, p: string)
    requires CLUSTER <= p || LOCAL <= p
    ensures !NamespacedWrites(c, kinds, p) && !NamespacedKeeps(c, kinds, p)
  {
    Folders(p);
    forall k | k in kinds && k.listing.Listed? ensures p !in Paths(RawFiles(c, k.kind, k.listing.items)) {
      NotRaw(c, k, p);
    }
    forall r: Release ensures !(App(r) <= p) && p != NamespaceFile(r) {
      ProdReleases(r, p);
    }
    forall pr | pr in c.promotions ensures p !in Paths(InApp(pr.release, ManifestsFor(c, kinds, pr.namespace))) {
      Cut(App(pr.release), "");
    }
  }

  lemma NotRaw(c: Cluster, k: Kind, p: string)
    requires (CLUSTER <= p || LOCAL <= p || PROD <= p) && k.listing.Listed?
    ensures p !in Paths(RawFiles(c, k.kind, k.listing.items))
  {
    Folders(p);
    if p in Paths(RawFiles(c, k.kind, k.listing.items)) {
      FromItem(c, k.kind, k.listing.items, p);
    }
  }

  /** And so are the two folders of a listed cluster kind. */
  lemma ListedClusterFileSwept(s: Snapshot, before: set<string>, dryRun: bool, ks: seq<ClusterKind>, c: Cluster,
                               kinds: seq<Kind>, k: ClusterKind, p: string)
    requires ClusterNamesOk(ks) && k in ks && k.listing.Listed? && OfClusterKind(k.kind, p)
    requires p in before && p !in s.seen
    ensures p in before - AfterCapture(s, before, dryRun, ks, c, kinds).seen <==>
      p !in Paths(ClusterFiles(k.kind, k.listing.items))
  {
    SweptExactly(s, before, dryRun, ks, c, kinds, p);
    ClusterKindWrites(ks, k, p);
    StartsIn(k.kind, p);
    assert LOCAL + "cluster/" <= p ==> LOCAL <= p;
    OnlyCluster(c, kinds, p);
  }

  // ---- what hand-written releases need -----------------------------------------------------------------

  /** Neither phase's sweep removes what a hand-written release needs, whatever the phase wrote or kept. */
  lemma HandwrittenIsNeverSwept(tree: Tree, releases: seq<Release>, r: Release, s: string,
                                files: Files, es: seq<Event>, hash: string -> string, dryRun: bool)
    requires r in releases && Handwritten(tree, r) && Needs(tree, r, s)
    ensures s !in RunPhase(files, x => CaptureOwner(tree, releases, x), es, hash, dryRun).ledger.report.removed
    ensures s !in RunPhase(files, x => GenerateOwner(tree, releases, x), es, hash, dryRun).ledger.report.removed
  {
    HandwrittenIsNobodys(tree, releases, r, s);
    RemovedExactly(files, x => CaptureOwner(tree, releases, x), es, hash, dryRun, s);
    RemovedExactly(files, x => GenerateOwner(tree, releases, x), es, hash, dryRun, s);
  }
}
