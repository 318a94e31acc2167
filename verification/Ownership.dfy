/** Which files each phase owns (scripts/k8s_backup/ownership.py): glob lists over repo-relative
    paths, where `*` also crosses `/`, a promoted release's manifests, and what a hand-written
    release protects. */
module Ownership {
  import opened Text

  // ---- fnmatch -------------------------------------------------------------------------

  /** `fnmatch` for patterns of plain characters and `*`. */
  predicate Glob(s: string, p: string)
    decreases |p|, |s|
  {
    if p == "" then s == ""
    else if p[0] == '*' then Glob(s, p[1..]) || (s != "" && Glob(s[1..], p))
    else s != "" && s[0] == p[0] && Glob(s[1..], p[1..])
  }

  predicate Plain(p: string) {
    '*' !in p
  }

  lemma {:induction false} PlainHead(a: string, p: string, s: string)
    requires Plain(a)
    ensures Glob(s, a + p) <==> a <= s && Glob(s[|a|..], p)
  {
    if a == "" {
      assert a + p == p && s[0..] == s;
    } else {
      assert (a + p)[1..] == a[1..] + p && a[0] in a;
      if s != "" && s[0] == a[0] {
        PlainHead(a[1..], p, s[1..]);
        assert a[1..] <= s[1..] <==> a <= s by {
          assert a == [a[0]] + a[1..] && s == [s[0]] + s[1..];
        }
        if a <= s {
          assert s[1..][|a[1..]|..] == s[|a|..];
        }
      }
    }
  }

  lemma {:induction false} PlainTail(p: string, b: string, s: string)
    requires Glob(s, p + b) && Plain(b)
    ensures EndsWith(s, b)
    decreases |p|, |s|
  {
    if p == "" {
      assert p + b == b == b + "";
      PlainHead(b, "", s);
    } else {
      var q := p + b;
      assert q[1..] == p[1..] + b;
      if p[0] == '*' {
        if Glob(s, q[1..]) {
          PlainTail(p[1..], b, s);
        } else {
          PlainTail(p, b, s[1..]);
          Longer(s, b);
        }
      } else {
        PlainTail(p[1..], b, s[1..]);
        Longer(s, b);
      }
    }
  }

  lemma Longer(s: string, b: string)
    requires s != "" && EndsWith(s[1..], b)
    ensures EndsWith(s, b)
  {
    assert s[|s| - |b|..] == s[1..][|s| - 1 - |b|..];
  }

  /** A `*` stands for any text at all. */
  lemma {:induction false} StarTakes(x: string, s: string, p: string)
    requires Glob(s, p)
    ensures Glob(x + s, "*" + p)
  {
    var q := "*" + p;
    assert q[1..] == p;
    if x == "" {
      assert x + s == s;
    } else {
      StarTakes(x[1..], s, p);
      assert (x + s)[1..] == x[1..] + s;
    }
  }

  lemma PlainWhole(s: string, p: string)
    requires Plain(p)
    ensures Glob(s, p) <==> s == p
  {
    PlainHead(p, "", s);
    assert p + "" == p;
    if p <= s && s[|p|..] == "" {
      assert s == p + s[|p|..];
    }
  }

  // ---- the lists -------------------------------------------------------------------------

  const RAW := "kubernetes/raw/"
  const CLUSTER := "kubernetes/cluster/"
  const LOCAL := "kubernetes/.local/"
  const PROD := "kubernetes/prod/"
  const REPOSITORIES := "kubernetes/flux/meta/repositories/"
  const VARIABLES_PAGE := "docs/variable-substitutions.md"
  const FLUX_CONFIG := "kubernetes/flux/config/"

  /** A pattern under PROD that ends in a fixed name. */
  function Under(middle: string, name: string): string {
    PROD + (middle + ("/" + name))
  }

  predicate Matches(s: string, patterns: seq<string>) {
    exists p :: p in patterns && Glob(s, p)
  }

  const CAPTURE_PATTERNS: seq<string> := [
    "docs/*",
    RAW + "README.md",
    RAW + "*/*/*.yaml",
    CLUSTER + "*/*.yaml",
    LOCAL + "cluster/*/*.yaml",
    LOCAL + "substitutions-cache.yaml",
    LOCAL + "keyvault-pending.yaml",
    LOCAL + "cluster-substitutions-configmap.yaml",
    LOCAL + "cluster-substitutions-secret.yaml",
    LOCAL + "vaultwarden-pending.yaml",
    Under("*/*", "namespace.yaml"),
    Under("*/*/*", "release.yaml"),
    Under("*/*/*/app", "values.yaml"),
    Under("*/*/*/app", "values-all.yaml"),
    REPOSITORIES + "*.yaml"
  ]

  const CAPTURE_EXCLUDE: seq<string> := [
    REPOSITORIES + "kustomization.yaml",
    VARIABLES_PAGE
  ]

  const GENERATE_PATTERNS: seq<string> := [
    Under("*/*/*/app", "helmrelease.yaml"),
    Under("*/*/*/app", "kustomization.yaml"),
    Under("*/*/*", "ks.yaml"),
    Under("*/*", "kustomization.yaml"),
    Under("*", "kustomization.yaml"),
    PROD + "kustomization.yaml",
    REPOSITORIES + "kustomization.yaml",
    FLUX_CONFIG + "cluster.yaml",
    FLUX_CONFIG + "cluster-resources.yaml",
    CLUSTER + "kustomization.yaml",
    VARIABLES_PAGE,
    ".sops.yaml",
    ".gitignore",
    ".gitattributes"
  ]

  predicate CaptureOwns(s: string) {
    Matches(s, CAPTURE_PATTERNS) && !Matches(s, CAPTURE_EXCLUDE)
  }

  predicate GenerateOwns(s: string) {
    Matches(s, GENERATE_PATTERNS)
  }

  // ---- no path is both phases' --------------------------------------------------------------

  /** A path's last segment. */
  function Name(s: string): string {
    if '/' in s then Name(s[1..]) else s
  }

  lemma {:induction false} NameAfter(d: string, n: string)
    requires '/' !in n
    ensures Name(d + "/" + n) == n
  {
    var s := d + "/" + n;
    assert s[|d|] == '/';
    if d == "" {
      assert s[1..] == n;
    } else {
      assert s[1..] == d[1..] + "/" + n;
      NameAfter(d[1..], n);
    }
  }

  lemma NameOf(s: string, n: string)
    requires EndsWith(s, "/" + n) && '/' !in n
    ensures Name(s) == n
  {
    var d := s[..|s| - |n| - 1];
    assert s == d + s[|d|..] && d + s[|d|..] == d + "/" + n;
    NameAfter(d, n);
  }

  /** Where a match of `start` + `middle` + "/" + `name` starts and what it is called. */
  lemma StartAndName(s: string, start: string, middle: string, name: string)
    requires Plain(start) && Plain(name) && '/' !in name
    requires Glob(s, start + (middle + ("/" + name)))
    ensures start <= s && Name(s) == name
  {
    var end := "/" + name;
    PlainHead(start, middle + end, s);
    var t := s[|start|..];
    PlainTail(middle, end, t);
    assert s[|s| - |end|..] == t[|t| - |end|..];
    NameOf(s, name);
  }

  /** What a path capture owns looks like: where it starts and, in the shared folders, its name. */
  predicate CaptureShape(s: string) {
    || "docs/" <= s || RAW <= s || LOCAL <= s || REPOSITORIES <= s
    || (CLUSTER <= s && '/' in s[|CLUSTER|..])
    || (PROD <= s && Name(s) in {"namespace.yaml", "release.yaml", "values.yaml", "values-all.yaml"})
  }

  predicate GenerateShape(s: string) {
    || (PROD <= s && Name(s) in {"helmrelease.yaml", "kustomization.yaml", "ks.yaml"})
    || FLUX_CONFIG <= s
    || s == CLUSTER + "kustomization.yaml"
    || s in CAPTURE_EXCLUDE
    || "." <= s
  }

  lemma StartOf(s: string, start: string, p: string)
    requires Plain(start) && Glob(s, start + p)
    ensures start <= s && Glob(s[|start|..], p)
  {
    PlainHead(start, p, s);
  }

  lemma CapturedInProd(s: string, i: nat)
    requires 10 <= i < 14 && Glob(s, CAPTURE_PATTERNS[i])
    ensures PROD <= s && Name(s) in {"namespace.yaml", "release.yaml", "values.yaml", "values-all.yaml"}
  {
    if i == 10 {
      StartAndName(s, PROD, "*/*", "namespace.yaml");
    } else if i == 11 {
      StartAndName(s, PROD, "*/*/*", "release.yaml");
    } else if i == 12 {
      StartAndName(s, PROD, "*/*/*/app", "values.yaml");
    } else {
      StartAndName(s, PROD, "*/*/*/app", "values-all.yaml");
    }
  }

  lemma CapturedInCluster(s: string)
    requires Glob(s, CLUSTER + "*/*.yaml")
    ensures CLUSTER <= s && '/' in s[|CLUSTER|..]
  {
    StartOf(s, CLUSTER, "*/*.yaml");
    SlashIn(s[|CLUSTER|..], "*/*.yaml");
  }

  /** What a pattern spells out is in every match. */
  lemma {:induction false} SlashIn(s: string, p: string)
    requires Glob(s, p) && '/' in p
    ensures '/' in s
    decreases |p|, |s|
  {
    if p[0] == '*' {
      assert '/' in p[1..];
      if Glob(s, p[1..]) {
        SlashIn(s, p[1..]);
      } else {
        SlashIn(s[1..], p);
      }
    } else if p[0] != '/' {
      assert '/' in p[1..];
      SlashIn(s[1..], p[1..]);
    }
  }

  lemma CaptureShapes(s: string, i: nat)
    requires i < |CAPTURE_PATTERNS| && Glob(s, CAPTURE_PATTERNS[i])
    ensures CaptureShape(s)
  {
    if i == 0 {
      assert "docs/*" == "docs/" + "*";
      StartOf(s, "docs/", "*");
    } else if i == 1 {
      StartOf(s, RAW, "README.md");
    } else if i == 2 {
      StartOf(s, RAW, "*/*/*.yaml");
    } else if i == 3 {
      CapturedInCluster(s);
    } else if i < 10 {
      StartOf(s, LOCAL, CAPTURE_PATTERNS[i][|LOCAL|..]);
    } else if i < 14 {
      CapturedInProd(s, i);
    } else {
      StartOf(s, REPOSITORIES, "*.yaml");
    }
  }

  lemma GeneratedInProd(s: string, i: nat)
    requires i < 5 && Glob(s, GENERATE_PATTERNS[i])
    ensures PROD <= s && Name(s) in {"helmrelease.yaml", "kustomization.yaml", "ks.yaml"}
  {
    if i == 0 {
      StartAndName(s, PROD, "*/*/*/app", "helmrelease.yaml");
    } else if i == 1 {
      StartAndName(s, PROD, "*/*/*/app", "kustomization.yaml");
    } else if i == 2 {
      StartAndName(s, PROD, "*/*/*", "ks.yaml");
    } else if i == 3 {
      StartAndName(s, PROD, "*/*", "kustomization.yaml");
    } else {
      StartAndName(s, PROD, "*", "kustomization.yaml");
    }
  }

  lemma RootKustomization(s: string)
    requires Glob(s, PROD + "kustomization.yaml")
    ensures PROD <= s && Name(s) == "kustomization.yaml"
  {
    PlainWhole(s, PROD + "kustomization.yaml");
    assert s == "kubernetes/prod" + "/" + "kustomization.yaml";
    NameAfter("kubernetes/prod", "kustomization.yaml");
  }

  lemma Spelled(s: string, i: nat)
    requires i in {6, 9, 10} && Glob(s, GENERATE_PATTERNS[i])
    ensures s == CLUSTER + "kustomization.yaml" || s in CAPTURE_EXCLUDE
  {
    if i == 6 {
      SpelledRepositories(s);
    } else if i == 9 {
      PlainWhole(s, CLUSTER + "kustomization.yaml");
    } else {
      SpelledDocs(s);
    }
  }

  lemma SpelledRepositories(s: string)
    requires Glob(s, GENERATE_PATTERNS[6])
    ensures s in CAPTURE_EXCLUDE
  {
    PlainWhole(s, REPOSITORIES + "kustomization.yaml");
    assert s == CAPTURE_EXCLUDE[0];
  }

  lemma SpelledDocs(s: string)
    requires Glob(s, GENERATE_PATTERNS[10])
    ensures s in CAPTURE_EXCLUDE
  {
    VariablesPageIsPlain();
    assert GENERATE_PATTERNS[10] == VARIABLES_PAGE == CAPTURE_EXCLUDE[1];
    PlainWhole(s, VARIABLES_PAGE);
  }

  lemma VariablesPageIsPlain()
    ensures Plain(VARIABLES_PAGE)
  {
  }

  lemma Dotted(s: string, p: string)
    requires "." <= p && Glob(s, p)
    ensures "." <= s
  {
  }

  lemma GeneratedElsewhere(s: string, i: nat)
    requires i in {7, 8, 11, 12, 13} && Glob(s, GENERATE_PATTERNS[i])
    ensures FLUX_CONFIG <= s || "." <= s
  {
    if i == 7 {
      StartOf(s, FLUX_CONFIG, "cluster.yaml");
    } else if i == 8 {
      StartOf(s, FLUX_CONFIG, "cluster-resources.yaml");
    } else {
      Dotted(s, GENERATE_PATTERNS[i]);
    }
  }

  lemma GenerateShapes(s: string, i: nat)
    requires i < |GENERATE_PATTERNS| && Glob(s, GENERATE_PATTERNS[i])
    ensures GenerateShape(s)
  {
    if i < 5 {
      GeneratedInProd(s, i);
    } else if i == 5 {
      RootKustomization(s);
    } else if i == 6 || i == 9 || i == 10 {
      Spelled(s, i);
    } else {
      GeneratedElsewhere(s, i);
    }
  }

  /** The folders tell themselves apart by one character each. */
  lemma Folders(s: string)
    ensures "docs/" <= s ==> s[0] == 'd'
    ensures "." <= s ==> s[0] == '.'
    ensures RAW <= s ==> s[0] == 'k' && s[11] == 'r'
    ensures CLUSTER <= s ==> s[0] == 'k' && s[11] == 'c'
    ensures LOCAL <= s ==> s[0] == 'k' && s[11] == '.'
    ensures PROD <= s ==> s[0] == 'k' && s[11] == 'p'
    ensures REPOSITORIES <= s ==> s[0] == 'k' && s[11] == 'f' && s[16] == 'm'
    ensures FLUX_CONFIG <= s ==> s[0] == 'k' && s[11] == 'f' && s[16] == 'c'
  {
  }

  lemma ExcludedMatches(s: string)
    requires s in CAPTURE_EXCLUDE
    ensures Matches(s, CAPTURE_EXCLUDE)
  {
    VariablesPageIsPlain();
    RepositoriesFileIsPlain();
    PlainWhole(s, s);
  }

  lemma RepositoriesFileIsPlain()
    ensures Plain(REPOSITORIES + "kustomization.yaml")
  {
  }

  lemma NoFolderBelow()
    ensures '/' !in (CLUSTER + "kustomization.yaml")[|CLUSTER|..]
  {
    assert (CLUSTER + "kustomization.yaml")[|CLUSTER|..] == "kustomization.yaml";
  }

  lemma ShapesApart(s: string)
    requires CaptureShape(s) && GenerateShape(s)
    ensures s in CAPTURE_EXCLUDE
  {
    Folders(s);
    NoFolderBelow();
  }

  /** Neither phase can sweep the other's files: no path is in both lists, though `*` crosses `/`. */
  lemma ListsAreApart(s: string)
    ensures !(CaptureOwns(s) && GenerateOwns(s))
  {
    if CaptureOwns(s) && GenerateOwns(s) {
      var p :| p in CAPTURE_PATTERNS && Glob(s, p);
      var i :| 0 <= i < |CAPTURE_PATTERNS| && CAPTURE_PATTERNS[i] == p;
      CaptureShapes(s, i);
      var q :| q in GENERATE_PATTERNS && Glob(s, q);
      var j :| 0 <= j < |GENERATE_PATTERNS| && GENERATE_PATTERNS[j] == q;
      GenerateShapes(s, j);
      ShapesApart(s);
      ExcludedMatches(s);
    }
  }

  // ---- promoted releases ---------------------------------------------------------------------

  /** kubernetes/prod/<category>/<namespace>/<release>, the folders layout.release_dirs gives. */
  datatype Release = Release(category: string, namespace: string, name: string)

  predicate Segment(x: string) {
    x != "" && '/' !in x
  }

  predicate ReleaseOk(r: Release) {
    Segment(r.category) && Segment(r.namespace) && Segment(r.name)
  }

  function Dir(r: Release): string {
    PROD + r.category + "/" + r.namespace + "/" + r.name
  }

  function App(r: Release): string {
    Dir(r) + "/app/"
  }

  predicate PromotedManifest(d: string, s: string) {
    d <= s && EndsWith(s, ".yaml") && '/' !in s[|d|..] && s[|d|..] != "kustomization.yaml"
  }

  /** _promoted_manifest_owner: the first app/ folder the path starts with decides. */
  predicate PromotedOwns(releases: seq<Release>, s: string) {
    if releases == [] then false
    else if App(releases[0]) <= s then PromotedManifest(App(releases[0]), s)
    else PromotedOwns(releases[1..], s)
  }

  /** No release's app/ folder lies in another's, so which comes first doesn't matter. */
  lemma {:induction false} PromotedOwnsAny(releases: seq<Release>, s: string)
    requires forall r :: r in releases ==> ReleaseOk(r)
    ensures PromotedOwns(releases, s) <==> exists r :: r in releases && PromotedManifest(App(r), s)
  {
    if releases != [] {
      var first, more := releases[0], releases[1..];
      PromotedOwnsAny(more, s);
      assert releases == [first] + more;
      if App(first) <= s && exists r :: r in more && PromotedManifest(App(r), s) {
        var r :| r in more && PromotedManifest(App(r), s);
        AppsApart(first, r, s);
      }
    }
  }

  /** The three segments after PROD are the release's. */
  lemma SegmentsAre(a: Release, s: string)
    requires ReleaseOk(a) && App(a) <= s
    ensures PROD <= s
    ensures var s1 := s[|PROD|..];
      var s2 := AfterSlash(s1);
      var s3 := AfterSlash(s2);
      a.category == First(s1) && a.namespace == First(s2) && a.name == First(s3)
  {
    AppParts(a, s);
    var s1 := s[|PROD|..];
    SegmentEnds(a.category, s1);
    var s2 := AfterSlash(s1);
    assert s2 == s[|PROD| + |a.category| + 1..];
    SegmentEnds(a.namespace, s2);
    var s3 := AfterSlash(s2);
    assert s3 == s[|PROD| + |a.category| + 1 + |a.namespace| + 1..];
    SegmentEnds(a.name, s3);
  }

  function First(s: string): string {
    s[..Find(s, '/', 0)]
  }

  function AfterSlash(s: string): string {
    var k := Find(s, '/', 0);
    if k < |s| then s[k + 1..] else ""
  }

  lemma AppsApart(a: Release, b: Release, s: string)
    requires ReleaseOk(a) && ReleaseOk(b) && App(a) <= s && App(b) <= s
    ensures a == b
  {
    SegmentsAre(a, s);
    SegmentsAre(b, s);
  }

  lemma AppParts(a: Release, s: string)
    requires App(a) <= s
    ensures PROD <= s && a.category + "/" <= s[|PROD|..]
    ensures a.namespace + "/" <= s[|PROD| + |a.category| + 1..]
    ensures a.name + "/" <= s[|PROD| + |a.category| + 1 + |a.namespace| + 1..]
  {
    var t := s[|App(a)|..];
    assert s == PROD + (a.category + "/" + (a.namespace + "/" + (a.name + "/" + ("app/" + t))));
  }

  lemma SegmentEnds(a: string, s: string)
    requires '/' !in a && a + "/" <= s
    ensures Find(s, '/', 0) == |a| && s[..|a|] == a
  {
    assert s[|a|] == (a + "/")[|a|] == '/';
    assert forall i :: 0 <= i < |a| ==> s[i] == (a + "/")[i] == a[i];
  }

  /** A path both a promoted folder and generate's list claim: exactly the manifests named
      helmrelease.yaml, and also ks.yaml, since the last `*` before "/ks.yaml" crosses app/. */
  lemma PromotedOverlapsExactly(r: Release, s: string)
    requires ReleaseOk(r) && PromotedManifest(App(r), s)
    ensures GenerateOwns(s) <==> s[|App(r)|..] == "helmrelease.yaml" || s[|App(r)|..] == "ks.yaml"
  {
    var rest := s[|App(r)|..];
    assert s == App(r) + rest;
    if GenerateOwns(s) {
      OverlapIsNamed(r, s);
    }
    HelmreleaseMatches(r);
    KsMatches(r);
  }

  lemma OverlapIsNamed(r: Release, s: string)
    requires ReleaseOk(r) && PromotedManifest(App(r), s) && GenerateOwns(s)
    ensures s[|App(r)|..] == "helmrelease.yaml" || s[|App(r)|..] == "ks.yaml"
  {
    var q :| q in GENERATE_PATTERNS && Glob(s, q);
    var j :| 0 <= j < |GENERATE_PATTERNS| && GENERATE_PATTERNS[j] == q;
    GenerateShapes(s, j);
    PromotedShape(r, s);
    AppName(r, s);
  }

  lemma AppName(r: Release, s: string)
    requires App(r) <= s && '/' !in s[|App(r)|..]
    ensures Name(s) == s[|App(r)|..]
  {
    var rest := s[|App(r)|..];
    assert "/app/" == "/app" + "/";
    assert s == (Dir(r) + "/app") + "/" + rest;
    NameAfter(Dir(r) + "/app", rest);
  }

  lemma PromotedShape(r: Release, s: string)
    requires App(r) <= s && GenerateShape(s)
    ensures PROD <= s && Name(s) in {"helmrelease.yaml", "kustomization.yaml", "ks.yaml"}
  {
    assert s == PROD + s[|PROD|..];
    Folders(s);
  }

  lemma Slash(t: string, p: string)
    requires Glob(t, p)
    ensures Glob("/" + t, "/" + p)
  {
    assert ("/" + t)[1..] == t && ("/" + p)[1..] == p;
  }

  /** One segment of a path, taken by a `*`. */
  lemma StarSegment(x: string, t: string, p: string)
    requires Glob(t, p)
    ensures Glob(x + ("/" + t), "*" + ("/" + p))
  {
    Slash(t, p);
    StarTakes(x, "/" + t, "/" + p);
  }

  lemma Regroup(r: Release, t: string, p: string)
    ensures Dir(r) + "/" + t == PROD + (r.category + ("/" + (r.namespace + ("/" + (r.name + ("/" + t))))))
    ensures "*" + ("/" + ("*" + ("/" + ("*" + ("/" + p))))) == "*/*/*" + ("/" + p)
  {
  }

  /** The three segments of a release's folder, each taken by a `*`. */
  lemma ThreeStars(r: Release, t: string, p: string)
    requires Glob(t, p)
    ensures Glob(Dir(r) + "/" + t, PROD + ("*/*/*" + ("/" + p)))
  {
    StarSegment(r.name, t, p);
    var t1, p1 := r.name + ("/" + t), "*" + ("/" + p);
    StarSegment(r.namespace, t1, p1);
    var t2, p2 := r.namespace + ("/" + t1), "*" + ("/" + p1);
    StarSegment(r.category, t2, p2);
    var t3, p3 := r.category + ("/" + t2), "*" + ("/" + p2);
    PlainHead(PROD, p3, PROD + t3);
    assert (PROD + t3)[|PROD|..] == t3;
    Regroup(r, t, p);
  }

  lemma BelowApp(r: Release, name: string)
    ensures App(r) + name == Dir(r) + "/" + ("app" + ("/" + name))
    ensures "*/*/*" + ("/" + ("app" + ("/" + name))) == "*/*/*/app" + ("/" + name)
    ensures App(r) + name == Dir(r.(name := r.name + "/app")) + "/" + name
  {
  }

  lemma HelmreleaseMatches(r: Release)
    ensures GenerateOwns(App(r) + "helmrelease.yaml")
  {
    var t := "app" + ("/" + "helmrelease.yaml");
    PlainWhole(t, t);
    ThreeStars(r, t, t);
    BelowApp(r, "helmrelease.yaml");
    assert Under("*/*/*/app", "helmrelease.yaml") in GENERATE_PATTERNS;
  }

  lemma KsMatches(r: Release)
    ensures GenerateOwns(App(r) + "ks.yaml")
  {
    PlainWhole("ks.yaml", "ks.yaml");
    ThreeStars(r.(name := r.name + "/app"), "ks.yaml", "ks.yaml");
    BelowApp(r, "ks.yaml");
    assert Under("*/*/*", "ks.yaml") in GENERATE_PATTERNS;
  }

  /** promote.manifest_filename, given a kind's prefix and a cleaned name. */
  function ManifestFilename(prefix: string, name: string): string {
    prefix + "-" + name + ".yaml"
  }

  /** So nothing capture writes into a promoted folder is ever generate's: its names hold a dash. */
  lemma WrittenManifestsAreNotGenerates(r: Release, prefix: string, name: string)
    requires ReleaseOk(r) && '/' !in prefix && '/' !in name
    ensures PromotedManifest(App(r), App(r) + ManifestFilename(prefix, name))
    ensures !GenerateOwns(App(r) + ManifestFilename(prefix, name))
  {
    var rest := ManifestFilename(prefix, name);
    var s := App(r) + rest;
    assert s[|App(r)|..] == rest && rest[|prefix|] == '-';
    assert s[|s| - 5..] == ".yaml";
    NoDash();
    PromotedOverlapsExactly(r, s);
  }

  lemma NoDash()
    ensures '-' !in "kustomization.yaml" && '-' !in "helmrelease.yaml" && '-' !in "ks.yaml"
  {
  }

  // ---- hand-written releases ------------------------------------------------------------------

  /** The working tree as ownership reads it: the files there are, the chart source a file
      app/helmrelease*.yaml names and the name a Helm repository file declares, where there is one. */
  datatype Tree = Tree(files: set<string>, sourceOf: map<string, string>, repositoryOf: map<string, string>)

  function Handwritten(t: Tree, r: Release): bool {
    Dir(r) + "/.handwritten" in t.files
  }

  function Promoted(t: Tree, r: Release): bool {
    Dir(r) + "/.promote" in t.files && !Handwritten(t, r)
  }

  predicate IsHelmrelease(r: Release, s: string) {
    && (App(r) + "helmrelease") <= s && EndsWith(s, ".yaml")
    && |App(r) + "helmrelease.yaml"| <= |s| && '/' !in s[|App(r)|..]
  }

  predicate IsRepositoryFile(s: string) {
    REPOSITORIES <= s && EndsWith(s, ".yaml") && '/' !in s[|REPOSITORIES|..] &&
      s[|REPOSITORIES|..] != "kustomization.yaml"
  }

  /** The chart sources a release's HelmReleases name. */
  function Sources(t: Tree, r: Release): set<string> {
    set h | h in t.files && IsHelmrelease(r, h) && h in t.sourceOf && t.sourceOf[h] != "" :: t.sourceOf[h]
  }

  function NamespaceFile(r: Release): string {
    PROD + r.category + "/" + r.namespace + "/namespace.yaml"
  }

  /** A Helm repository file that declares one of the names. */
  predicate Declares(t: Tree, s: string, names: set<string>) {
    s in t.files && IsRepositoryFile(s) && s in t.repositoryOf && t.repositoryOf[s] in names
  }

  /** A HelmRelease file of the release names that chart source. */
  predicate NamesSource(t: Tree, r: Release, h: string, source: string) {
    IsHelmrelease(r, h) && h in t.sourceOf && t.sourceOf[h] == source && source != ""
  }

  /** What a hand-written release needs: every file in its folder, its namespace.yaml, and the
      repository files its HelmReleases name. */
  predicate Needs(t: Tree, r: Release, s: string) {
    || (s in t.files && Dir(r) + "/" <= s)
    || s == PROD + r.category + "/" + r.namespace + "/namespace.yaml"
    || (s in t.files && IsRepositoryFile(s) && s in t.repositoryOf &&
        exists h :: h in t.files && NamesSource(t, r, h, t.repositoryOf[s]))
  }

  function OwnFiles(t: Tree, r: Release): set<string> {
    if Handwritten(t, r) then (set s | s in t.files && Dir(r) + "/" <= s) + {NamespaceFile(r)} else {}
  }

  function AllOwnFiles(t: Tree, releases: seq<Release>): set<string> {
    if releases == [] then {} else AllOwnFiles(t, releases[..|releases| - 1]) + OwnFiles(t, releases[|releases| - 1])
  }

  function SourcesIfHand(t: Tree, r: Release): set<string> {
    if Handwritten(t, r) then Sources(t, r) else {}
  }

  function AllSources(t: Tree, releases: seq<Release>): set<string> {
    if releases == [] then {} else
      AllSources(t, releases[..|releases| - 1]) + SourcesIfHand(t, releases[|releases| - 1])
  }

  function Protected(t: Tree, releases: seq<Release>): set<string> {
    AllOwnFiles(t, releases) + set s | s in t.files && Declares(t, s, AllSources(t, releases))
  }

  /** handwritten_protected_paths: the two sets grown release by release, then the repositories. */
  method ProtectedPaths(t: Tree, releases: seq<Release>) returns (protected: set<string>)
    ensures protected == Protected(t, releases)
  {
    protected := {};
    var sources: set<string> := {};
    var i := 0;
    while i < |releases|
      invariant i <= |releases|
      invariant protected == AllOwnFiles(t, releases[..i])
      invariant sources == AllSources(t, releases[..i])
    {
      var r := releases[i];
      assert releases[..i + 1][..i] == releases[..i];
      if Handwritten(t, r) {
        protected := protected + ((set s | s in t.files && Dir(r) + "/" <= s) + {NamespaceFile(r)});
        sources := sources + Sources(t, r);
      }
      i := i + 1;
    }
    assert releases[..i] == releases;
    protected := protected + (set s | s in t.files && Declares(t, s, sources));
  }

  lemma {:induction false} InAllOwnFiles(t: Tree, releases: seq<Release>, s: string)
    ensures s in AllOwnFiles(t, releases) <==> exists r :: r in releases && s in OwnFiles(t, r)
  {
    if releases != [] {
      var more, last := releases[..|releases| - 1], releases[|releases| - 1];
      InAllOwnFiles(t, more, s);
      assert releases == more + [last];
    }
  }

  lemma {:induction false} InAllSources(t: Tree, releases: seq<Release>, n: string)
    ensures n in AllSources(t, releases) <==> exists r :: r in releases && n in SourcesIfHand(t, r)
  {
    if releases != [] {
      var more, last := releases[..|releases| - 1], releases[|releases| - 1];
      InAllSources(t, more, n);
      assert releases == more + [last];
    }
  }

  /** Protected are exactly the paths some hand-written release needs. */
  lemma ProtectedExactly(t: Tree, releases: seq<Release>, s: string)
    ensures s in Protected(t, releases) <==> exists r :: r in releases && Handwritten(t, r) && Needs(t, r, s)
  {
    InAllOwnFiles(t, releases, s);
    if s in t.files && s in t.repositoryOf {
      InAllSources(t, releases, t.repositoryOf[s]);
    }
  }

  // ---- the two owners -------------------------------------------------------------------------

  /** The release folders capture writes manifests into. */
  function PromotedAmong(t: Tree, releases: seq<Release>): seq<Release> {
    if releases == [] then []
    else (if Promoted(t, releases[0]) then [releases[0]] else []) + PromotedAmong(t, releases[1..])
  }

  predicate CaptureOwner(t: Tree, releases: seq<Release>, s: string) {
    (CaptureOwns(s) || PromotedOwns(PromotedAmong(t, releases), s)) && s !in Protected(t, releases)
  }

  predicate GenerateOwner(t: Tree, releases: seq<Release>, s: string) {
    GenerateOwns(s) && s !in Protected(t, releases)
  }

  lemma {:induction false} PromotedAmongAre(t: Tree, releases: seq<Release>, r: Release)
    ensures r in PromotedAmong(t, releases) <==>
      r in releases && Dir(r) + "/.promote" in t.files && Dir(r) + "/.handwritten" !in t.files
  {
    if releases != [] {
      PromotedAmongAre(t, releases[1..], r);
    }
  }

  /** Where both phases may sweep one file: exactly an unprotected app/helmrelease.yaml or
      app/ks.yaml of a promoted release. */
  lemma OwnersOverlapExactly(t: Tree, releases: seq<Release>, s: string)
    requires forall r :: r in releases ==> ReleaseOk(r)
    ensures CaptureOwner(t, releases, s) && GenerateOwner(t, releases, s) <==>
      s !in Protected(t, releases) && exists r :: r in releases && Promoted(t, r) && NamedBoth(r, s)
  {
    var promoted := PromotedAmong(t, releases);
    forall r ensures r in promoted <==> r in releases && Promoted(t, r) {
      PromotedAmongAre(t, releases, r);
    }
    PromotedOwnsAny(promoted, s);
    ListsAreApart(s);
    forall r | r in releases && Promoted(t, r)
      ensures PromotedManifest(App(r), s) && GenerateOwns(s) <==> NamedBoth(r, s)
    {
      OverlapOfOne(r, s);
    }
  }

  /** The two names under a promoted release's app/ that both lists hold. */
  predicate NamedBoth(r: Release, s: string) {
    s == App(r) + "helmrelease.yaml" || s == App(r) + "ks.yaml"
  }

  lemma OverlapOfOne(r: Release, s: string)
    requires ReleaseOk(r)
    ensures PromotedManifest(App(r), s) && GenerateOwns(s) <==> NamedBoth(r, s)
  {
    if PromotedManifest(App(r), s) && GenerateOwns(s) {
      OverlapNames(r, s);
    }
    if NamedBoth(r, s) {
      HelmreleaseMatches(r);
      KsMatches(r);
      TwoNames(r);
    }
  }

  lemma OverlapNames(r: Release, s: string)
    requires ReleaseOk(r) && PromotedManifest(App(r), s) && GenerateOwns(s)
    ensures NamedBoth(r, s)
  {
    PromotedOverlapsExactly(r, s);
    assert s == App(r) + s[|App(r)|..];
  }

  lemma TwoNames(r: Release)
    ensures PromotedManifest(App(r), App(r) + "helmrelease.yaml") && PromotedManifest(App(r), App(r) + "ks.yaml")
  {
    NameBelow(App(r), "helmrelease.yaml");
    NameBelow(App(r), "ks.yaml");
  }

  lemma NameBelow(d: string, name: string)
    requires '/' !in name && name != "kustomization.yaml" && EndsWith(name, ".yaml")
    ensures PromotedManifest(d, d + name)
  {
    var s := d + name;
    assert s[|d|..] == name;
    assert s[|s| - 5..] == name[|name| - 5..];
  }

  /** Nothing in a hand-written release's folder, nor its namespace.yaml, nor a repository file one
      of its HelmReleases names, belongs to either phase. */
  lemma HandwrittenIsNobodys(t: Tree, releases: seq<Release>, r: Release, s: string)
    requires r in releases && Handwritten(t, r) && Needs(t, r, s)
    ensures !CaptureOwner(t, releases, s) && !GenerateOwner(t, releases, s)
  {
    ProtectedExactly(t, releases, s);
  }
}
