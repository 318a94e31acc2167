/** Which Flux entrypoint an object came from (scripts/k8s_backup/fluxowner.py): a walk up the
    Kustomizations that applied each other, on whatever graph their labels make. */
module FluxOwner {
  import opened Text

  /** A Flux Kustomization, by namespace (None where a label is missing) and name. */
  datatype Key = Key(namespace: Option<string>, name: string)

  /** Which Kustomization applied each Kustomization there is; None for one that Flux didn't apply. */
  type Parents = map<Key, Option<Key>>

  /** `self._parent.get(key)`. */
  function Parent(ps: Parents, key: Key): Option<Key> {
    if key in ps then ps[key] else None
  }

  /** The walk goes on from the last key of the chain. */
  predicate GoesOn(ps: Parents, chain: seq<Key>)
    requires chain != []
  {
    Parent(ps, chain[|chain| - 1]).Some? && Parent(ps, chain[|chain| - 1]).value !in chain
  }

  /** Each key but the first applied the one before it, and none comes twice. */
  predicate IsChain(ps: Parents, chain: seq<Key>) {
    && (forall i :: 0 <= i < |chain| - 1 ==> Parent(ps, chain[i]) == Some(chain[i + 1]))
    && (forall i, j :: 0 <= i < j < |chain| ==> chain[i] != chain[j])
  }

  /** A chain is at most one longer than there are Kustomizations: all but its last are known. */
  lemma ChainIsShort(ps: Parents, chain: seq<Key>)
    requires IsChain(ps, chain)
    ensures |chain| <= |ps.Keys| + 1
  {
    if |chain| > 1 {
      var known := chain[..|chain| - 1];
      forall i | 0 <= i < |known| ensures known[i] in ps.Keys {
        assert Parent(ps, chain[i]) == Some(chain[i + 1]);
      }
      DistinctFit(known, ps.Keys);
    }
  }

  lemma {:induction false} DistinctFit(keys: seq<Key>, all: set<Key>)
    requires forall i :: 0 <= i < |keys| ==> keys[i] in all
    requires forall i, j :: 0 <= i < j < |keys| ==> keys[i] != keys[j]
    ensures |keys| <= |all|
  {
    if keys != [] {
      DistinctFit(keys[1..], all - {keys[0]});
    }
  }

  function ParentsOf(ks: seq<(Key, Option<Key>)>): Parents {
    if ks == [] then map[] else ParentsOf(ks[..|ks| - 1])[ks[|ks| - 1].0 := ks[|ks| - 1].1]
  }

  /** The Kustomizations known are those listed, each with the parent its last entry gives. */
  lemma {:induction false} LaterWins(ks: seq<(Key, Option<Key>)>, k: Key)
    ensures k in ParentsOf(ks) <==> exists i :: 0 <= i < |ks| && ks[i].0 == k
    ensures forall i :: 0 <= i < |ks| && ks[i].0 == k && k !in Named(ks[i + 1..]) ==>
      k in ParentsOf(ks) && ParentsOf(ks)[k] == ks[i].1
  {
    if ks != [] {
      var more, last := ks[..|ks| - 1], |ks| - 1;
      LaterWins(more, k);
      assert forall i :: 0 <= i < last ==> more[i] == ks[i];
      forall i | 0 <= i < |ks| && ks[i].0 == k && k !in Named(ks[i + 1..])
        ensures k in ParentsOf(ks) && ParentsOf(ks)[k] == ks[i].1
      {
        if i < last {
          assert ks[i + 1..][last - i - 1] == ks[last];
          assert more[i + 1..] == ks[i + 1..][..last - i - 1];
          assert k !in Named(more[i + 1..]);
        }
      }
    }
  }

  function Named(ks: seq<(Key, Option<Key>)>): set<Key> {
    set i | 0 <= i < |ks| :: ks[i].0
  }

  class FluxOwnership {
    var parents: Parents

    constructor (kustomizations: seq<(Key, Option<Key>)>)
      ensures parents == ParentsOf(kustomizations)
    {
      parents := map[];
      new;
      for n := 0 to |kustomizations|
        invariant parents == ParentsOf(kustomizations[..n])
      {
        assert kustomizations[..n + 1][..n] == kustomizations[..n];
        parents := parents[kustomizations[n].0 := kustomizations[n].1];
      }
      assert kustomizations[..|kustomizations|] == kustomizations;
    }

    /** The walk of `entrypoint`: it ends on any graph, cycles and unknown parents included. */
    method Walk(key: Key) returns (chain: seq<Key>)
      ensures chain != [] && chain[0] == key && IsChain(parents, chain) && !GoesOn(parents, chain)
      ensures |chain| <= |parents.Keys| + 1
    {
      chain := [key];
      while true
        invariant chain != [] && chain[0] == key && IsChain(parents, chain)
        decreases |parents.Keys| + 1 - |chain|
      {
        ChainIsShort(parents, chain);
        var parent := Parent(parents, chain[|chain| - 1]);
        if parent.None? || parent.value in chain {
          break;
        }
        ChainIsShort(parents, chain + [parent.value]);
        chain := chain + [parent.value];
      }
    }

    /** entrypoint, of the key an object's labels name: the last but one of the walk. */
    method Entrypoint(appliedBy: Option<Key>) returns (r: Option<string>)
      ensures r.None? <==> appliedBy.None? || appliedBy.value !in parents
      ensures r.Some? ==> exists chain :: WalksTo(parents, appliedBy.value, chain) && r.value == Top(chain).name
    {
      if appliedBy.None? || appliedBy.value !in parents {
        return None;
      }
      var key := appliedBy.value;
      var chain := Walk(key);
      assert WalksTo(parents, key, chain);
      return Some(if |chain| >= 2 then chain[|chain| - 2].name else key.name);
    }
  }

  ghost predicate WalksTo(ps: Parents, key: Key, chain: seq<Key>) {
    chain != [] && chain[0] == key && IsChain(ps, chain) && !GoesOn(ps, chain)
  }

  /** The last but one of a walk, or its only key. */
  function Top(chain: seq<Key>): Key
    requires chain != []
  {
    if |chain| >= 2 then chain[|chain| - 2] else chain[0]
  }

  /** There is one walk from a key, however it is made. */
  lemma {:induction false} OneWalk(ps: Parents, a: seq<Key>, b: seq<Key>, n: nat)
    requires a != [] && b != [] && a[0] == b[0] && IsChain(ps, a) && IsChain(ps, b)
    requires n <= |a| && n <= |b|
    ensures a[..n] == b[..n]
  {
    if n > 1 {
      OneWalk(ps, a, b, n - 1);
      assert a[n - 2] == a[..n - 1][n - 2] == b[..n - 1][n - 2] == b[n - 2];
      assert Parent(ps, a[n - 2]) == Some(a[n - 1]) && Parent(ps, b[n - 2]) == Some(b[n - 1]);
      assert a[..n] == a[..n - 1] + [a[n - 1]] && b[..n] == b[..n - 1] + [b[n - 1]];
    }
  }

  lemma WalkIsUnique(ps: Parents, key: Key, a: seq<Key>, b: seq<Key>)
    requires WalksTo(ps, key, a) && WalksTo(ps, key, b)
    ensures a == b
  {
    var n := if |a| < |b| then |a| else |b|;
    OneWalk(ps, a, b, n);
    assert a[..|a|] == a && b[..|b|] == b;
    if |a| < |b| {
      Longer(ps, a, b);
    } else if |b| < |a| {
      Longer(ps, b, a);
    }
  }

  lemma Longer(ps: Parents, a: seq<Key>, b: seq<Key>)
    requires a != [] && |a| < |b| && a == b[..|a|] && IsChain(ps, b)
    ensures GoesOn(ps, a)
  {
    var next := b[|a|];
    assert Parent(ps, b[|a| - 1]) == Some(next) && a[|a| - 1] == b[|a| - 1];
    forall i | 0 <= i < |a| ensures a[i] != next {
      assert a[i] == b[i];
    }
  }

  lemma SuffixIsChain(ps: Parents, chain: seq<Key>, i: nat)
    requires IsChain(ps, chain) && i <= |chain|
    ensures IsChain(ps, chain[i..])
  {
    var rest := chain[i..];
    forall j | 0 <= j < |rest| - 1 ensures Parent(ps, rest[j]) == Some(rest[j + 1]) {
      assert rest[j] == chain[i + j] && rest[j + 1] == chain[i + j + 1];
    }
    forall j, k | 0 <= j < k < |rest| ensures rest[j] != rest[k] {
      assert rest[j] == chain[i + j] && rest[k] == chain[i + k];
    }
  }

  /** The walk ends by pointing back at its k-th key. */
  predicate PointsBack(ps: Parents, chain: seq<Key>, k: nat)
    requires k < |chain|
  {
    Parent(ps, chain[|chain| - 1]) == Some(chain[k])
  }

  /** The walk from a key on the way is the rest of the walk, unless that ends by pointing
      back to before the key. */
  lemma RestIsWalk(ps: Parents, key: Key, chain: seq<Key>, i: nat)
    requires WalksTo(ps, key, chain) && i < |chain|
    requires forall k :: 0 <= k < i ==> !PointsBack(ps, chain, k)
    ensures WalksTo(ps, chain[i], chain[i..])
  {
    var rest, last := chain[i..], chain[|chain| - 1];
    SuffixIsChain(ps, chain, i);
    assert rest[|rest| - 1] == last;
    if Parent(ps, last).Some? {
      var k :| 0 <= k < |chain| && chain[k] == Parent(ps, last).value;
      assert PointsBack(ps, chain, k);
      assert rest[k - i] == chain[k];
    }
  }

  /** When it does, the walk goes on round to the key before its own. */
  lemma RoundIsWalk(ps: Parents, key: Key, chain: seq<Key>, i: nat, k: nat)
    requires WalksTo(ps, key, chain) && k < i < |chain| && PointsBack(ps, chain, k)
    ensures WalksTo(ps, chain[i], chain[i..] + chain[k..i])
  {
    var m := |chain|;
    var walk := chain[i..] + chain[k..i];
    assert forall j :: 0 <= j < m - i ==> walk[j] == chain[i + j];
    assert forall j :: m - i <= j < m - k ==> walk[j] == chain[k + j - (m - i)];
    forall j | 0 <= j < |walk| - 1 ensures Parent(ps, walk[j]) == Some(walk[j + 1]) {
      if j < m - i - 1 {
        assert Parent(ps, chain[i + j]) == Some(chain[i + j + 1]);
      } else if j >= m - i {
        var q := k + j - (m - i);
        assert Parent(ps, chain[q]) == Some(chain[q + 1]);
      }
    }
    assert walk[|walk| - 1] == chain[i - 1];
    assert Parent(ps, chain[i - 1]) == Some(chain[i]) && walk[0] == chain[i];
  }

  /** When a walk reaches a self-applied root, everything applied on the way has one entrypoint: the
      Kustomization directly below the root, whichever of the chain's Kustomizations applied it. Only
      what the root itself applied has the root's own name. */
  lemma OneEntrypointPerChain(ps: Parents, key: Key, chain: seq<Key>, i: nat, walk: seq<Key>)
    requires WalksTo(ps, key, chain) && i < |chain|
    requires Parent(ps, chain[|chain| - 1]) == Some(chain[|chain| - 1])
    requires WalksTo(ps, chain[i], walk)
    ensures i < |chain| - 1 ==>
      Top(walk) == chain[|chain| - 2] && Parent(ps, chain[|chain| - 2]) == Some(chain[|chain| - 1])
    ensures i == |chain| - 1 ==> Top(walk) == chain[i]
  {
    RestIsWalk(ps, key, chain, i);
    WalkIsUnique(ps, chain[i], chain[i..], walk);
  }

  /** The names a walk that points back at its k-th key can end in, from a key past that one. */
  predicate OneNameFrom(chain: seq<Key>, k: nat)
    requires k + 2 < |chain|
  {
    var name := chain[|chain| - 2].name;
    chain[|chain| - 1].name == name && forall j :: k <= j < |chain| - 3 ==> chain[j].name == name
  }

  /** The name `entrypoint` gives from a key past the k-th: the walk's last key, or two before the key. */
  function PastName(chain: seq<Key>, i: nat, k: nat): string
    requires k < i < |chain| - 1
  {
    if i == k + 1 then chain[|chain| - 1].name else chain[i - 2].name
  }

  lemma RoundTop(chain: seq<Key>, i: nat, k: nat)
    requires k < i < |chain| - 1
    ensures Top(chain[i..] + chain[k..i]).name == PastName(chain, i, k)
  {
    var walk, m := chain[i..] + chain[k..i], |chain|;
    assert |walk| == m - k;
    if i == k + 1 {
      assert walk[|walk| - 2] == chain[m - 1];
    } else {
      assert walk[|walk| - 2] == chain[k..i][i - k - 2] == chain[i - 2];
    }
  }

  lemma PastNames(chain: seq<Key>, k: nat)
    requires k + 2 < |chain|
    ensures OneNameFrom(chain, k) <==> forall i :: k < i < |chain| - 1 ==> PastName(chain, i, k) == Top(chain).name
  {
    var m := |chain|;
    if forall i :: k < i < m - 1 ==> PastName(chain, i, k) == Top(chain).name {
      assert PastName(chain, k + 1, k) == Top(chain).name;
      forall j | k <= j < m - 3 ensures chain[j].name == chain[m - 2].name {
        assert PastName(chain, j + 2, k) == Top(chain).name;
      }
    }
  }

  /** From a key on the walk `entrypoint` gives the name it gives from the first. */
  ghost predicate GivesTop(ps: Parents, chain: seq<Key>, i: nat)
    requires i < |chain|
  {
    forall walk :: WalksTo(ps, chain[i], walk) ==> Top(walk).name == Top(chain).name
  }

  ghost predicate OneEntrypoint(ps: Parents, chain: seq<Key>) {
    forall i :: 0 <= i < |chain| - 1 ==> GivesTop(ps, chain, i)
  }

  lemma BeforeGivesTop(ps: Parents, key: Key, chain: seq<Key>, i: nat)
    requires WalksTo(ps, key, chain) && i < |chain| - 1
    requires forall k :: 0 <= k < i ==> !PointsBack(ps, chain, k)
    ensures GivesTop(ps, chain, i)
  {
    RestIsWalk(ps, key, chain, i);
    forall walk | WalksTo(ps, chain[i], walk) ensures Top(walk) == Top(chain) {
      WalkIsUnique(ps, chain[i], chain[i..], walk);
    }
  }

  lemma PastGivesTop(ps: Parents, key: Key, chain: seq<Key>, i: nat, k: nat)
    requires WalksTo(ps, key, chain) && k < i < |chain| - 1 && PointsBack(ps, chain, k)
    ensures GivesTop(ps, chain, i) <==> PastName(chain, i, k) == Top(chain).name
  {
    var round := chain[i..] + chain[k..i];
    RoundIsWalk(ps, key, chain, i, k);
    RoundTop(chain, i, k);
    forall walk | WalksTo(ps, chain[i], walk) ensures walk == round {
      WalkIsUnique(ps, chain[i], walk, round);
    }
  }

  /** What the Kustomizations below the end of a walk applied has one entrypoint exactly when the
      walk doesn't end by pointing back at a key further back than the last but one, or all the
      names such a round can end in are the same. */
  lemma OneEntrypointExactlyWhen(ps: Parents, key: Key, chain: seq<Key>)
    requires WalksTo(ps, key, chain)
    ensures OneEntrypoint(ps, chain) <==>
      forall k :: 0 <= k < |chain| - 2 && PointsBack(ps, chain, k) ==> OneNameFrom(chain, k)
  {
    if k :| 0 <= k < |chain| - 2 && PointsBack(ps, chain, k) {
      BackOnce(ps, key, chain, k);
      PastNames(chain, k);
      forall i | k < i < |chain| - 1 ensures GivesTop(ps, chain, i) <==> PastName(chain, i, k) == Top(chain).name {
        PastGivesTop(ps, key, chain, i, k);
      }
      forall i | 0 <= i <= k ensures GivesTop(ps, chain, i) {
        BeforeGivesTop(ps, key, chain, i);
      }
    } else {
      forall i | 0 <= i < |chain| - 1 ensures GivesTop(ps, chain, i) {
        BeforeGivesTop(ps, key, chain, i);
      }
    }
  }

  lemma BackOnce(ps: Parents, key: Key, chain: seq<Key>, k: nat)
    requires WalksTo(ps, key, chain) && k < |chain| && PointsBack(ps, chain, k)
    ensures forall j :: 0 <= j < |chain| && PointsBack(ps, chain, j) ==> j == k
  {
    forall j | 0 <= j < |chain| && PointsBack(ps, chain, j) ensures j == k {
      assert chain[j] == chain[k];
    }
  }

  /** Two Kustomizations that applied each other: each is the entrypoint of what it applied, so
      one chain, which never resolves to a root, gives two answers, and None is neither. */
  lemma RingsDisagree(a: Key, b: Key, wa: seq<Key>, wb: seq<Key>)
    requires a.name != b.name
    requires WalksTo(Ring(a, b), a, wa) && WalksTo(Ring(a, b), b, wb)
    ensures a in Ring(a, b) && Top(wa).name == a.name
    ensures b in Ring(a, b) && Top(wb).name == b.name
  {
    WalkIsUnique(Ring(a, b), a, wa, [a, b]);
    WalkIsUnique(Ring(a, b), b, wb, [b, a]);
  }

  function Ring(a: Key, b: Key): Parents {
    map[a := Some(b), b := Some(a)]
  }
}
