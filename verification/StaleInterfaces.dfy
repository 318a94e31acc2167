/** A node's NetBox interfaces that Proxmox no longer has: which are kept, and in what
    order the rest go (stale_interfaces in scripts/netbox_seed.py). */
module StaleInterfaces {
  import opened Sorting

  /** `refs` holds the ids its parent, bridge and LAG fields point at. */
  datatype Interface = Interface(id: int, name: string, hasAddress: bool, hasCable: bool, refs: seq<int>)
  datatype Why = HasAddress | HasCable | UsedBy(name: string)

  /** NetBox's ids are unique. */
  predicate DistinctIds(have: seq<Interface>) {
    forall i, j :: 0 <= i < j < |have| ==> have[i].id != have[j].id
  }

  // ---- what is kept, said without the algorithm ------------------------------------

  /** It stays whatever points at it. */
  predicate StaysByItself(i: Interface, names: set<string>) {
    i.name in names || i.hasAddress || i.hasCable
  }

  /** Each interface on the path points at the next. */
  predicate Path(have: seq<Interface>, p: seq<Interface>) {
    && p != []
    && (forall k :: 0 <= k < |p| ==> p[k] in have)
    && (forall k :: 0 <= k < |p| - 1 ==> p[k + 1].id in p[k].refs)
  }

  ghost predicate Reaches(have: seq<Interface>, names: set<string>, p: seq<Interface>, i: Interface) {
    Path(have, p) && StaysByItself(p[0], names) && p[|p| - 1] == i
  }

  /** Something that stays by itself reaches it by references. */
  ghost predicate Stays(have: seq<Interface>, names: set<string>, i: Interface) {
    exists p :: Reaches(have, names, p, i)
  }

  ghost predicate Removable(have: seq<Interface>, names: set<string>, i: Interface) {
    i in have && !Stays(have, names, i)
  }

  /** No interface that could go reaches itself through others that could go. */
  ghost predicate Acyclic(left: seq<Interface>) {
    !exists p :: Cycle(left, p)
  }

  predicate Cycle(left: seq<Interface>, p: seq<Interface>) {
    Path(left, p) && p[0].id in p[|p| - 1].refs
  }

  ghost predicate Reason(have: seq<Interface>, names: set<string>, i: Interface, why: Why) {
    match why
    case HasAddress => i.hasAddress
    case HasCable => i.hasCable && !i.hasAddress
    case UsedBy(n) =>
      !i.hasAddress && !i.hasCable
      && exists u :: u in have && u.name == n && Stays(have, names, u) && i.id in u.refs
  }

  /** Deleting along the order, nothing left ever points at something deleted. */
  ghost predicate SafeOrder(have: seq<Interface>, order: seq<Interface>) {
    forall q, s :: 0 <= q < |order| && s in have && order[q].id in s.refs ==> s in order[..q]
  }

  lemma SafeAfterEveryPrefix(have: seq<Interface>, order: seq<Interface>, k: nat, survivor: Interface,
                             deleted: Interface)
    requires SafeOrder(have, order) && k <= |order|
    requires survivor in have && survivor !in order[..k] && deleted in order[..k]
    ensures deleted.id !in survivor.refs
  {
    var q :| 0 <= q < k && order[q] == deleted;
    assert forall x :: x in order[..q] ==> x in order[..k];
  }

  lemma PathPrefix(have: seq<Interface>, p: seq<Interface>, n: nat)
    requires Path(have, p) && 1 <= n <= |p|
    ensures Path(have, p[..n])
  {
    forall k | 0 <= k < n - 1 ensures p[..n][k + 1].id in p[..n][k].refs { assert p[k + 1].id in p[k].refs; }
  }

  lemma PathAppend(have: seq<Interface>, p: seq<Interface>, i: Interface)
    requires Path(have, p) && i in have && i.id in p[|p| - 1].refs
    ensures Path(have, p + [i])
  {
    var q := p + [i];
    forall k | 0 <= k < |q| - 1 ensures q[k + 1].id in q[k].refs {
      if k < |p| - 1 { assert p[k + 1].id in p[k].refs; }
    }
  }

  lemma PathPrepend(have: seq<Interface>, u: Interface, p: seq<Interface>)
    requires Path(have, p) && u in have && p[0].id in u.refs
    ensures Path(have, [u] + p)
  {
    var q := [u] + p;
    forall k | 0 <= k < |q| - 1 ensures q[k + 1].id in q[k].refs {
      if k > 0 { assert p[k - 1 + 1].id in p[k - 1].refs; }
    }
  }

  // ---- the fixed point ---------------------------------------------------------------

  lemma StaysGrows(have: seq<Interface>, names: set<string>, u: Interface, i: Interface)
    requires Stays(have, names, u) && i in have && i.id in u.refs
    ensures Stays(have, names, i)
  {
    var p :| Reaches(have, names, p, u);
    PathAppend(have, p, i);
    assert Reaches(have, names, p + [i], i);
  }

  lemma StaysItself(have: seq<Interface>, names: set<string>, i: Interface)
    requires i in have && StaysByItself(i, names)
    ensures Stays(have, names, i)
  {
    assert Reaches(have, names, [i], i);
  }

  /** A set of interfaces holding what stays by itself and all it points at holds all that stays. */
  lemma {:induction false} ClosedHoldsStays(have: seq<Interface>, names: set<string>, kept: set<int>,
                                            p: seq<Interface>, i: Interface)
    requires Reaches(have, names, p, i)
    requires forall x :: x in have && StaysByItself(x, names) ==> x.id in kept
    requires forall x, y :: x in have && y in have && x.id in kept && y.id in x.refs ==> y.id in kept
    ensures i.id in kept
    decreases |p|
  {
    if |p| > 1 {
      var q := p[..|p| - 1];
      PathPrefix(have, p, |p| - 1);
      assert Reaches(have, names, q, q[|q| - 1]);
      ClosedHoldsStays(have, names, kept, q, q[|q| - 1]);
      assert p[|p| - 2 + 1].id in p[|p| - 2].refs;
    }
  }

  // ---- the delete order -----------------------------------------------------------------

  function PointedAt(left: seq<Interface>): set<int> {
    set i, r | i in left && r in i.refs :: r
  }

  function Without(left: seq<Interface>, drop: set<int>): seq<Interface> {
    if left == [] then []
    else (if left[0].id in drop then [] else [left[0]]) + Without(left[1..], drop)
  }

  function Only(left: seq<Interface>, keep: set<int>): seq<Interface> {
    if left == [] then []
    else (if left[0].id in keep then [left[0]] else []) + Only(left[1..], keep)
  }

  lemma {:induction false} WithoutIs(left: seq<Interface>, drop: set<int>)
    requires DistinctIds(left)
    ensures forall i :: i in Without(left, drop) <==> i in left && i.id !in drop
    ensures DistinctIds(Without(left, drop)) && |Without(left, drop)| <= |left|
    ensures (exists i :: i in left && i.id in drop) ==> |Without(left, drop)| < |left|
  {
    if left != [] {
      var tl := left[1..];
      assert DistinctIds(tl) by { assert forall k :: 0 <= k < |tl| ==> tl[k] == left[k + 1]; }
      WithoutIs(tl, drop);
      forall x | x in tl ensures x.id != left[0].id { var k :| 0 <= k < |tl| && tl[k] == x; assert left[k + 1] == x; }
      assert forall x :: x in left <==> x == left[0] || x in tl;
    }
  }

  /** The interfaces nothing left points at, by name. */
  function Ready(left: seq<Interface>): seq<Interface> {
    SortByKey(Without(left, PointedAt(left)), (i: Interface) => i.name)
  }

  function Ids(xs: seq<Interface>): set<int> {
    set i | i in xs :: i.id
  }

  function NextLeft(left: seq<Interface>): seq<Interface> {
    Without(left, Ids(Ready(left)))
  }

  lemma ReadyIs(left: seq<Interface>)
    requires DistinctIds(left)
    ensures forall i :: i in Ready(left) <==> i in left && i.id !in PointedAt(left)
    ensures Distinct(Ready(left))
  {
    var free := Without(left, PointedAt(left));
    WithoutIs(left, PointedAt(left));
    SortByKeyHasSame(free, (i: Interface) => i.name);
    SortByKeyDistinct(free, (i: Interface) => i.name);
  }

  lemma ReadyIds(left: seq<Interface>, i: Interface)
    requires DistinctIds(left) && i in left
    ensures i.id in Ids(Ready(left)) <==> i.id !in PointedAt(left)
  {
    ReadyIs(left);
    if i.id in Ids(Ready(left)) {
      var j :| j in Ready(left) && j.id == i.id;
    }
    if i.id !in PointedAt(left) { assert i in Ready(left); }
  }

  lemma NextLeftIs(left: seq<Interface>)
    requires DistinctIds(left)
    ensures DistinctIds(NextLeft(left))
    ensures forall i :: i in NextLeft(left) <==> i in left && i.id in PointedAt(left)
    ensures Ready(left) != [] ==> |NextLeft(left)| < |left|
    ensures Ready(left) == [] ==> NextLeft(left) == left
  {
    var ids := Ids(Ready(left));
    WithoutIs(left, ids);
    forall i ensures i in NextLeft(left) <==> i in left && i.id in PointedAt(left) {
      if i in left { ReadyIds(left, i); }
    }
    if Ready(left) == [] {
      assert ids == {};
      DropNothing(left);
    } else {
      ReadyIs(left);
      var r := Ready(left)[0];
      assert r in Ready(left);
      assert r in left && r.id in ids;
    }
  }

  lemma {:induction false} DropNothing(left: seq<Interface>)
    ensures Without(left, {}) == left
  {
    if left != [] { DropNothing(left[1..]); }
  }

  // ---- a layer is never empty, unless there is a cycle -----------------------------------

  lemma {:induction false} DistinctCard(p: seq<Interface>, left: seq<Interface>)
    requires Distinct(p) && forall k :: 0 <= k < |p| ==> p[k] in left
    ensures |p| <= |left|
  {
    var a, b := set x | x in p, set x | x in left;
    DistinctSize(p);
    SetSize(left);
    assert a <= b;
    SubsetSize(a, b);
  }

  lemma SubsetSize(a: set<Interface>, b: set<Interface>)
    requires a <= b
    ensures |a| <= |b|
  {
    assert b == a + (b - a);
  }

  lemma {:induction false} DistinctSize(p: seq<Interface>)
    requires Distinct(p)
    ensures |set x | x in p| == |p|
  {
    if p != [] {
      var tl := p[1..];
      assert forall k :: 0 <= k < |tl| ==> tl[k] == p[k + 1];
      DistinctSize(tl);
      assert (set x | x in p) == {p[0]} + set x | x in tl;
    }
  }

  lemma {:induction false} SetSize(p: seq<Interface>)
    ensures |set x | x in p| <= |p|
  {
    if p != [] {
      SetSize(p[1..]);
      assert (set x | x in p) == {p[0]} + set x | x in p[1..];
    }
  }

  lemma Pointer(left: seq<Interface>, id: int) returns (u: Interface)
    requires id in PointedAt(left)
    ensures u in left && id in u.refs
  {
    u :| u in left && id in u.refs;
  }

  lemma DistinctPrepend(u: Interface, p: seq<Interface>)
    requires Distinct(p) && u !in p
    ensures Distinct([u] + p)
  {
    var q := [u] + p;
    forall i, j | 0 <= i < j < |q| ensures q[i] != q[j] {
      if i > 0 { assert p[i - 1] != p[j - 1]; } else { assert q[j] == p[j - 1]; }
    }
  }

  /** Following who points at whom backwards among finitely many interfaces comes round. */
  lemma {:induction false} BackwardsComesRound(left: seq<Interface>, p: seq<Interface>) returns (c: seq<Interface>)
    requires Path(left, p) && Distinct(p)
    requires forall i :: i in left ==> i.id in PointedAt(left)
    ensures Cycle(left, c)
    decreases |left| - |p|
  {
    DistinctCard(p, left);
    assert p[0] in left;
    var u := Pointer(left, p[0].id);
    if u in p {
      var k :| 0 <= k < |p| && p[k] == u;
      c := p[..k + 1];
      PathPrefix(left, p, k + 1);
    } else {
      PathPrepend(left, u, p);
      DistinctPrepend(u, p);
      DistinctCard([u] + p, left);
      c := BackwardsComesRound(left, [u] + p);
    }
  }

  lemma CycleIsPointedAt(left: seq<Interface>, p: seq<Interface>, k: nat)
    requires Cycle(left, p) && k < |p|
    ensures p[k].id in PointedAt(left)
  {
    if k == 0 {
      assert p[|p| - 1] in left;
    } else {
      assert p[k - 1 + 1].id in p[k - 1].refs && p[k - 1] in left;
    }
  }

  lemma AcyclicHasReady(left: seq<Interface>)
    requires DistinctIds(left) && left != [] && Acyclic(left)
    ensures Ready(left) != []
  {
    if Ready(left) == [] {
      NoneReady(left);
      assert Path(left, [left[0]]);
      var c := BackwardsComesRound(left, [left[0]]);
    }
  }

  lemma NoneReady(left: seq<Interface>)
    requires DistinctIds(left)
    ensures Ready(left) == [] ==> forall i :: i in left ==> i.id in PointedAt(left)
  {
    ReadyIs(left);
    assert forall i :: i in left ==> i in Ready(left) || i.id in PointedAt(left);
  }

  lemma AcyclicBelow(left: seq<Interface>, part: seq<Interface>)
    requires Acyclic(left) && forall i :: i in part ==> i in left
    ensures Acyclic(part)
  {
    if p :| Cycle(part, p) { assert Cycle(left, p); }
  }

  /** What the second loop has left after n rounds. */
  function Rounds(left: seq<Interface>, n: nat): seq<Interface>
    decreases n
  {
    if n == 0 then left else Rounds(NextLeft(left), n - 1)
  }

  lemma {:induction false} RoundsEnd(left: seq<Interface>) returns (n: nat)
    requires DistinctIds(left) && Acyclic(left)
    ensures Rounds(left, n) == []
    decreases |left|
  {
    if left == [] {
      n := 0;
    } else {
      AcyclicHasReady(left);
      NextLeftIs(left);
      AcyclicBelow(left, NextLeft(left));
      n := RoundsEnd(NextLeft(left));
      n := n + 1;
    }
  }

  lemma {:induction false} CycleSurvives(left: seq<Interface>, p: seq<Interface>, n: nat)
    requires DistinctIds(left) && Cycle(left, p)
    ensures p[0] in Rounds(left, n)
    decreases n
  {
    if n > 0 {
      CycleStays(left, p);
      CycleSurvives(NextLeft(left), p, n - 1);
    }
  }

  lemma CycleStays(left: seq<Interface>, p: seq<Interface>)
    requires DistinctIds(left) && Cycle(left, p)
    ensures DistinctIds(NextLeft(left)) && Cycle(NextLeft(left), p)
  {
    NextLeftIs(left);
    forall k | 0 <= k < |p| ensures p[k] in NextLeft(left) { CycleIsPointedAt(left, p, k); }
  }

  /** The delete loop ends exactly when no removable interfaces refer round in a cycle. */
  lemma EndsExactlyWhenAcyclic(left: seq<Interface>)
    requires DistinctIds(left)
    ensures (exists n: nat :: Rounds(left, n) == []) <==> Acyclic(left)
  {
    if Acyclic(left) {
      var n := RoundsEnd(left);
    } else {
      var p :| Cycle(left, p);
      forall n: nat ensures Rounds(left, n) != [] { CycleSurvives(left, p, n); }
    }
  }

  const PORT := Interface(1, "a", false, false, [2])
  const BRIDGE := Interface(2, "b", false, false, [1])

  /** The input that shows it: two gone interfaces, one the other's bridge and that one its parent. Both
      may go, and the loop never takes either. */
  lemma TwoPointAtEachOther(n: nat)
    ensures DistinctIds([PORT, BRIDGE]) && Removable([PORT, BRIDGE], {}, PORT) && Removable([PORT, BRIDGE], {}, BRIDGE)
    ensures Rounds([PORT, BRIDGE], n) != []
  {
    var left := [PORT, BRIDGE];
    assert forall i :: i in left ==> !StaysByItself(i, {});
    forall p | Path(left, p) ensures p[0] in left {}
    assert left[0] == PORT && left[1] == BRIDGE;
    assert Cycle(left, left);
    CycleSurvives(left, left, n);
  }

  // ---- the algorithm -----------------------------------------------------------------------

  ghost predicate SoundWhy(have: seq<Interface>, names: set<string>, why: map<int, Why>) {
    forall i :: i in have && i.id in why ==>
      i.name !in names && Stays(have, names, i) && Reason(have, names, i, why[i.id])
  }

  predicate RootsIn(have: seq<Interface>, names: set<string>, why: map<int, Why>) {
    forall i :: i in have && i.name !in names && (i.hasAddress || i.hasCable) ==> i.id in why
  }

  function Gone(have: seq<Interface>, names: set<string>): set<int> {
    set i | i in have && i.name !in names :: i.id
  }

  predicate Covered(refs: seq<int>, gone: set<int>, why: map<int, Why>) {
    forall r :: r in refs && r in gone ==> r in why
  }

  /** Nothing this interface points at still has to be kept because of it. */
  predicate Settled(i: Interface, gone: set<int>, why: map<int, Why>) {
    (i.id in gone && i.id !in why) || Covered(i.refs, gone, why)
  }

  lemma FixedPointIsStays(have: seq<Interface>, names: set<string>, why: map<int, Why>)
    requires DistinctIds(have) && RootsIn(have, names, why) && SoundWhy(have, names, why)
    requires forall i :: i in have ==> Settled(i, Gone(have, names), why)
    ensures forall i :: i in have ==> (Stays(have, names, i) <==> i.name in names || i.id in why)
  {
    var gone := Gone(have, names);
    var kept := set i | i in have && (i.name in names || i.id in why) :: i.id;
    forall x, y | x in have && y in have && x.id in kept && y.id in x.refs ensures y.id in kept {
      var z :| z in have && z.id == x.id && (z.name in names || z.id in why);
      SameId(have, x, z);
      if x.id in gone {
        var w :| w in have && w.name !in names && w.id == x.id;
        SameId(have, x, w);
      }
      assert Settled(x, gone, why);
      if y.name !in names { assert y.id in gone; }
    }
    forall i | i in have ensures Stays(have, names, i) <==> i.name in names || i.id in why {
      if Stays(have, names, i) {
        var p :| Reaches(have, names, p, i);
        ClosedHoldsStays(have, names, kept, p, i);
        var z :| z in have && z.id == i.id && (z.name in names || z.id in why);
        SameId(have, i, z);
      } else if i.name in names {
        StaysItself(have, names, i);
      }
    }
  }

  lemma SameId(have: seq<Interface>, i: Interface, j: Interface)
    requires DistinctIds(have) && i in have && j in have && i.id == j.id
    ensures i == j
  {
  }

  lemma KeepIsSound(have: seq<Interface>, names: set<string>, why: map<int, Why>, u: Interface, r: int)
    requires DistinctIds(have) && SoundWhy(have, names, why) && RootsIn(have, names, why)
    requires u in have && (u.id in Gone(have, names) ==> u.id in why)
    requires r in u.refs && r in Gone(have, names) && r !in why
    ensures SoundWhy(have, names, why[r := UsedBy(u.name)])
  {
    if u.name in names { StaysItself(have, names, u); } else { assert u.id in Gone(have, names); }
    forall i | i in have && i.id == r
      ensures i.name !in names && Stays(have, names, i) && Reason(have, names, i, UsedBy(u.name))
    {
      StaysGrows(have, names, u, i);
      var g :| g in have && g.name !in names && g.id == r;
      SameId(have, i, g);
    }
  }

  ghost predicate WhyOk(have: seq<Interface>, names: set<string>, why: map<int, Why>) {
    why.Keys <= Gone(have, names) && SoundWhy(have, names, why) && RootsIn(have, names, why)
  }

  /** What has an address or a cable stays. */
  method Roots(have: seq<Interface>, names: set<string>) returns (why: map<int, Why>)
    requires DistinctIds(have)
    ensures WhyOk(have, names, why)
  {
    why := map[];
    for k := 0 to |have|
      invariant why.Keys <= Gone(have, names) && SoundWhy(have, names, why) && RootsIn(have[..k], names, why)
    {
      var i := have[k];
      assert have[..k + 1] == have[..k] + [i];
      if i.name !in names && (i.hasAddress || i.hasCable) {
        assert i.id in Gone(have, names);
        forall j | j in have && j.id == i.id ensures j == i { SameId(have, i, j); }
        StaysItself(have, names, i);
        why := why[i.id := if i.hasAddress then HasAddress else HasCable];
      }
    }
    assert have[..|have|] == have;
  }

  lemma KeepIsOk(have: seq<Interface>, names: set<string>, why: map<int, Why>, u: Interface, r: int)
    requires DistinctIds(have) && WhyOk(have, names, why)
    requires u in have && (u.id in Gone(have, names) ==> u.id in why)
    requires r in u.refs && r in Gone(have, names) && r !in why
    ensures WhyOk(have, names, why[r := UsedBy(u.name)])
    ensures why.Keys < why[r := UsedBy(u.name)].Keys
  {
    KeepIsSound(have, names, why, u, r);
  }

  function KeepEach(why: map<int, Why>, gone: set<int>, name: string, refs: seq<int>): map<int, Why> {
    if refs == [] then why
    else
      var w, r := KeepEach(why, gone, name, refs[..|refs| - 1]), refs[|refs| - 1];
      if r in gone && r !in w then w[r := UsedBy(name)] else w
  }

  lemma {:induction false} KeepEachIs(why: map<int, Why>, gone: set<int>, name: string, refs: seq<int>)
    ensures Covered(refs, gone, KeepEach(why, gone, name, refs))
    ensures why.Keys <= KeepEach(why, gone, name, refs).Keys
    ensures KeepEach(why, gone, name, refs) == why || why.Keys < KeepEach(why, gone, name, refs).Keys
    decreases |refs|
  {
    if refs != [] {
      KeepEachIs(why, gone, name, refs[..|refs| - 1]);
      assert refs == refs[..|refs| - 1] + [refs[|refs| - 1]];
    }
  }

  lemma {:induction false} KeepEachOk(have: seq<Interface>, names: set<string>, why: map<int, Why>, u: Interface,
                                      refs: seq<int>)
    requires DistinctIds(have) && WhyOk(have, names, why)
    requires u in have && (u.id in Gone(have, names) ==> u.id in why)
    requires forall r :: r in refs ==> r in u.refs
    ensures WhyOk(have, names, KeepEach(why, Gone(have, names), u.name, refs))
    decreases |refs|
  {
    if refs != [] {
      var fewer, r := refs[..|refs| - 1], refs[|refs| - 1];
      KeepEachOk(have, names, why, u, fewer);
      KeepEachIs(why, Gone(have, names), u.name, fewer);
      var w := KeepEach(why, Gone(have, names), u.name, fewer);
      if r in Gone(have, names) && r !in w { KeepIsOk(have, names, w, u, r); }
    }
  }

  /** What one interface that stays points at stays too. */
  method KeepPointedAt(gone: set<int>, i: Interface, start: map<int, Why>) returns (why: map<int, Why>, changed: bool)
    ensures why == KeepEach(start, gone, i.name, i.refs)
    ensures changed <==> why != start
  {
    why, changed := start, false;
    for m := 0 to |i.refs|
      invariant why == KeepEach(start, gone, i.name, i.refs[..m])
      invariant if changed then start.Keys < why.Keys else why == start
    {
      var r := i.refs[m];
      assert i.refs[..m + 1][..m] == i.refs[..m];
      if r in gone && r !in why {
        why, changed := why[r := UsedBy(i.name)], true;
      }
    }
    assert i.refs[..|i.refs|] == i.refs;
  }

  /** One pass over the interfaces. */
  method Pass(have: seq<Interface>, names: set<string>, start: map<int, Why>)
    returns (why: map<int, Why>, changed: bool)
    requires DistinctIds(have) && WhyOk(have, names, start)
    ensures WhyOk(have, names, why)
    ensures if changed then start.Keys < why.Keys
      else why == start && forall i :: i in have ==> Settled(i, Gone(have, names), why)
  {
    var gone := Gone(have, names);
    why, changed := start, false;
    for k := 0 to |have|
      invariant WhyOk(have, names, why)
      invariant if changed then start.Keys < why.Keys
        else why == start && forall j :: 0 <= j < k ==> Settled(have[j], gone, why)
    {
      if !(have[k].id in gone && have[k].id !in why) {
        KeepEachOk(have, names, why, have[k], have[k].refs);
        KeepEachIs(why, gone, have[k].name, have[k].refs);
        var more;
        why, more := KeepPointedAt(gone, have[k], why);
        changed := changed || more;
      }
    }
  }

  lemma KeysSize(a: set<int>, b: set<int>)
    ensures a <= b ==> |a| <= |b|
    ensures a < b ==> |a| < |b|
  {
    if a <= b { assert b == a + (b - a); }
  }

  /** The first loop: everything that must stay, with a reason, and nothing else. */
  method KeptReasons(have: seq<Interface>, names: set<string>) returns (why: map<int, Why>)
    requires DistinctIds(have)
    ensures WhyOk(have, names, why)
    ensures forall i :: i in have ==> (Stays(have, names, i) <==> i.name in names || i.id in why)
  {
    why := Roots(have, names);
    var changed := true;
    while changed
      invariant WhyOk(have, names, why)
      invariant !changed ==> forall i :: i in have ==> Settled(i, Gone(have, names), why)
      decreases |Gone(have, names)| - |why.Keys|, changed
    {
      ghost var start := why;
      why, changed := Pass(have, names, why);
      KeysSize(start.Keys, why.Keys);
      KeysSize(why.Keys, Gone(have, names));
    }
    FixedPointIsStays(have, names, why);
  }

  /** The second loop: layer by layer, each interface after everything that points at it. */
  method DeleteOrder(have: seq<Interface>, start: seq<Interface>) returns (order: seq<Interface>)
    requires DistinctIds(have) && DistinctIds(start) && Acyclic(start)
    requires forall i :: i in start ==> i in have
    requires forall i, s :: i in start && s in have && i.id in s.refs ==> s in start
    ensures Distinct(order) && (forall i :: i in order <==> i in start) && SafeOrder(have, order)
  {
    order := [];
    var left := start;
    while left != []
      invariant DistinctIds(left) && Acyclic(left) && Distinct(order) && SafeOrder(have, order)
      invariant forall i :: i in start <==> i in order || i in left
      invariant forall i :: i in order ==> i !in left
      decreases |left|
    {
      AcyclicHasReady(left);
      ReadyIs(left);
      NextLeftIs(left);
      AcyclicBelow(left, NextLeft(left));
      LayerIsSafe(have, start, order, left);
      order := order + Ready(left);
      left := NextLeft(left);
    }
  }

  lemma LayerIsSafe(have: seq<Interface>, start: seq<Interface>, order: seq<Interface>, left: seq<Interface>)
    requires DistinctIds(left) && Distinct(order) && SafeOrder(have, order)
    requires forall i :: i in start <==> i in order || i in left
    requires forall i :: i in order ==> i !in left
    requires forall i, s :: i in start && s in have && i.id in s.refs ==> s in start
    ensures Distinct(order + Ready(left)) && SafeOrder(have, order + Ready(left))
  {
    var ready := Ready(left);
    ReadyIs(left);
    var next := order + ready;
    forall i, j | 0 <= i < j < |next| ensures next[i] != next[j] {
      if i >= |order| { assert ready[i - |order|] != ready[j - |order|]; }
      else if j >= |order| { assert next[j] in ready && next[i] in order; }
    }
    forall q, s | 0 <= q < |next| && s in have && next[q].id in s.refs ensures s in next[..q] {
      if q < |order| {
        assert next[..q] == order[..q];
      } else {
        assert next[q] in ready;
        assert s in start;
        assert s !in left;
        assert s in order && order <= next[..q];
        assert forall x :: x in order ==> x in next[..q];
      }
    }
  }

  // ---- the whole --------------------------------------------------------------------------------

  function Left(have: seq<Interface>, names: set<string>, why: map<int, Why>): seq<Interface> {
    Only(have, Gone(have, names) - why.Keys)
  }

  lemma {:induction false} OnlyIs(left: seq<Interface>, keep: set<int>)
    requires DistinctIds(left)
    ensures forall i :: i in Only(left, keep) <==> i in left && i.id in keep
    ensures DistinctIds(Only(left, keep))
  {
    if left != [] {
      var tl := left[1..];
      assert forall k :: 0 <= k < |tl| ==> tl[k] == left[k + 1];
      OnlyIs(tl, keep);
      forall x | x in Only(tl, keep) ensures x.id != left[0].id {
        var k :| 0 <= k < |tl| && tl[k] == x;
        assert left[k + 1] == x;
      }
      assert forall x :: x in left <==> x == left[0] || x in tl;
    }
  }

  function Explain(kept: seq<Interface>, why: map<int, Why>): seq<(Interface, Why)> {
    if kept == [] then []
    else (if kept[0].id in why then [(kept[0], why[kept[0].id])] else []) + Explain(kept[1..], why)
  }

  lemma {:induction false} ExplainIs(kept: seq<Interface>, why: map<int, Why>)
    ensures forall i, w :: (i, w) in Explain(kept, why) <==> i in kept && i.id in why && w == why[i.id]
  {
    if kept != [] {
      ExplainIs(kept[1..], why);
      assert forall i :: i in kept <==> i == kept[0] || i in kept[1..];
    }
  }

  /** No two that could go refer round in a cycle. */
  ghost predicate NoCycleAmongRemovable(have: seq<Interface>, names: set<string>) {
    !exists p :: Cycle(have, p) && forall k :: 0 <= k < |p| ==> Removable(have, names, p[k])
  }

  lemma LeftAcyclic(have: seq<Interface>, names: set<string>, left: seq<Interface>)
    requires forall i :: i in left <==> Removable(have, names, i)
    ensures Acyclic(left) <==> NoCycleAmongRemovable(have, names)
  {
    if p :| Cycle(left, p) { assert Cycle(have, p) && forall k :: 0 <= k < |p| ==> Removable(have, names, p[k]); }
    if p :| Cycle(have, p) && forall k :: 0 <= k < |p| ==> Removable(have, names, p[k]) { assert Cycle(left, p); }
  }

  /** stale_interfaces: the removable ones, each once, in an order that never leaves anything
      pointing at a deleted one; and the others Proxmox lacks, each with why it stays. */
  method StaleInterfaces(have: seq<Interface>, names: set<string>)
    returns (order: seq<Interface>, kept: seq<(Interface, Why)>)
    requires DistinctIds(have)
    requires NoCycleAmongRemovable(have, names)
    ensures Distinct(order) && forall i :: i in order <==> Removable(have, names, i)
    ensures SafeOrder(have, order)
    ensures forall i :: (exists w :: (i, w) in kept) <==> i in have && i.name !in names && Stays(have, names, i)
    ensures forall i, w :: (i, w) in kept ==> Reason(have, names, i, w)
    ensures Ascending(kept, (p: (Interface, Why)) => p.0.name)
  {
    var why := KeptReasons(have, names);
    var left := Left(have, names, why);
    OnlyIs(have, Gone(have, names) - why.Keys);
    forall i ensures i in left <==> Removable(have, names, i) { InLeft(have, names, why, i); }
    LeftAcyclic(have, names, left);
    forall i, s | i in left && s in have && i.id in s.refs ensures s in left {
      if Stays(have, names, s) { StaysGrows(have, names, s, i); }
    }
    order := DeleteOrder(have, left);
    var explained := Explain(have, why);
    ExplainIs(have, why);
    kept := SortByKey(explained, (p: (Interface, Why)) => p.0.name);
    SortByKeySorts(explained, (p: (Interface, Why)) => p.0.name);
    SortByKeyHasSame(explained, (p: (Interface, Why)) => p.0.name);
    forall i ensures (exists w :: (i, w) in kept) <==> i in have && i.name !in names && Stays(have, names, i) {
      if i in have && i.id in why { assert (i, why[i.id]) in explained; }
    }
  }

  lemma InLeft(have: seq<Interface>, names: set<string>, why: map<int, Why>, i: Interface)
    requires DistinctIds(have) && WhyOk(have, names, why)
    requires forall i :: i in have ==> (Stays(have, names, i) <==> i.name in names || i.id in why)
    ensures i in Left(have, names, why) <==> Removable(have, names, i)
  {
    OnlyIs(have, Gone(have, names) - why.Keys);
    if i in have && i.id in Gone(have, names) {
      var g :| g in have && g.name !in names && g.id == i.id;
      SameId(have, i, g);
    }
  }
}
