/** apply_substitutions: the walk of scripts/k8s_backup/varsub.py over a parsed document,
    which changes its strings in place. */
module DocumentSubstitution {
  import opened Text
  import opened Documents
  import S = Substitution
  import T = SubstitutionTheorems

  /** The text version, mapped over every string below a dict or a list. */
  function Mapped(t: Tree, subs: seq<S.Sub>): Tree
  {
    match t
    case Text(s) => Text(S.ApplyText(s, subs))
    case Scalar(_) => t
    case Dict(es) => Dict(seq(|es|, i requires 0 <= i < |es| => Entry(es[i].key, Mapped(es[i].val, subs))))
    case List(ts) => List(seq(|ts|, i requires 0 <= i < |ts| => Mapped(ts[i], subs)))
  }

  /** How many strings the walk changes. */
  function Touched(t: Tree, subs: seq<S.Sub>): nat {
    match t
    case Text(s) => if S.ApplyText(s, subs) != s then 1 else 0
    case Scalar(_) => 0
    case Dict(es) => Sum(seq(|es|, i requires 0 <= i < |es| => Touched(es[i].val, subs)))
    case List(ts) => Sum(seq(|ts|, i requires 0 <= i < |ts| => Touched(ts[i], subs)))
  }

  function TouchedBelow(t: Tree, subs: seq<S.Sub>, k: nat): nat
    requires k <= |Kids(t)|
  {
    Sum(seq(k, i requires 0 <= i < k => Touched(Kids(t)[i], subs)))
  }

  method ReplaceAll(val: string, ordered: seq<S.Sub>) returns (text: string)
    ensures text == S.ApplyInOrder(val, ordered)
  {
    text := val;
    for k := 0 to |ordered|
      invariant text == S.ApplyInOrder(val, ordered[..k])
    {
      S.ApplyInOrderSplit(val, ordered[..k], [ordered[k]]);
      assert ordered[..k + 1] == ordered[..k] + [ordered[k]];
      if Contains(text, ordered[k].literal) {
        text := Replace(text, ordered[k].literal, ordered[k].placeholder);
      } else {
        if ordered[k].literal == "" { assert OccursAt("", text, 0); }
        T.ReplaceAbsent(text, ordered[k].literal, ordered[k].placeholder);
      }
    }
    assert ordered[..|ordered|] == ordered;
  }

  lemma {:induction false} ReplaceableOnce(subs: seq<S.Sub>)
    ensures S.Replaceable(S.Replaceable(subs)) == S.Replaceable(subs)
  {
    if subs != [] {
      ReplaceableOnce(subs[1..]);
      var tl := S.Replaceable(subs[1..]);
      if subs[0].replace { assert S.Replaceable(subs)[1..] == tl; } else { assert S.Replaceable(subs) == tl; }
    }
  }

  /** What the walk does depends only on the entries that are replaced. */
  lemma {:induction false} SameEntriesSameWalk(t: Tree, a: seq<S.Sub>, b: seq<S.Sub>)
    requires S.Replaceable(a) == S.Replaceable(b)
    ensures Mapped(t, a) == Mapped(t, b) && Touched(t, a) == Touched(t, b)
  {
    match t
    case Text(_) =>
    case Scalar(_) =>
    case Dict(es) =>
      forall i | 0 <= i < |es| { SameEntriesSameWalk(es[i].val, a, b); }
      assert Mapped(t, a).entries == Mapped(t, b).entries;
      assert seq(|es|, i requires 0 <= i < |es| => Touched(es[i].val, a)) ==
        seq(|es|, i requires 0 <= i < |es| => Touched(es[i].val, b));
    case List(ts) =>
      forall i | 0 <= i < |ts| { SameEntriesSameWalk(ts[i], a, b); }
      assert Mapped(t, a).items == Mapped(t, b).items;
      assert seq(|ts|, i requires 0 <= i < |ts| => Touched(ts[i], a)) ==
        seq(|ts|, i requires 0 <= i < |ts| => Touched(ts[i], b));
  }

  /** A plain setting changes no document and counts for nothing, wherever it is listed. */
  lemma SettingsNeverMatter(t: Tree, a: seq<S.Sub>, e: S.Sub, b: seq<S.Sub>)
    requires !e.replace
    ensures Mapped(t, a + [e] + b) == Mapped(t, a + b) && Touched(t, a + [e] + b) == Touched(t, a + b)
  {
    T.SettingsDrop(a, e, b);
    SameEntriesSameWalk(t, a + [e] + b, a + b);
  }

  /** How many strings of two documents of one shape differ. */
  function Differing(t: Tree, u: Tree): nat {
    match (t, u)
    case (Text(s), Text(v)) => if s == v then 0 else 1
    case (Dict(es), Dict(fs)) =>
      if |es| != |fs| then 0 else Sum(seq(|es|, i requires 0 <= i < |es| => Differing(es[i].val, fs[i].val)))
    case (List(ts), List(us)) =>
      if |ts| != |us| then 0 else Sum(seq(|ts|, i requires 0 <= i < |ts| => Differing(ts[i], us[i])))
    case _ => 0
  }

  /** The count is of the strings that changed. */
  lemma {:induction false} TouchedAreDiffering(t: Tree, subs: seq<S.Sub>)
    ensures Touched(t, subs) == Differing(t, Mapped(t, subs))
  {
    match t
    case Text(_) =>
    case Scalar(_) =>
    case Dict(es) =>
      forall i | 0 <= i < |es| { TouchedAreDiffering(es[i].val, subs); }
      var fs := Mapped(t, subs).entries;
      assert seq(|es|, i requires 0 <= i < |es| => Touched(es[i].val, subs)) ==
        seq(|es|, i requires 0 <= i < |es| => Differing(es[i].val, fs[i].val));
    case List(ts) =>
      forall i | 0 <= i < |ts| { TouchedAreDiffering(ts[i], subs); }
      var us := Mapped(t, subs).items;
      assert seq(|ts|, i requires 0 <= i < |ts| => Touched(ts[i], subs)) ==
        seq(|ts|, i requires 0 <= i < |ts| => Differing(ts[i], us[i]));
  }

  /** A document that holds none of the literals to be replaced is left alone. */
  lemma {:induction false} NothingToReplace(t: Tree, subs: seq<S.Sub>)
    requires forall s, e :: HasLeaf(t, s) && e in subs && e.replace ==> !Contains(s, e.literal)
    ensures Mapped(t, subs) == t && Touched(t, subs) == 0
  {
    match t
    case Text(s) =>
      assert HasLeaf(t, s);
      T.NothingToReplace(s, subs);
    case Scalar(_) =>
    case Dict(es) =>
      forall i | 0 <= i < |es| ensures Mapped(es[i].val, subs) == es[i].val && Touched(es[i].val, subs) == 0 {
        forall s | HasLeaf(es[i].val, s) ensures HasLeaf(t, s) {}
        NothingToReplace(es[i].val, subs);
      }
      assert Mapped(t, subs).entries == es;
      NoneToSum(seq(|es|, i requires 0 <= i < |es| => Touched(es[i].val, subs)));
    case List(ts) =>
      forall i | 0 <= i < |ts| ensures Mapped(ts[i], subs) == ts[i] && Touched(ts[i], subs) == 0 {
        forall s | HasLeaf(ts[i], s) ensures HasLeaf(t, s) {}
        NothingToReplace(ts[i], subs);
      }
      assert Mapped(t, subs).items == ts;
      NoneToSum(seq(|ts|, i requires 0 <= i < |ts| => Touched(ts[i], subs)));
  }

  lemma {:induction false} NoneToSum(ns: seq<nat>)
    requires forall i :: 0 <= i < |ns| ==> ns[i] == 0
    ensures Sum(ns) == 0
  {
    if ns != [] { NoneToSum(ns[..|ns| - 1]); }
  }

  /** The walk over one node's slots, adding up as it goes. */
  lemma TouchedStep(t: Tree, subs: seq<S.Sub>, k: nat)
    requires k < |Kids(t)|
    ensures TouchedBelow(t, subs, k + 1) == TouchedBelow(t, subs, k) + Touched(Kids(t)[k], subs)
  {
    var a, b := seq(k + 1, i requires 0 <= i < k + 1 => Touched(Kids(t)[i], subs)),
      seq(k, i requires 0 <= i < k => Touched(Kids(t)[i], subs));
    assert a[..|a| - 1] == b;
  }

  lemma WalkDone(before: Tree, after: Tree, subs: seq<S.Sub>)
    requires before.Dict? || before.List?
    requires before.Dict? ==>
      after.Dict? && |after.entries| == |before.entries|
      && forall i :: 0 <= i < |before.entries| ==> after.entries[i].key == before.entries[i].key
    requires before.List? ==> after.List?
    requires |Kids(after)| == |Kids(before)|
    requires forall i :: 0 <= i < |Kids(before)| ==> Kids(after)[i] == Mapped(Kids(before)[i], subs)
    ensures after == Mapped(before, subs) && Touched(before, subs) == TouchedBelow(before, subs, |Kids(before)|)
  {
    var n := |Kids(before)|;
    match before
    case Dict(es) =>
      forall i | 0 <= i < n ensures after.entries[i] == Mapped(before, subs).entries[i] {
        assert Kids(after)[i] == after.entries[i].val;
      }
      assert after.entries == Mapped(before, subs).entries;
      assert seq(|es|, i requires 0 <= i < |es| => Touched(es[i].val, subs)) ==
        seq(n, i requires 0 <= i < n => Touched(Kids(before)[i], subs));
    case List(ts) =>
      assert after.items == Mapped(before, subs).items;
      assert seq(|ts|, i requires 0 <= i < |ts| => Touched(ts[i], subs)) ==
        seq(n, i requires 0 <= i < n => Touched(Kids(before)[i], subs));
  }

  /** One slot's turn: a string is replaced, a dict or list walked, the other slots left as they were. */
  method InSlot(n: Node, i: nat, active: seq<S.Sub>) returns (count: nat)
    requires n.Valid() && i < |n.slots|
    modifies n.Repr
    ensures n.Valid() && |n.slots| == |old(n.slots)|
    ensures forall j :: 0 <= j < |n.slots| && j != i ==> TreeOf(n.slots[j]) == old(TreeOf(n.slots[j]))
    ensures TreeOf(n.slots[i]) == Mapped(old(TreeOf(n.slots[i])), active)
    ensures count == Touched(old(TreeOf(n.slots[i])), active)
    decreases n.Repr, 0
  {
    count := 0;
    if n.slots[i].Str? {
      var val := n.slots[i].s;
      var text := ReplaceAll(val, S.Order(active));
      if text != val {
        SetText(n, i, text);
        count := 1;
      }
    } else if n.slots[i].Sub? {
      count := InChild(n, i, active);
    }
  }

  method InChild(n: Node, i: nat, active: seq<S.Sub>) returns (count: nat)
    requires n.Valid() && i < |n.slots| && n.slots[i].Sub?
    modifies n.slots[i].node.Repr
    ensures n.Valid() && n.slots == old(n.slots)
    ensures forall j :: 0 <= j < |n.slots| && j != i ==> TreeOf(n.slots[j]) == old(TreeOf(n.slots[j]))
    ensures TreeOf(n.slots[i]) == Mapped(old(TreeOf(n.slots[i])), active)
    ensures count == Touched(old(TreeOf(n.slots[i])), active)
    decreases n.slots[i].node.Repr, 2
  {
    count := ApplySubstitutions(n.slots[i].node, active);
    forall j | 0 <= j < |n.slots| && j != i && n.slots[j].Sub?
      ensures n.slots[j].node.Valid() && n.slots[j].node.ToTree() == old(n.slots[j].node.ToTree())
    {
      assert n.slots[j].node.Repr !! n.slots[i].node.Repr;
    }
  }

  /** apply_substitutions: every string below the node is replaced, longest literal first;
      the count is of the strings that changed. */
  method ApplySubstitutions(n: Node, subs: seq<S.Sub>) returns (count: nat)
    requires n.Valid()
    modifies n.Repr
    ensures n.Valid()
    ensures n.ToTree() == Mapped(old(n.ToTree()), subs)
    ensures count == Touched(old(n.ToTree()), subs)
    decreases n.Repr, 1
  {
    ghost var before := n.ToTree();
    KidsAreSlots(n);
    var active := S.Replaceable(subs);
    count := 0;
    for i := 0 to |n.slots|
      invariant |n.slots| == |Kids(before)| && n.Valid()
      invariant forall j :: 0 <= j < i ==> TreeOf(n.slots[j]) == Mapped(Kids(before)[j], active)
      invariant forall j :: i <= j < |n.slots| ==> TreeOf(n.slots[j]) == Kids(before)[j]
      invariant count == TouchedBelow(before, active, i)
    {
      TouchedStep(before, active, i);
      var more := InSlot(n, i, active);
      count := count + more;
    }
    KidsAreSlots(n);
    WalkDone(before, n.ToTree(), active);
    ReplaceableOnce(subs);
    SameEntriesSameWalk(before, active, subs);
  }

  /** A string somewhere in the document. */
  ghost predicate HasLeaf(t: Tree, s: string) {
    match t
    case Text(u) => u == s
    case Scalar(_) => false
    case Dict(es) => exists i :: 0 <= i < |es| && HasLeaf(es[i].val, s)
    case List(ts) => exists i :: 0 <= i < |ts| && HasLeaf(ts[i], s)
  }

  /** Nothing private is left in any string of any document. */
  lemma {:induction false} LiteralsGoneFromDocument(t: Tree, subs: seq<S.Sub>, e: S.Sub, s: string)
    requires T.EntriesApart(subs) && e in subs && e.replace
    requires HasLeaf(Mapped(t, subs), s)
    ensures !Contains(s, e.literal)
  {
    match t
    case Text(u) => T.LiteralsGone(u, subs, e);
    case Scalar(_) =>
    case Dict(es) =>
      var k :| 0 <= k < |es| && HasLeaf(Mapped(t, subs).entries[k].val, s);
      LiteralsGoneFromDocument(es[k].val, subs, e, s);
    case List(ts) =>
      var k :| 0 <= k < |ts| && HasLeaf(Mapped(t, subs).items[k], s);
      LiteralsGoneFromDocument(ts[k], subs, e, s);
  }

  /** escape_foreign_variables: a copy with every string escaped. */
  function Escaped(t: Tree, known: set<string>): Tree {
    match t
    case Text(s) => Text(S.Escape(s, known))
    case Scalar(_) => t
    case Dict(es) => Dict(seq(|es|, i requires 0 <= i < |es| => Entry(es[i].key, Escaped(es[i].val, known))))
    case List(ts) => List(seq(|ts|, i requires 0 <= i < |ts| => Escaped(ts[i], known)))
  }

  /** Flux's substitution, string by string, turns the first document into the second. */
  ghost predicate ExpandsTo(t: Tree, env: map<string, string>, u: Tree) {
    match (t, u)
    case (Text(s), Text(v)) => S.Expand(s, env) == Some(v)
    case (Scalar(c), Scalar(d)) => c == d
    case (Dict(es), Dict(fs)) => |es| == |fs| && forall i :: 0 <= i < |es| ==>
      es[i].key == fs[i].key && ExpandsTo(es[i].val, env, fs[i].val)
    case (List(ts), List(us)) => |ts| == |us| && forall i :: 0 <= i < |ts| ==> ExpandsTo(ts[i], env, us[i])
    case _ => false
  }

  ghost predicate LeavesLive(t: Tree, subs: seq<S.Sub>, env: map<string, string>) {
    forall s :: HasLeaf(t, s) ==> S.UsedAreLive(s, S.Order(subs), env)
  }

  lemma LeavesOfKids(t: Tree, subs: seq<S.Sub>, env: map<string, string>)
    requires t.Dict? || t.List?
    ensures LeavesLive(t, subs, env) <==> forall i :: 0 <= i < |Kids(t)| ==> LeavesLive(Kids(t)[i], subs, env)
    ensures forall i, s :: 0 <= i < |Kids(t)| && HasLeaf(Kids(t)[i], s) ==> HasLeaf(t, s)
  {
    forall i, s | 0 <= i < |Kids(t)| && HasLeaf(Kids(t)[i], s) ensures HasLeaf(t, s) {
      if t.Dict? { assert HasLeaf(t.entries[i].val, s); } else { assert HasLeaf(t.items[i], s); }
    }
    if forall i :: 0 <= i < |Kids(t)| ==> LeavesLive(Kids(t)[i], subs, env) {
      forall s | HasLeaf(t, s) ensures S.UsedAreLive(s, S.Order(subs), env) {
        var i := KidWithLeaf(t, s);
        assert LeavesLive(Kids(t)[i], subs, env);
      }
    }
  }

  lemma KidWithLeaf(t: Tree, s: string) returns (i: nat)
    requires (t.Dict? || t.List?) && HasLeaf(t, s)
    ensures i < |Kids(t)| && HasLeaf(Kids(t)[i], s)
  {
    match t
    case Dict(es) => i :| 0 <= i < |es| && HasLeaf(es[i].val, s);
    case List(ts) => i :| 0 <= i < |ts| && HasLeaf(ts[i], s);
  }

  ghost predicate ComesBack(t: Tree, subs: seq<S.Sub>, known: set<string>, env: map<string, string>) {
    ExpandsTo(Escaped(Mapped(t, subs), known), env, t)
  }

  lemma BackOfKids(t: Tree, subs: seq<S.Sub>, known: set<string>, env: map<string, string>)
    requires t.Dict? || t.List?
    ensures ComesBack(t, subs, known, env) <==>
      forall i :: 0 <= i < |Kids(t)| ==> ComesBack(Kids(t)[i], subs, known, env)
  {
    var u := Escaped(Mapped(t, subs), known);
    match t
    case Dict(es) =>
      assert |u.entries| == |es| == |Kids(t)|;
      forall i | 0 <= i < |es|
        ensures u.entries[i].key == es[i].key && u.entries[i].val == Escaped(Mapped(es[i].val, subs), known) &&
          Kids(t)[i] == es[i].val {}
    case List(ts) =>
      assert |u.items| == |ts| == |Kids(t)|;
      forall i | 0 <= i < |ts| ensures u.items[i] == Escaped(Mapped(ts[i], subs), known) && Kids(t)[i] == ts[i] {}
  }

  /** A promoted document, captured and escaped, is applied by Flux as it was when every
      entry its strings use is live, and, while rotated values don't differ in both
      directions, only then. */
  lemma {:induction false} DocumentRoundTrip(t: Tree, subs: seq<S.Sub>, known: set<string>, env: map<string, string>)
    requires forall s :: HasLeaf(t, s) ==> S.OnlyForeignReferences(s, known) && S.LiteralsClear(s, S.Order(subs))
    requires S.LaterLiteralsApart(S.Order(subs)) && S.NamesKnown(S.Order(subs), known)
    ensures LeavesLive(t, subs, env) ==> ComesBack(t, subs, known, env)
    ensures S.NoneLonger(S.Order(subs), env) || S.NoneShorter(S.Order(subs), env) ==>
      (ComesBack(t, subs, known, env) <==> LeavesLive(t, subs, env))
  {
    match t
    case Text(s) =>
      T.RoundTripWhileLive(s, subs, known, env);
      assert HasLeaf(t, s);
    case Scalar(_) =>
    case _ =>
      LeavesOfKids(t, subs, env);
      BackOfKids(t, subs, known, env);
      forall i | 0 <= i < |Kids(t)|
        ensures LeavesLive(Kids(t)[i], subs, env) ==> ComesBack(Kids(t)[i], subs, known, env)
        ensures S.NoneLonger(S.Order(subs), env) || S.NoneShorter(S.Order(subs), env) ==>
          (ComesBack(Kids(t)[i], subs, known, env) <==> LeavesLive(Kids(t)[i], subs, env))
      {
        DocumentRoundTrip(Kids(t)[i], subs, known, env);
      }
  }
}
